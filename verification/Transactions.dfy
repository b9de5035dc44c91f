/** MULTI, EXEC, DISCARD, WATCH and UNWATCH over the keyspace, for any number of clients whose
    commands arrive in any order (transaction_handler.c, handler.c). */
module Transactions {
  import opened Seqs
  import opened Commands
  import opened Resp
  import opened Tables
  import opened Keyspace

  /** is_queued, is_dirty, the queued requests and the watched keys of a client. */
  datatype Client = Client(queued: bool, dirty: bool, queue: seq<Request>, watched: seq<Key>)

  const NEW_CLIENT := Client(false, false, [], [])

  /** Watchers are kept per hash bucket; a client that is removed leaves an empty slot. The log is
      what write_to_file has appended to the append-only file, in printed form. */
  datatype Server = Server(table: Keys, clients: seq<Client>, watchers: seq<seq<Option<nat>>>, log: seq<Request>)

  predicate Shaped(s: Server) {
    |s.table| == TABLE_SIZE && |s.watchers| == TABLE_SIZE
  }

  /** A command from a client; env gives the surroundings of each command that it executes. */
  datatype Event = Event(client: nat, request: Request, env: nat -> Env)

  /** Crashed: the C leaves its memory, or frees a watched key twice. */
  datatype Outcome = Next(server: Server) | Crashed

  // ----- notify_watchers -----

  predicate Watching(list: seq<Option<nat>>, client: nat) {
    Some(client) in list
  }

  function Told(watching: bool, client: Client): Client {
    if watching then client.(dirty := true) else client
  }

  function Notify(s: Server, bucket: nat): (r: Server)
    requires Shaped(s) && bucket < TABLE_SIZE
    ensures r.table == s.table && r.watchers == s.watchers && r.log == s.log && |r.clients| == |s.clients|
    ensures forall c | 0 <= c < |s.clients| :: r.clients[c] == Told(Watching(s.watchers[bucket], c), s.clients[c])
  {
    s.(clients := seq(|s.clients|, c requires 0 <= c < |s.clients| =>
      Told(Watching(s.watchers[bucket], c), s.clients[c])))
  }

  // ----- one data command -----

  function Written(log: seq<Request>, req: Request): seq<Request> {
    if Logged(req.cmd) then log + [req] else log
  }

  function Execute(s: Server, req: Request, env: Env): (r: Outcome)
    requires Shaped(s)
    ensures r.Next? ==> Shaped(r.server) && |r.server.clients| == |s.clients| && r.server.watchers == s.watchers
  {
    var effect := Apply(s.table, req, env);
    if effect.Crash? then Crashed
    else
      var done := s.(table := effect.table, log := Written(s.log, req));
      Next(if Notifies(req.cmd) then Notify(done, Bucket(req.args[0])) else done)
  }

  function ExecuteAll(s: Server, reqs: seq<Request>, env: nat -> Env, i: nat): (r: Outcome)
    requires Shaped(s) && i <= |reqs|
    ensures r.Next? ==> Shaped(r.server) && |r.server.clients| == |s.clients| && r.server.watchers == s.watchers
    decreases |reqs| - i
  {
    if i == |reqs| then Next(s)
    else
      var r := Execute(s, reqs[i], env(i));
      if r.Next? then ExecuteAll(r.server, reqs, env, i + 1) else Crashed
  }

  // ----- the transaction commands -----

  function WithClient(s: Server, c: nat, client: Client): (r: Server)
    requires Shaped(s) && c < |s.clients|
    ensures Shaped(r) && |r.clients| == |s.clients|
  {
    s.(clients := s.clients[c := client])
  }

  function Vacated(list: seq<Option<nat>>, c: nat): (r: seq<Option<nat>>)
    ensures |r| == |list| && !Watching(r, c)
    ensures forall d | d != c :: Watching(r, d) <==> Watching(list, d)
  {
    var r := seq(|list|, i requires 0 <= i < |list| => if list[i] == Some(c) then None else list[i]);
    assert forall d | d != c && Watching(list, d) :: Watching(r, d) by {
      forall d | d != c && Watching(list, d) ensures Watching(r, d) {
        var i :| 0 <= i < |list| && list[i] == Some(d);
        assert r[i] == Some(d);
      }
    }
    r
  }

  /** delete_watched_keys: the client leaves the list of every bucket that it watches a key of. */
  function ForgetFrom(watchers: seq<seq<Option<nat>>>, c: nat, keys: seq<Key>): (r: seq<seq<Option<nat>>>)
    requires |watchers| == TABLE_SIZE
    ensures |r| == TABLE_SIZE
    ensures forall b, d | 0 <= b < TABLE_SIZE && d != c :: Watching(r[b], d) <==> Watching(watchers[b], d)
    decreases |keys|
  {
    if keys == [] then watchers
    else
      var b := Bucket(keys[0]);
      ForgetFrom(watchers[b := Vacated(watchers[b], c)], c, keys[1..])
  }

  function DeleteWatchedKeys(s: Server, c: nat): (r: Server)
    requires Shaped(s) && c < |s.clients|
    ensures Shaped(r) && |r.clients| == |s.clients| && r.table == s.table
  {
    s.(clients := s.clients[c := s.clients[c].(dirty := false, watched := [])],
       watchers := ForgetFrom(s.watchers, c, s.clients[c].watched))
  }

  function SlotCount(list: seq<Option<nat>>, c: nat): nat {
    if list == [] then 0 else (if list[0] == Some(c) then 1 else 0) + SlotCount(list[1..], c)
  }

  /** delete_watched_keys frees a key once for every slot that it empties on the way. */
  predicate NeverFreesTwice(watchers: seq<seq<Option<nat>>>, c: nat, keys: seq<Key>)
    requires |watchers| == TABLE_SIZE
    decreases |keys|
  {
    keys == [] ||
    (var b := Bucket(keys[0]);
     SlotCount(watchers[b], c) <= 1 && NeverFreesTwice(watchers[b := Vacated(watchers[b], c)], c, keys[1..]))
  }

  function Forget(s: Server, c: nat): (r: Outcome)
    requires Shaped(s) && c < |s.clients|
    ensures r.Next? ==> Shaped(r.server) && |r.server.clients| == |s.clients|
  {
    if NeverFreesTwice(s.watchers, c, s.clients[c].watched) then Next(DeleteWatchedKeys(s, c)) else Crashed
  }

  /** The new entries of WATCH: one slot at the end of the key's bucket for each key. */
  function WatchIn(watchers: seq<seq<Option<nat>>>, c: nat, keys: seq<Key>): (r: seq<seq<Option<nat>>>)
    requires |watchers| == TABLE_SIZE
    ensures |r| == TABLE_SIZE
    ensures forall b | 0 <= b < TABLE_SIZE :: watchers[b] <= r[b]
    ensures forall k | k in keys :: Watching(r[Bucket(k)], c)
    decreases |keys|
  {
    if keys == [] then watchers
    else
      var b := Bucket(keys[0]);
      var w := watchers[b := watchers[b] + [Some(c)]];
      assert w[b][|watchers[b]|] == Some(c);
      var r := WatchIn(w, c, keys[1..]);
      assert r[b][|watchers[b]|] == Some(c);
      r
  }

  function Watch(s: Server, c: nat, keys: seq<Key>): (r: Server)
    requires Shaped(s) && c < |s.clients|
    ensures Shaped(r) && |r.clients| == |s.clients| && r.table == s.table
  {
    s.(clients := s.clients[c := s.clients[c].(watched := s.clients[c].watched + keys)],
       watchers := WatchIn(s.watchers, c, keys))
  }

  function Unqueued(s: Server, c: nat): (r: Server)
    requires Shaped(s) && c < |s.clients|
    ensures Shaped(r) && |r.clients| == |s.clients|
  {
    WithClient(s, c, s.clients[c].(queued := false, queue := []))
  }

  /** handle_exec of a client that has called MULTI. */
  function Exec(s: Server, c: nat, env: nat -> Env): (r: Outcome)
    requires Shaped(s) && c < |s.clients|
    ensures r.Next? ==> Shaped(r.server) && |r.server.clients| == |s.clients|
  {
    if s.clients[c].dirty then Forget(Unqueued(s, c), c)
    else ExecuteAll(Unqueued(s, c), s.clients[c].queue, env, 0)
  }

  function ExecIfQueued(s: Server, c: nat, env: nat -> Env): (r: Outcome)
    requires Shaped(s) && c < |s.clients|
    ensures r.Next? ==> Shaped(r.server) && |r.server.clients| == |s.clients|
  {
    if s.clients[c].queued then Exec(s, c, env) else Next(s)
  }

  predicate IsTransactionCmd(cmd: Cmd) {
    cmd.MULTI? || cmd.EXEC? || cmd.DISCARD? || cmd.WATCH? || cmd.UNWATCH?
  }

  predicate IndexedKeys(keys: seq<string>) { forall k | k in keys :: Indexes(k) }

  function Multi(s: Server, c: nat): Server
    requires Shaped(s) && c < |s.clients|
  {
    if s.clients[c].queued then s else WithClient(s, c, s.clients[c].(queued := true, queue := []))
  }

  function Discard(s: Server, c: nat): (r: Outcome)
    requires Shaped(s) && c < |s.clients|
    ensures r.Next? ==> Shaped(r.server) && |r.server.clients| == |s.clients|
  {
    if s.clients[c].queued then Forget(Unqueued(s, c), c) else Next(s)
  }

  function WatchUnqueued(s: Server, c: nat, keys: seq<string>): (r: Outcome)
    requires Shaped(s) && c < |s.clients|
    ensures r.Next? ==> Shaped(r.server) && |r.server.clients| == |s.clients|
  {
    if s.clients[c].queued then Next(s) else if !IndexedKeys(keys) then Crashed else Next(Watch(s, c, keys))
  }

  /** The transaction commands. */
  function Transact(s: Server, c: nat, req: Request, env: nat -> Env): (r: Outcome)
    requires Shaped(s) && c < |s.clients|
    ensures r.Next? ==> Shaped(r.server) && |r.server.clients| == |s.clients|
  {
    match req.cmd
    case MULTI => Next(Multi(s, c))
    case EXEC => ExecIfQueued(s, c, env)
    case DISCARD => Discard(s, c)
    case WATCH => WatchUnqueued(s, c, req.args)
    case UNWATCH => Forget(s, c)
    case _ => Next(s)
  }

  /** handle */
  function Handle(s: Server, e: Event): (r: Outcome)
    requires Shaped(s) && e.client < |s.clients|
    ensures r.Next? ==> Shaped(r.server) && |r.server.clients| == |s.clients|
  {
    var c, cmd := e.client, e.request.cmd;
    var client := s.clients[c];
    if client.queued && !IsTransactionCmd(cmd) then
      Next(WithClient(s, c, client.(queue := client.queue + [e.request])))
    else if IsTransactionCmd(cmd) then Transact(s, c, e.request, e.env)
    else Execute(s, e.request, e.env(0))
  }

  predicate Idle(s: Server, c: nat)
    requires c < |s.clients|
  {
    !s.clients[c].queued && s.clients[c].queue == []
  }

  lemma {:induction false} HandleOfData(s: Server, e: Event)
    requires Shaped(s) && e.client < |s.clients|
    requires !s.clients[e.client].queued && !IsTransactionCmd(e.request.cmd)
    ensures Handle(s, e) == Execute(s, e.request, e.env(0))
  {
  }

  lemma {:induction false} ExecuteKeepsIdle(s: Server, req: Request, env: Env, c: nat)
    requires Shaped(s) && c < |s.clients| && Idle(s, c) && Execute(s, req, env).Next?
    ensures Idle(Execute(s, req, env).server, c)
  {
  }

  lemma {:induction false} WatchOne(s: Server, c: nat, key: Key)
    requires Shaped(s) && c < |s.clients|
    ensures Watch(s, c, [key]).watchers == s.watchers[Bucket(key) := s.watchers[Bucket(key)] + [Some(c)]]
  {
    var w := s.watchers[Bucket(key) := s.watchers[Bucket(key)] + [Some(c)]];
    var one := [key];
    assert one[1..] == [];
    assert WatchIn(w, c, one[1..]) == w;
  }

  /** Watching keys one by one is watching them all. */
  lemma {:induction false} WatchStep(s: Server, c: nat, keys: seq<Key>)
    requires Shaped(s) && c < |s.clients| && keys != []
    ensures Watch(Watch(s, c, [keys[0]]), c, keys[1..]) == Watch(s, c, keys)
  {
    WatchOne(s, c, keys[0]);
    assert s.clients[c].watched + [keys[0]] + keys[1..] == s.clients[c].watched + keys;
  }

  lemma {:induction false} WatchNone(s: Server, c: nat)
    requires Shaped(s) && c < |s.clients|
    ensures Watch(s, c, []) == s
  {
    assert s.clients[c].watched + [] == s.clients[c].watched;
  }

  // ----- runs -----

  ghost predicate IsRun(states: seq<Server>, events: seq<Event>) {
    && |states| == |events| + 1
    && (forall i | 0 <= i <= |events| :: Shaped(states[i]))
    && (forall i | 0 <= i < |events| :: events[i].client < |states[i].clients|)
    && (forall i | 0 <= i < |events| :: Handle(states[i], events[i]) == Next(states[i + 1]))
  }

  lemma {:induction false} AtStep(states: seq<Server>, events: seq<Event>, i: nat)
    requires IsRun(states, events) && i < |events|
    ensures Shaped(states[i]) && events[i].client < |states[i].clients|
    ensures Handle(states[i], events[i]) == Next(states[i + 1])
  {
  }

  // ----- no missed conflict -----

  /** Client c watches bucket b, and is dirty if the bucket is no longer what it was. */
  ghost predicate Guarded(s: Server, c: nat, b: nat, chain: seq<Entry<Value>>) {
    && Shaped(s) && c < |s.clients| && b < TABLE_SIZE
    && Watching(s.watchers[b], c)
    && (s.clients[c].dirty || s.table[b] == chain)
  }

  /** The command does not change bucket b silently. */
  predicate Quiet(t: Keys, req: Request, b: nat)
    requires |t| == TABLE_SIZE
  {
    !(ChangesSilently(t, req) && Bucket(req.args[0]) == b)
  }

  /** While the client is clean, a data command keeps its guard exactly when it does not change
      the bucket silently. */
  lemma {:induction false} ExecuteKeepsGuardIff(s: Server, req: Request, env: Env, c: nat, b: nat,
      chain: seq<Entry<Value>>)
    requires Guarded(s, c, b, chain) && !s.clients[c].dirty && Execute(s, req, env).Next?
    ensures Guarded(Execute(s, req, env).server, c, b, chain) <==> Quiet(s.table, req, b)
  {
    var t := Apply(s.table, req, env).table;
    UnnotifiedChange(s.table, req, env);
    if Touches(req) {
      var k := Bucket(req.args[0]);
      if k != b {
        ApplyIsLocal(s.table, req, env, b);
      } else if t[b] == s.table[b] {
        assert t == s.table by {
          forall i | 0 <= i < TABLE_SIZE ensures t[i] == s.table[i] {
            if i != b { ApplyIsLocal(s.table, req, env, i); }
          }
        }
      }
    }
  }

  lemma {:induction false} ExecuteKeepsGuard(s: Server, req: Request, env: Env, c: nat, b: nat,
      chain: seq<Entry<Value>>)
    requires Guarded(s, c, b, chain) && Execute(s, req, env).Next?
    requires s.clients[c].dirty || Quiet(s.table, req, b)
    ensures Guarded(Execute(s, req, env).server, c, b, chain)
  {
    if !s.clients[c].dirty {
      ExecuteKeepsGuardIff(s, req, env, c, b, chain);
    }
  }

  /** The commands that a run of requests executes are quiet on bucket b. */
  ghost predicate QuietAll(s: Server, reqs: seq<Request>, env: nat -> Env, i: nat, b: nat)
    requires Shaped(s) && i <= |reqs|
    decreases |reqs| - i
  {
    i == |reqs| ||
    (Quiet(s.table, reqs[i], b) &&
     (var r := Execute(s, reqs[i], env(i)); r.Next? ==> QuietAll(r.server, reqs, env, i + 1, b)))
  }

  lemma {:induction false} ExecuteAllKeepsGuard(s: Server, reqs: seq<Request>, env: nat -> Env, i: nat, c: nat, b: nat,
      chain: seq<Entry<Value>>)
    requires i <= |reqs| && Guarded(s, c, b, chain) && ExecuteAll(s, reqs, env, i).Next?
    requires s.clients[c].dirty || QuietAll(s, reqs, env, i, b)
    ensures Guarded(ExecuteAll(s, reqs, env, i).server, c, b, chain)
    decreases |reqs| - i
  {
    if i < |reqs| {
      ExecuteKeepsGuard(s, reqs[i], env(i), c, b, chain);
      ExecuteAllKeepsGuard(Execute(s, reqs[i], env(i)).server, reqs, env, i + 1, c, b, chain);
    }
  }

  predicate Commits(s: Server, e: Event)
    requires e.client < |s.clients|
  {
    e.request.cmd.EXEC? && s.clients[e.client].queued && !s.clients[e.client].dirty
  }

  /** The event queues a data command. */
  predicate Queues(s: Server, e: Event)
    requires e.client < |s.clients|
  {
    s.clients[e.client].queued && !IsTransactionCmd(e.request.cmd)
  }

  /** No command that the event executes changes bucket b silently. */
  ghost predicate QuietEvent(s: Server, e: Event, b: nat)
    requires Shaped(s) && e.client < |s.clients|
  {
    if Commits(s, e) then
      QuietAll(Unqueued(s, e.client),
               s.clients[e.client].queue, e.env, 0, b)
    else
      IsTransactionCmd(e.request.cmd) || Queues(s, e) || Quiet(s.table, e.request, b)
  }

  /** The event empties the client's watch list: UNWATCH, a DISCARD, or an EXEC that aborts. */
  predicate Clears(s: Server, e: Event, c: nat)
    requires e.client < |s.clients|
  {
    e.client == c &&
    (e.request.cmd.UNWATCH? ||
     (s.clients[c].queued && (e.request.cmd.DISCARD? || (e.request.cmd.EXEC? && s.clients[c].dirty))))
  }

  lemma {:induction false} HandleKeepsGuard(s: Server, e: Event, c: nat, b: nat, chain: seq<Entry<Value>>)
    requires Guarded(s, c, b, chain) && e.client < |s.clients| && Handle(s, e).Next? && !Clears(s, e, c)
    requires s.clients[c].dirty || QuietEvent(s, e, b)
    ensures Guarded(Handle(s, e).server, c, b, chain)
  {
    if Commits(s, e) {
      var d := e.client;
      var left := Unqueued(s, d);
      ExecuteAllKeepsGuard(left, s.clients[d].queue, e.env, 0, c, b, chain);
    } else if !IsTransactionCmd(e.request.cmd) && !Queues(s, e) {
      ExecuteKeepsGuard(s, e.request, e.env(0), c, b, chain);
    } else if e.request.cmd.WATCH? && !s.clients[e.client].queued {
      WatchKeepsGuard(s, e.client, e.request.args, c, b, chain);
    }
  }

  lemma {:induction false} WatchKeepsGuard(s: Server, d: nat, keys: seq<Key>, c: nat, b: nat, chain: seq<Entry<Value>>)
    requires Guarded(s, c, b, chain) && d < |s.clients|
    ensures Guarded(Watch(s, d, keys), c, b, chain)
  {
    var i :| 0 <= i < |s.watchers[b]| && s.watchers[b][i] == Some(c);
    var r := WatchIn(s.watchers, d, keys);
    assert s.watchers[b] <= r[b];
    assert r[b][i] == Some(c);
  }

  lemma {:induction false} StepKeepsGuard(states: seq<Server>, events: seq<Event>, i: nat, c: nat, b: nat,
      chain: seq<Entry<Value>>)
    requires IsRun(states, events) && i < |events| && Guarded(states[i], c, b, chain)
    requires !Clears(states[i], events[i], c) && QuietEvent(states[i], events[i], b)
    ensures Guarded(states[i + 1], c, b, chain)
  {
    AtStep(states, events, i);
    HandleKeepsGuard(states[i], events[i], c, b, chain);
  }

  lemma {:induction false} RunKeepsGuard(states: seq<Server>, events: seq<Event>, w: nat, x: nat, c: nat, b: nat,
      chain: seq<Entry<Value>>)
    requires IsRun(states, events) && w <= x <= |events| && Guarded(states[w], c, b, chain)
    requires forall i | w <= i < x :: !Clears(states[i], events[i], c) && QuietEvent(states[i], events[i], b)
    ensures Guarded(states[x], c, b, chain)
  {
    var holds := (s: Server) => Guarded(s, c, b, chain);
    forall i | w <= i < x && holds(states[i]) ensures holds(states[i + 1]) {
      StepKeepsGuard(states, events, i, c, b, chain);
    }
    Carries(states, holds, w, x);
  }

  /** The client watches the key from event w on, still does at x, and then commits. */
  ghost predicate WatchedUntilCommit(states: seq<Server>, events: seq<Event>, w: nat, x: nat, c: nat, key: Key) {
    && IsRun(states, events) && w < x < |events|
    && events[w].client == c && events[w].request.cmd.WATCH? && key in events[w].request.args
    && !states[w].clients[c].queued
    && events[x].client == c && Commits(states[x], events[x])
    && forall i | w < i < x :: !Clears(states[i], events[i], c)
  }

  lemma {:induction false} WatchGuards(s: Server, e: Event, key: Key)
    requires Shaped(s) && e.client < |s.clients| && e.request.cmd.WATCH? && !s.clients[e.client].queued
    requires key in e.request.args && Handle(s, e).Next?
    ensures Guarded(Handle(s, e).server, e.client, Bucket(key), s.table[Bucket(key)])
  {
    var keys: seq<Key> := e.request.args;
    assert key in keys;
    assert Watching(WatchIn(s.watchers, e.client, keys)[Bucket(key)], e.client);
  }

  /** No missed conflict, for runs in which nothing changes the key's bucket silently: an EXEC
      that commits finds the whole bucket of every key it watches as WATCH left it, and with it
      the binding of the key. */
  lemma {:induction false} NoMissedConflict(states: seq<Server>, events: seq<Event>, w: nat, x: nat, c: nat, key: Key)
    requires WatchedUntilCommit(states, events, w, x, c, key)
    requires forall i | w < i < x :: QuietEvent(states[i], events[i], Bucket(key))
    ensures states[x].table[Bucket(key)] == states[w].table[Bucket(key)]
    ensures GetEntry(states[x].table, key) == GetEntry(states[w].table, key)
  {
    AtStep(states, events, w);
    WatchGuards(states[w], events[w], key);
    RunKeepsGuard(states, events, w + 1, x, c, Bucket(key), states[w].table[Bucket(key)]);
  }

  lemma {:induction false} StepWatch(s: Server, c: nat, key: Key, env: nat -> Env)
    requires Shaped(s) && c < |s.clients| && !s.clients[c].queued
    ensures Handle(s, Event(c, Request(WATCH, [key]), env)) == Next(Watch(s, c, [key]))
    ensures Guarded(Watch(s, c, [key]), c, Bucket(key), s.table[Bucket(key)])
  {
    var e := Event(c, Request(WATCH, [key]), env);
    assert IndexedKeys(e.request.args);
    assert key in e.request.args;
    WatchGuards(s, e, key);
  }

  lemma {:induction false} StepMulti(s: Server, c: nat, b: nat, chain: seq<Entry<Value>>, env: nat -> Env)
    requires Guarded(s, c, b, chain) && !s.clients[c].queued
    ensures Handle(s, Event(c, Request(MULTI, []), env))
      == Next(WithClient(s, c, s.clients[c].(queued := true, queue := [])))
    ensures Guarded(WithClient(s, c, s.clients[c].(queued := true, queue := [])), c, b, chain)
  {
  }

  /** Where the guarantee ends: after WATCH and MULTI of one client and one data command of
      another, an EXEC commits over a changed bucket exactly when that command changed it
      silently. */
  lemma {:induction false} MissedExactlyWhenSilent(s: Server, c: nat, d: nat, key: Key, other: Event, env: nat -> Env)
    returns (states: seq<Server>, events: seq<Event>)
    requires Shaped(s) && c < |s.clients| && d < |s.clients| && c != d && other.client == d
    requires !s.clients[c].queued && !s.clients[c].dirty && !s.clients[d].queued
    requires !IsTransactionCmd(other.request.cmd) && Apply(s.table, other.request, other.env(0)).Done?
    ensures IsRun(states, events) && |events| == 3 && states[0] == s
    ensures events == [Event(c, Request(WATCH, [key]), env), Event(c, Request(MULTI, []), env), other]
    ensures |states[3].clients| == |s.clients|
    ensures Commits(states[3], Event(c, Request(EXEC, []), env)) && states[3].table[Bucket(key)] != s.table[Bucket(key)]
      <==> !Quiet(s.table, other.request, Bucket(key))
  {
    var b := Bucket(key);
    var watching := Watch(s, c, [key]);
    StepWatch(s, c, key, env);
    StepMulti(watching, c, b, s.table[b], env);
    var queueing := WithClient(watching, c, watching.clients[c].(queued := true, queue := []));
    var after := Execute(queueing, other.request, other.env(0)).server;
    ExecuteKeepsGuardIff(queueing, other.request, other.env(0), c, b, s.table[b]);
    ExecuteOnlyDirties(queueing, other.request, other.env(0));
    states := [s, watching, queueing, after];
    events := [Event(c, Request(WATCH, [key]), env), Event(c, Request(MULTI, []), env), other];
  }

  // ----- what a data command leaves of the clients -----

  /** Clients differ at most in that some have become dirty. */
  ghost predicate OnlyDirtied(a: seq<Client>, b: seq<Client>) {
    && |a| == |b|
    && forall c | 0 <= c < |a| :: b[c] == a[c] || b[c] == a[c].(dirty := true)
  }

  lemma {:induction false} ExecuteOnlyDirties(s: Server, req: Request, env: Env)
    requires Shaped(s) && Execute(s, req, env).Next?
    ensures OnlyDirtied(s.clients, Execute(s, req, env).server.clients)
  {
  }

  lemma {:induction false} ExecuteAllOnlyDirties(s: Server, reqs: seq<Request>, env: nat -> Env, i: nat)
    requires Shaped(s) && i <= |reqs| && ExecuteAll(s, reqs, env, i).Next?
    ensures OnlyDirtied(s.clients, ExecuteAll(s, reqs, env, i).server.clients)
    decreases |reqs| - i
  {
    if i < |reqs| {
      ExecuteOnlyDirties(s, reqs[i], env(i));
      ExecuteAllOnlyDirties(Execute(s, reqs[i], env(i)).server, reqs, env, i + 1);
    }
  }

  // ----- runs without silent changes -----

  /** Every command but BLPOP and GEOSEARCH. */
  predicate Loud(cmd: Cmd) { !cmd.BLPOP? && !cmd.GEOSEARCH? }

  ghost predicate AllLoud(reqs: seq<Request>) { forall r | r in reqs :: Loud(r.cmd) }

  ghost predicate QueuesLoud(s: Server) { forall c | 0 <= c < |s.clients| :: AllLoud(s.clients[c].queue) }

  lemma {:induction false} LoudIsQuiet(s: Server, reqs: seq<Request>, env: nat -> Env, i: nat, b: nat)
    requires Shaped(s) && i <= |reqs| && AllLoud(reqs)
    ensures QuietAll(s, reqs, env, i, b)
    decreases |reqs| - i
  {
    if i < |reqs| {
      assert reqs[i] in reqs;
      var r := Execute(s, reqs[i], env(i));
      if r.Next? {
        LoudIsQuiet(r.server, reqs, env, i + 1, b);
      }
    }
  }

  lemma {:induction false} LoudEventIsQuiet(s: Server, e: Event, b: nat)
    requires Shaped(s) && e.client < |s.clients| && QueuesLoud(s) && Loud(e.request.cmd)
    ensures QuietEvent(s, e, b)
  {
    if Commits(s, e) {
      var left := Unqueued(s, e.client);
      LoudIsQuiet(left, s.clients[e.client].queue, e.env, 0, b);
    }
  }

  lemma {:induction false} HandleKeepsQueuesLoud(s: Server, e: Event)
    requires Shaped(s) && e.client < |s.clients| && QueuesLoud(s) && Loud(e.request.cmd) && Handle(s, e).Next?
    ensures QueuesLoud(Handle(s, e).server)
  {
    if Commits(s, e) {
      var left := Unqueued(s, e.client);
      ExecuteAllOnlyDirties(left, s.clients[e.client].queue, e.env, 0);
    } else if !IsTransactionCmd(e.request.cmd) && !Queues(s, e) {
      ExecuteOnlyDirties(s, e.request, e.env(0));
    }
  }

  lemma {:induction false} LoudRun(states: seq<Server>, events: seq<Event>, i: nat)
    requires IsRun(states, events) && i <= |events| && QueuesLoud(states[0])
    requires forall e | e in events :: Loud(e.request.cmd)
    ensures QueuesLoud(states[i])
    decreases i
  {
    if i > 0 {
      LoudRun(states, events, i - 1);
      AtStep(states, events, i - 1);
      HandleKeepsQueuesLoud(states[i - 1], events[i - 1]);
    }
  }

  /** No missed conflict, over every interleaving of any clients' commands other than BLPOP and
      GEOSEARCH. */
  lemma {:induction false} NoMissedConflictOfLoudRun(states: seq<Server>, events: seq<Event>, w: nat, x: nat, c: nat,
      key: Key)
    requires WatchedUntilCommit(states, events, w, x, c, key) && QueuesLoud(states[0])
    requires forall e | e in events :: Loud(e.request.cmd)
    ensures states[x].table[Bucket(key)] == states[w].table[Bucket(key)]
    ensures GetEntry(states[x].table, key) == GetEntry(states[w].table, key)
  {
    forall i | w < i < x ensures QuietEvent(states[i], events[i], Bucket(key)) {
      LoudRun(states, events, i);
      AtStep(states, events, i);
      assert events[i] in events;
      LoudEventIsQuiet(states[i], events[i], Bucket(key));
    }
    NoMissedConflict(states, events, w, x, c, key);
  }
}
