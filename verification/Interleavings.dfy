/** What holds of every interleaving of clients' commands beside the absence of missed conflicts:
    who is registered as a watcher, which transactions abort, and serialisability. */
module Interleavings {
  import opened Seqs
  import opened Commands
  import opened Resp
  import opened Tables
  import opened Keyspace
  import opened Transactions

  // ----- who is registered where -----

  ghost predicate WatchesBucket(keys: seq<Key>, b: nat) {
    exists i | 0 <= i < |keys| :: Bucket(keys[i]) == b
  }

  /** The watcher lists hold exactly the clients that watch a key of the bucket. */
  ghost predicate Registered(s: Server) {
    && Shaped(s)
    && forall b, c | 0 <= b < TABLE_SIZE && 0 <= c < |s.clients| ::
      Watching(s.watchers[b], c) <==> WatchesBucket(s.clients[c].watched, b)
  }

  lemma {:induction false} WatchesFirstOrRest(keys: seq<Key>, b: nat)
    requires keys != []
    ensures WatchesBucket(keys, b) <==> Bucket(keys[0]) == b || WatchesBucket(keys[1..], b)
  {
    if WatchesBucket(keys[1..], b) {
      var i :| 0 <= i < |keys[1..]| && Bucket(keys[1..][i]) == b;
      assert Bucket(keys[i + 1]) == b;
    }
    if WatchesBucket(keys, b) && Bucket(keys[0]) != b {
      var i :| 0 <= i < |keys| && Bucket(keys[i]) == b;
      assert Bucket(keys[1..][i - 1]) == b;
    }
  }

  lemma {:induction false} WatchesEither(a: seq<Key>, more: seq<Key>, b: nat)
    ensures WatchesBucket(a + more, b) <==> WatchesBucket(a, b) || WatchesBucket(more, b)
  {
    if WatchesBucket(a, b) {
      var i :| 0 <= i < |a| && Bucket(a[i]) == b;
      assert Bucket((a + more)[i]) == b;
    }
    if WatchesBucket(more, b) {
      var i :| 0 <= i < |more| && Bucket(more[i]) == b;
      assert Bucket((a + more)[|a| + i]) == b;
    }
  }

  lemma {:induction false} ForgottenWatcher(watchers: seq<seq<Option<nat>>>, c: nat, keys: seq<Key>, b: nat)
    requires |watchers| == TABLE_SIZE && b < TABLE_SIZE
    ensures Watching(ForgetFrom(watchers, c, keys)[b], c) <==> Watching(watchers[b], c) && !WatchesBucket(keys, b)
    decreases |keys|
  {
    if keys != [] {
      var first := Bucket(keys[0]);
      ForgottenWatcher(watchers[first := Vacated(watchers[first], c)], c, keys[1..], b);
      WatchesFirstOrRest(keys, b);
    }
  }

  lemma {:induction false} Appended(list: seq<Option<nat>>, c: nat, d: nat)
    ensures Watching(list + [Some(c)], d) <==> Watching(list, d) || d == c
  {
  }

  lemma {:induction false} AddedWatcher(watchers: seq<seq<Option<nat>>>, c: nat, keys: seq<Key>, b: nat, d: nat)
    requires |watchers| == TABLE_SIZE && b < TABLE_SIZE
    ensures Watching(WatchIn(watchers, c, keys)[b], d) <==>
      Watching(watchers[b], d) || (d == c && WatchesBucket(keys, b))
    decreases |keys|
  {
    if keys != [] {
      var first := Bucket(keys[0]);
      Appended(watchers[first], c, d);
      AddedWatcher(watchers[first := watchers[first] + [Some(c)]], c, keys[1..], b, d);
      WatchesFirstOrRest(keys, b);
    }
  }

  lemma {:induction false} ForgettingKeepsRegistered(s: Server, c: nat)
    requires Registered(s) && c < |s.clients|
    ensures Registered(DeleteWatchedKeys(s, c))
    ensures forall b | 0 <= b < TABLE_SIZE :: !Watching(DeleteWatchedKeys(s, c).watchers[b], c)
  {
    var r := DeleteWatchedKeys(s, c);
    forall b | 0 <= b < TABLE_SIZE ensures !Watching(r.watchers[b], c) {
      ForgottenWatcher(s.watchers, c, s.clients[c].watched, b);
    }
  }

  lemma {:induction false} WatchingKeepsRegistered(s: Server, c: nat, keys: seq<Key>)
    requires Registered(s) && c < |s.clients|
    ensures Registered(Watch(s, c, keys))
  {
    var r := Watch(s, c, keys);
    forall b, d | 0 <= b < TABLE_SIZE && 0 <= d < |s.clients|
      ensures Watching(r.watchers[b], d) <==> WatchesBucket(r.clients[d].watched, b)
    {
      AddedWatcher(s.watchers, c, keys, b, d);
      WatchesEither(s.clients[c].watched, keys, b);
    }
  }

  lemma {:induction false} SameWatchesKeepRegistered(s: Server, r: Server)
    requires Registered(s) && Shaped(r) && r.watchers == s.watchers && |r.clients| == |s.clients|
    requires forall c | 0 <= c < |s.clients| :: r.clients[c].watched == s.clients[c].watched
    ensures Registered(r)
  {
  }

  lemma {:induction false} HandleKeepsRegistered(s: Server, e: Event)
    requires Registered(s) && e.client < |s.clients| && Handle(s, e).Next?
    ensures Registered(Handle(s, e).server)
  {
    var c, client := e.client, s.clients[e.client];
    var left := Unqueued(s, c);
    var r := Handle(s, e).server;
    SameWatchesKeepRegistered(s, left);
    if Commits(s, e) {
      ExecuteAllOnlyDirties(left, client.queue, e.env, 0);
      SameWatchesKeepRegistered(s, r);
    } else if Clears(s, e, c) {
      ForgettingKeepsRegistered(left, c);
      ForgettingKeepsRegistered(s, c);
    } else if e.request.cmd.WATCH? && !client.queued {
      WatchingKeepsRegistered(s, c, e.request.args);
    } else {
      if !IsTransactionCmd(e.request.cmd) && !client.queued {
        ExecuteOnlyDirties(s, e.request, e.env(0));
      }
      SameWatchesKeepRegistered(s, r);
    }
  }

  /** A server that has just started: no client has sent anything. */
  ghost predicate Fresh(s: Server) {
    && Shaped(s)
    && (forall c | 0 <= c < |s.clients| :: s.clients[c] == NEW_CLIENT)
    && (forall b | 0 <= b < TABLE_SIZE :: s.watchers[b] == [])
    && s.log == []
  }

  /** In every reachable state the watcher lists and the clients' own lists agree. */
  lemma {:induction false} RegisteredAlways(states: seq<Server>, events: seq<Event>, i: nat)
    requires IsRun(states, events) && i <= |events| && Fresh(states[0])
    ensures Registered(states[i])
    decreases i
  {
    if i > 0 {
      RegisteredAlways(states, events, i - 1);
      AtStep(states, events, i - 1);
      HandleKeepsRegistered(states[i - 1], events[i - 1]);
    }
  }

  /** A data command makes a clean client dirty exactly when it notifies and the client watches
      a key of the same bucket. */
  lemma {:induction false} DirtiedIff(s: Server, req: Request, env: Env, c: nat)
    requires Registered(s) && c < |s.clients| && !s.clients[c].dirty && Execute(s, req, env).Next?
    ensures Execute(s, req, env).server.clients[c].dirty <==>
      Notifies(req.cmd) && WatchesBucket(s.clients[c].watched, Bucket(req.args[0]))
  {
  }

  // ----- one slot for each watched key -----

  /** How many of the keys lie in the bucket. */
  function KeyCount(keys: seq<Key>, b: nat): nat {
    if keys == [] then 0 else (if Bucket(keys[0]) == b then 1 else 0) + KeyCount(keys[1..], b)
  }

  /** Each client has one slot in a bucket's list for each key of the bucket that it watches. */
  ghost predicate Slotted(s: Server) {
    && Shaped(s)
    && forall b, c | 0 <= b < TABLE_SIZE && 0 <= c < |s.clients| ::
      SlotCount(s.watchers[b], c) == KeyCount(s.clients[c].watched, b)
  }

  lemma {:induction false} SlotCountOfMore(list: seq<Option<nat>>, slot: Option<nat>, d: nat)
    ensures SlotCount(list + [slot], d) == SlotCount(list, d) + if slot == Some(d) then 1 else 0
  {
    if list == [] {
      assert (list + [slot])[1..] == [];
    } else {
      assert (list + [slot])[1..] == list[1..] + [slot];
      SlotCountOfMore(list[1..], slot, d);
    }
  }

  lemma {:induction false} SlotCountOfVacated(list: seq<Option<nat>>, c: nat, d: nat)
    ensures SlotCount(Vacated(list, c), d) == if d == c then 0 else SlotCount(list, d)
  {
    if list != [] {
      assert Vacated(list, c)[1..] == Vacated(list[1..], c);
      SlotCountOfVacated(list[1..], c, d);
    }
  }

  lemma {:induction false} KeyCountOfBoth(a: seq<Key>, more: seq<Key>, b: nat)
    ensures KeyCount(a + more, b) == KeyCount(a, b) + KeyCount(more, b)
  {
    if a == [] {
      assert a + more == more;
    } else {
      assert (a + more)[1..] == a[1..] + more;
      KeyCountOfBoth(a[1..], more, b);
    }
  }

  lemma {:induction false} AddedSlots(watchers: seq<seq<Option<nat>>>, c: nat, keys: seq<Key>, b: nat, d: nat)
    requires |watchers| == TABLE_SIZE && b < TABLE_SIZE
    ensures SlotCount(WatchIn(watchers, c, keys)[b], d) ==
      SlotCount(watchers[b], d) + if d == c then KeyCount(keys, b) else 0
    decreases |keys|
  {
    if keys != [] {
      var first := Bucket(keys[0]);
      SlotCountOfMore(watchers[first], Some(c), d);
      AddedSlots(watchers[first := watchers[first] + [Some(c)]], c, keys[1..], b, d);
    }
  }

  lemma {:induction false} ForgottenSlots(watchers: seq<seq<Option<nat>>>, c: nat, keys: seq<Key>, b: nat, d: nat)
    requires |watchers| == TABLE_SIZE && b < TABLE_SIZE
    ensures SlotCount(ForgetFrom(watchers, c, keys)[b], d) ==
      if d == c && KeyCount(keys, b) > 0 then 0 else SlotCount(watchers[b], d)
    decreases |keys|
  {
    if keys != [] {
      var first := Bucket(keys[0]);
      SlotCountOfVacated(watchers[first], c, d);
      ForgottenSlots(watchers[first := Vacated(watchers[first], c)], c, keys[1..], b, d);
    }
  }

  lemma {:induction false} ForgettingKeepsSlotted(s: Server, c: nat)
    requires Slotted(s) && c < |s.clients|
    ensures Slotted(DeleteWatchedKeys(s, c))
  {
    var r := DeleteWatchedKeys(s, c);
    forall b, d | 0 <= b < TABLE_SIZE && 0 <= d < |s.clients|
      ensures SlotCount(r.watchers[b], d) == KeyCount(r.clients[d].watched, b)
    {
      ForgottenSlots(s.watchers, c, s.clients[c].watched, b, d);
    }
  }

  lemma {:induction false} WatchingKeepsSlotted(s: Server, c: nat, keys: seq<Key>)
    requires Slotted(s) && c < |s.clients|
    ensures Slotted(Watch(s, c, keys))
  {
    var r := Watch(s, c, keys);
    forall b, d | 0 <= b < TABLE_SIZE && 0 <= d < |s.clients|
      ensures SlotCount(r.watchers[b], d) == KeyCount(r.clients[d].watched, b)
    {
      AddedSlots(s.watchers, c, keys, b, d);
      KeyCountOfBoth(s.clients[c].watched, keys, b);
    }
  }

  lemma {:induction false} SameWatchesKeepSlotted(s: Server, r: Server)
    requires Slotted(s) && Shaped(r) && r.watchers == s.watchers && |r.clients| == |s.clients|
    requires forall c | 0 <= c < |s.clients| :: r.clients[c].watched == s.clients[c].watched
    ensures Slotted(r)
  {
  }

  lemma {:induction false} HandleKeepsSlotted(s: Server, e: Event)
    requires Slotted(s) && e.client < |s.clients| && Handle(s, e).Next?
    ensures Slotted(Handle(s, e).server)
  {
    var c, client := e.client, s.clients[e.client];
    var left := Unqueued(s, c);
    var r := Handle(s, e).server;
    SameWatchesKeepSlotted(s, left);
    if Commits(s, e) {
      ExecuteAllOnlyDirties(left, client.queue, e.env, 0);
      SameWatchesKeepSlotted(s, r);
    } else if Clears(s, e, c) {
      ForgettingKeepsSlotted(left, c);
      ForgettingKeepsSlotted(s, c);
    } else if e.request.cmd.WATCH? && !client.queued {
      WatchingKeepsSlotted(s, c, e.request.args);
    } else {
      if !IsTransactionCmd(e.request.cmd) && !client.queued {
        ExecuteOnlyDirties(s, e.request, e.env(0));
      }
      SameWatchesKeepSlotted(s, r);
    }
  }

  /** In every reachable state a client has exactly one slot for each key that it watches. */
  lemma {:induction false} SlottedAlways(states: seq<Server>, events: seq<Event>, i: nat)
    requires IsRun(states, events) && i <= |events| && Fresh(states[0])
    ensures Slotted(states[i])
    decreases i
  {
    if i > 0 {
      SlottedAlways(states, events, i - 1);
      AtStep(states, events, i - 1);
      HandleKeepsSlotted(states[i - 1], events[i - 1]);
    }
  }

  ghost predicate NoSharedBucket(keys: seq<Key>) {
    forall i, j | 0 <= i < j < |keys| :: Bucket(keys[i]) != Bucket(keys[j])
  }

  lemma {:induction false} NoneInBucket(keys: seq<Key>, b: nat)
    ensures KeyCount(keys, b) == 0 <==> forall i | 0 <= i < |keys| :: Bucket(keys[i]) != b
  {
    if keys != [] {
      NoneInBucket(keys[1..], b);
      assert forall i | 0 < i < |keys| :: keys[i] == keys[1..][i - 1];
    }
  }

  lemma {:induction false} NoSharedBucketStep(keys: seq<Key>)
    requires keys != []
    ensures NoSharedBucket(keys) <==> KeyCount(keys, Bucket(keys[0])) == 1 && NoSharedBucket(keys[1..])
  {
    NoneInBucket(keys[1..], Bucket(keys[0]));
    assert forall i | 0 < i < |keys| :: keys[i] == keys[1..][i - 1];
  }

  lemma {:induction false} FreesOnceIff(watchers: seq<seq<Option<nat>>>, c: nat, keys: seq<Key>)
    requires |watchers| == TABLE_SIZE
    requires forall b | 0 <= b < TABLE_SIZE :: SlotCount(watchers[b], c) == KeyCount(keys, b)
    ensures NeverFreesTwice(watchers, c, keys) <==> NoSharedBucket(keys)
    decreases |keys|
  {
    if keys != [] {
      var first := Bucket(keys[0]);
      NoSharedBucketStep(keys);
      SlotCountOfVacated(watchers[first], c, c);
      if SlotCount(watchers[first], c) == 1 {
        FreesOnceIff(watchers[first := Vacated(watchers[first], c)], c, keys[1..]);
      }
    }
  }

  /** UNWATCH, a DISCARD and an EXEC that aborts free no key twice exactly when no two keys that
      the client watches lie in one bucket: WATCH k k is enough. */
  lemma {:induction false} ForgetsSafelyIff(s: Server, e: Event)
    requires Slotted(s) && e.client < |s.clients| && Clears(s, e, e.client)
    ensures Handle(s, e).Next? <==> NoSharedBucket(s.clients[e.client].watched)
  {
    FreesOnceIff(s.watchers, e.client, s.clients[e.client].watched);
  }

  // ----- aborts -----

  /** An EXEC of a dirty client, or a DISCARD, that frees no watched key twice changes no key, and
      leaves the client as new and on no watcher list. */
  lemma {:induction false} AbortLeavesTable(s: Server, e: Event)
    requires Registered(s) && Slotted(s) && e.client < |s.clients| && s.clients[e.client].queued
    requires e.request.cmd.DISCARD? || (e.request.cmd.EXEC? && s.clients[e.client].dirty)
    ensures Handle(s, e).Next? <==> NoSharedBucket(s.clients[e.client].watched)
    ensures Handle(s, e).Next? ==>
      var r := Handle(s, e).server;
      && r.table == s.table && r.clients == s.clients[e.client := NEW_CLIENT] && r.log == s.log
      && forall b | 0 <= b < TABLE_SIZE :: !Watching(r.watchers[b], e.client)
  {
    var c := e.client;
    var left := Unqueued(s, c);
    ForgetsSafelyIff(s, e);
    SameWatchesKeepRegistered(s, left);
    ForgettingKeepsRegistered(left, c);
  }

  // ----- serialisability -----

  /** What a client has queued, as its own commands alone determine it. */
  datatype Local = Local(queued: bool, queue: seq<Request>)

  function LocalAfter(l: Local, req: Request): Local {
    if l.queued && !IsTransactionCmd(req.cmd) then Local(true, l.queue + [req])
    else if req.cmd.MULTI? && !l.queued then Local(true, [])
    else if l.queued && (req.cmd.EXEC? || req.cmd.DISCARD?) then Local(false, [])
    else l
  }

  function LocalOf(events: seq<Event>, c: nat): Local {
    if events == [] then Local(false, [])
    else
      var last := events[|events| - 1];
      var l := LocalOf(events[..|events| - 1], c);
      if last.client == c then LocalAfter(l, last.request) else l
  }

  ghost predicate Follows(client: Client, l: Local) { client.queued == l.queued && client.queue == l.queue }

  lemma {:induction false} HandleFollows(s: Server, e: Event, c: nat, l: Local)
    requires Shaped(s) && c < |s.clients| && e.client < |s.clients| && Handle(s, e).Next?
    requires Follows(s.clients[c], l)
    ensures Follows(Handle(s, e).server.clients[c], if e.client == c then LocalAfter(l, e.request) else l)
  {
    if Commits(s, e) {
      var left := Unqueued(s, e.client);
      ExecuteAllOnlyDirties(left, s.clients[e.client].queue, e.env, 0);
    } else if !IsTransactionCmd(e.request.cmd) && !Queues(s, e) {
      ExecuteOnlyDirties(s, e.request, e.env(0));
    }
  }

  /** A client's queue never depends on what other clients do. */
  lemma {:induction false} QueueIsLocal(states: seq<Server>, events: seq<Event>, i: nat, c: nat)
    requires IsRun(states, events) && i <= |events| && Fresh(states[0]) && c < |states[i].clients|
    ensures Follows(states[i].clients[c], LocalOf(events[..i], c))
    decreases i
  {
    if i > 0 {
      AtStep(states, events, i - 1);
      QueueIsLocal(states, events, i - 1, c);
      assert events[..i][..i - 1] == events[..i - 1];
      HandleFollows(states[i - 1], events[i - 1], c, LocalOf(events[..i - 1], c));
    }
  }

  function Together(reqs: seq<Request>, env: nat -> Env, i: nat): seq<Issued>
    requires i <= |reqs|
    decreases |reqs| - i
  {
    if i == |reqs| then [] else [Issued(reqs[i], env(i))] + Together(reqs, env, i + 1)
  }

  /** The data commands that an event stands for in the serial run: a data command outside a
      transaction stands for itself, a clean EXEC for all that its client queued, in order, and
      everything else for nothing. */
  function Block(past: seq<Event>, e: Event, dirty: bool): seq<Issued> {
    var l := LocalOf(past, e.client);
    if IsTransactionCmd(e.request.cmd) then
      if e.request.cmd.EXEC? && l.queued && !dirty then Together(l.queue, e.env, 0) else []
    else if l.queued then []
    else [Issued(e.request, e.env(0))]
  }

  /** The serial history of a run: one block for each event. */
  ghost function Blocks(states: seq<Server>, events: seq<Event>): (r: seq<seq<Issued>>)
    requires IsRun(states, events)
    ensures |r| == |events|
  {
    seq(|events|, i requires 0 <= i < |events| =>
      Block(events[..i], events[i], states[i].clients[events[i].client].dirty))
  }

  function Concat(blocks: seq<seq<Issued>>): seq<Issued> {
    if blocks == [] then [] else blocks[0] + Concat(blocks[1..])
  }

  lemma {:induction false} ExecuteAllIsApplyAll(s: Server, reqs: seq<Request>, env: nat -> Env, i: nat)
    requires Shaped(s) && i <= |reqs| && ExecuteAll(s, reqs, env, i).Next?
    ensures ApplyAll(s.table, Together(reqs, env, i)) == Done(ExecuteAll(s, reqs, env, i).server.table)
    decreases |reqs| - i
  {
    if i < |reqs| {
      var more := Together(reqs, env, i + 1);
      assert ([Issued(reqs[i], env(i))] + more)[1..] == more;
      ExecuteAllIsApplyAll(Execute(s, reqs[i], env(i)).server, reqs, env, i + 1);
    }
  }

  lemma {:induction false} HandleAppliesBlock(s: Server, e: Event, past: seq<Event>)
    requires Shaped(s) && e.client < |s.clients| && Handle(s, e).Next?
    requires Follows(s.clients[e.client], LocalOf(past, e.client))
    ensures ApplyAll(s.table, Block(past, e, s.clients[e.client].dirty)) == Done(Handle(s, e).server.table)
  {
    if Commits(s, e) {
      var left := Unqueued(s, e.client);
      ExecuteAllIsApplyAll(left, s.clients[e.client].queue, e.env, 0);
    } else if !IsTransactionCmd(e.request.cmd) && !Queues(s, e) {
      var one := [Issued(e.request, e.env(0))];
      assert one[1..] == [];
    }
  }

  lemma {:induction false} StepAppliesBlock(states: seq<Server>, events: seq<Event>, i: nat)
    requires IsRun(states, events) && i < |events| && Fresh(states[0])
    ensures events[i].client < |states[i].clients|
    ensures ApplyAll(states[i].table, Block(events[..i], events[i], states[i].clients[events[i].client].dirty))
      == Done(states[i + 1].table)
  {
    AtStep(states, events, i);
    QueueIsLocal(states, events, i, events[i].client);
    HandleAppliesBlock(states[i], events[i], events[..i]);
  }

  /** Blocks that lead from each table to the next lead from the first to the last. */
  lemma {:induction false} BlocksCompose(tables: seq<Keys>, blocks: seq<seq<Issued>>)
    requires |tables| == |blocks| + 1 && forall i | 0 <= i <= |blocks| :: |tables[i]| == TABLE_SIZE
    requires forall i | 0 <= i < |blocks| :: ApplyAll(tables[i], blocks[i]) == Done(tables[i + 1])
    ensures ApplyAll(tables[0], Concat(blocks)) == Done(tables[|blocks|])
    decreases |blocks|
  {
    if blocks != [] {
      BlocksCompose(tables[1..], blocks[1..]);
      ApplyAllSplits(tables[0], blocks[0], Concat(blocks[1..]));
    }
  }

  /** Serialisability: after any interleaving the keyspace is what the serial history leaves, in
      which every committed transaction runs as one block at its EXEC, and aborted or discarded
      ones do not occur. */
  lemma {:induction false} Serialisable(states: seq<Server>, events: seq<Event>)
    requires IsRun(states, events) && Fresh(states[0])
    ensures ApplyAll(states[0].table, Concat(Blocks(states, events))) == Done(states[|events|].table)
  {
    var tables := seq(|states|, i requires 0 <= i < |states| => states[i].table);
    var blocks := Blocks(states, events);
    forall i | 0 <= i < |events| ensures ApplyAll(tables[i], blocks[i]) == Done(tables[i + 1]) {
      StepAppliesBlock(states, events, i);
    }
    BlocksCompose(tables, blocks);
  }

  // ----- where the commands of the history come from -----

  lemma {:induction false} QueueIsSent(events: seq<Event>, c: nat, req: Request)
    requires req in LocalOf(events, c).queue
    ensures exists e :: e in events && e.request == req
  {
    if events != [] {
      var n := |events| - 1;
      if req in LocalOf(events[..n], c).queue {
        QueueIsSent(events[..n], c, req);
        var e :| e in events[..n] && e.request == req;
        assert e in events;
      } else {
        assert events[n] in events && events[n].request == req;
      }
    }
  }

  lemma {:induction false} InTogether(reqs: seq<Request>, env: nat -> Env, i: nat, c: Issued)
    requires i <= |reqs| && c in Together(reqs, env, i)
    ensures exists k: nat :: k < |reqs| && c == Issued(reqs[k], env(k))
    decreases |reqs| - i
  {
    if i < |reqs| && c != Issued(reqs[i], env(i)) {
      InTogether(reqs, env, i + 1, c);
    }
  }

  lemma {:induction false} InConcat(blocks: seq<seq<Issued>>, c: Issued)
    requires c in Concat(blocks)
    ensures exists i: nat :: i < |blocks| && c in blocks[i]
  {
    if blocks != [] && c !in blocks[0] {
      InConcat(blocks[1..], c);
      var i: nat :| i < |blocks[1..]| && c in blocks[1..][i];
      assert c in blocks[i + 1];
    }
  }

  /** The command was sent by a client, and executed at an event. */
  ghost predicate Sent(events: seq<Event>, c: Issued) {
    exists e, f, k: nat :: e in events && f in events && c == Issued(e.request, f.env(k))
  }

  lemma {:induction false} BlockIsSent(events: seq<Event>, i: nat, dirty: bool, c: Issued)
    requires i < |events| && c in Block(events[..i], events[i], dirty)
    ensures Sent(events, c)
  {
    var f, l := events[i], LocalOf(events[..i], events[i].client);
    assert f in events;
    if IsTransactionCmd(f.request.cmd) {
      InTogether(l.queue, f.env, 0, c);
      var k: nat :| k < |l.queue| && c == Issued(l.queue[k], f.env(k));
      QueueIsSent(events[..i], f.client, l.queue[k]);
      var e :| e in events[..i] && e.request == l.queue[k];
      assert e in events && c == Issued(e.request, f.env(k));
    } else {
      assert c == Issued(f.request, f.env(0));
    }
  }

  /** Every command of the serial history was sent by a client. */
  lemma {:induction false} HistoryIsSent(states: seq<Server>, events: seq<Event>, c: Issued)
    requires IsRun(states, events) && c in Concat(Blocks(states, events))
    ensures Sent(events, c)
  {
    var blocks := Blocks(states, events);
    InConcat(blocks, c);
    var i: nat :| i < |blocks| && c in blocks[i];
    BlockIsSent(events, i, states[i].clients[events[i].client].dirty, c);
  }

  // ----- the append-only file -----

  lemma {:induction false} ExecuteAllLogs(s: Server, reqs: seq<Request>, env: nat -> Env, i: nat)
    requires Shaped(s) && i <= |reqs| && ExecuteAll(s, reqs, env, i).Next?
    ensures ExecuteAll(s, reqs, env, i).server.log == s.log + LoggedOf(Together(reqs, env, i))
    decreases |reqs| - i
  {
    if i < |reqs| {
      var next := Execute(s, reqs[i], env(i)).server;
      ExecuteAllLogs(next, reqs, env, i + 1);
      LoggedFirst(s.log, next.log, Issued(reqs[i], env(i)), Together(reqs, env, i + 1));
    } else {
      assert s.log + [] == s.log;
    }
  }

  lemma {:induction false} LoggedFirst(log: seq<Request>, next: seq<Request>, c: Issued, more: seq<Issued>)
    requires next == Written(log, c.request)
    ensures next + LoggedOf(more) == log + LoggedOf([c] + more)
  {
    assert ([c] + more)[1..] == more;
    var one := if Logged(c.request.cmd) then [c.request] else [];
    ConcatAssociates(log, one, LoggedOf(more));
    assert log + [] == log;
  }

  lemma {:induction false} LoggedAlone(log: seq<Request>, c: Issued)
    ensures Written(log, c.request) == log + LoggedOf([c])
  {
    LoggedFirst(log, Written(log, c.request), c, []);
    assert [c] + [] == [c];
    assert Written(log, c.request) + [] == Written(log, c.request);
  }

  lemma {:induction false} OthersLogNothing(s: Server, e: Event)
    requires Shaped(s) && e.client < |s.clients| && Handle(s, e).Next? && !Commits(s, e)
    requires IsTransactionCmd(e.request.cmd) || Queues(s, e)
    ensures Handle(s, e).server.log == s.log
  {
  }

  lemma {:induction false} HandleLogsBlock(s: Server, e: Event, past: seq<Event>, block: seq<Issued>)
    requires Shaped(s) && e.client < |s.clients| && Handle(s, e).Next?
    requires Follows(s.clients[e.client], LocalOf(past, e.client)) && block == Block(past, e, s.clients[e.client].dirty)
    ensures Handle(s, e).server.log == s.log + LoggedOf(block)
  {
    if Commits(s, e) {
      ExecuteAllLogs(Unqueued(s, e.client), s.clients[e.client].queue, e.env, 0);
    } else if !IsTransactionCmd(e.request.cmd) && !Queues(s, e) {
      HandleOfData(s, e);
      LoggedAlone(s.log, Issued(e.request, e.env(0)));
    } else {
      OthersLogNothing(s, e);
      assert block == [] && s.log + [] == s.log;
    }
  }

  lemma {:induction false} StepLogsBlock(states: seq<Server>, events: seq<Event>, i: nat)
    requires IsRun(states, events) && i < |events| && Fresh(states[0])
    ensures events[i].client < |states[i].clients|
    ensures states[i + 1].log
      == states[i].log + LoggedOf(Block(events[..i], events[i], states[i].clients[events[i].client].dirty))
  {
    AtStep(states, events, i);
    QueueIsLocal(states, events, i, events[i].client);
    HandleLogsBlock(states[i], events[i], events[..i],
                    Block(events[..i], events[i], states[i].clients[events[i].client].dirty));
  }

  lemma {:induction false} LogsCompose(logs: seq<seq<Request>>, blocks: seq<seq<Issued>>)
    requires |logs| == |blocks| + 1
    requires forall i | 0 <= i < |blocks| :: logs[i + 1] == logs[i] + LoggedOf(blocks[i])
    ensures logs[|blocks|] == logs[0] + LoggedOf(Concat(blocks))
    decreases |blocks|
  {
    if blocks != [] {
      LogsCompose(logs[1..], blocks[1..]);
      LoggedOfBoth(blocks[0], Concat(blocks[1..]));
    }
  }

  /** After any interleaving the append-only file holds the logged commands of the serial
      history, in its order: a transaction's when it commits, an aborted one's not at all. */
  lemma {:induction false} LogIsHistory(states: seq<Server>, events: seq<Event>)
    requires IsRun(states, events) && Fresh(states[0])
    ensures states[|events|].log == LoggedOf(Concat(Blocks(states, events)))
  {
    var logs := seq(|states|, i requires 0 <= i < |states| => states[i].log);
    var blocks := Blocks(states, events);
    forall i | 0 <= i < |events| ensures logs[i + 1] == logs[i] + LoggedOf(blocks[i]) {
      StepLogsBlock(states, events, i);
    }
    LogsCompose(logs, blocks);
  }
}
