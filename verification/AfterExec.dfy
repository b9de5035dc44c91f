/** What a committed EXEC leaves of its client's watches: handle_exec forgets them only when it
    aborts, and its own commands notify its own client. */
module AfterExec {
  import opened Commands
  import opened Resp
  import opened Tables
  import opened Keyspace
  import opened Transactions
  import opened Interleavings

  /** The command notifies the watchers of a bucket of one of these keys. */
  ghost predicate NotifiesOne(req: Request, keys: seq<Key>) {
    Notifies(req.cmd) && KeyGiven(req) && WatchesBucket(keys, Bucket(req.args[0]))
  }

  ghost predicate NotifiesAny(reqs: seq<Request>, i: nat, keys: seq<Key>) {
    exists j: nat :: i <= j < |reqs| && NotifiesOne(reqs[j], keys)
  }

  lemma {:induction false} NotifiesFirstOrRest(reqs: seq<Request>, i: nat, keys: seq<Key>)
    requires i < |reqs|
    ensures NotifiesAny(reqs, i, keys) <==> NotifiesOne(reqs[i], keys) || NotifiesAny(reqs, i + 1, keys)
  {
  }

  lemma {:induction false} ExecutedDirtiesIff(s: Server, req: Request, env: Env, c: nat)
    requires Registered(s) && c < |s.clients| && Execute(s, req, env).Next?
    ensures var r := Execute(s, req, env).server;
            && Registered(r) && r.clients[c].watched == s.clients[c].watched
            && (r.clients[c].dirty <==> s.clients[c].dirty || NotifiesOne(req, s.clients[c].watched))
  {
    ExecuteOnlyDirties(s, req, env);
    SameWatchesKeepRegistered(s, Execute(s, req, env).server);
  }

  /** Commands carried out one after the other make a client dirty exactly when one of them notifies
      a bucket that it watches. */
  lemma {:induction false} ExecutedAllDirtiesIff(s: Server, reqs: seq<Request>, env: nat -> Env, i: nat, c: nat)
    requires Registered(s) && c < |s.clients| && i <= |reqs| && ExecuteAll(s, reqs, env, i).Next?
    ensures var r := ExecuteAll(s, reqs, env, i).server;
            && r.clients[c].watched == s.clients[c].watched
            && (r.clients[c].dirty <==> s.clients[c].dirty || NotifiesAny(reqs, i, s.clients[c].watched))
    decreases |reqs| - i
  {
    if i < |reqs| {
      ExecutedDirtiesIff(s, reqs[i], env(i), c);
      NotifiesFirstOrRest(reqs, i, s.clients[c].watched);
      ExecutedAllDirtiesIff(Execute(s, reqs[i], env(i)).server, reqs, env, i + 1, c);
    }
  }

  lemma {:induction false} CommitLeaves(s: Server, e: Event)
    requires Registered(s) && e.client < |s.clients| && Commits(s, e) && Handle(s, e).Next?
    ensures var client, r := s.clients[e.client], Handle(s, e).server;
            && !r.clients[e.client].queued && r.clients[e.client].queue == []
            && r.clients[e.client].watched == client.watched
            && (r.clients[e.client].dirty <==> NotifiesAny(client.queue, 0, client.watched))
  {
    var c, client := e.client, s.clients[e.client];
    var left := Unqueued(s, c);
    SameWatchesKeepRegistered(s, left);
    ExecutedAllDirtiesIff(left, client.queue, e.env, 0, c);
    ExecuteAllOnlyDirties(left, client.queue, e.env, 0);
  }

  /** A committed EXEC leaves the client watching what it watched, and dirty exactly when one of
      the commands that it carried out notifies a bucket of those keys. */
  lemma {:induction false} CommitKeepsWatches(states: seq<Server>, events: seq<Event>, i: nat)
    requires IsRun(states, events) && Fresh(states[0]) && i < |events|
    requires events[i].client < |states[i].clients| == |states[i + 1].clients| && Commits(states[i], events[i])
    ensures var before, after := states[i].clients[events[i].client], states[i + 1].clients[events[i].client];
            && after.watched == before.watched
            && (after.dirty <==> NotifiesAny(before.queue, 0, before.watched))
  {
    RegisteredAlways(states, events, i);
    AtStep(states, events, i);
    CommitLeaves(states[i], events[i]);
  }

  lemma {:induction false} MultiThenExec(s: Server, c: nat, env: nat -> Env)
    requires Shaped(s) && c < |s.clients| && !s.clients[c].queued
    ensures var multi, exec := Event(c, Request(MULTI, []), env), Event(c, Request(EXEC, []), env);
            && Handle(s, multi).Next? && |Handle(s, multi).server.clients| == |s.clients|
            && (Commits(Handle(s, multi).server, exec) <==> !s.clients[c].dirty)
  {
  }

  /** The next transaction of the client, which has watched nothing since and meets nobody else's
      commands, commits exactly when the committed one notified none of the keys watched for it. */
  lemma {:induction false} NextExecCommitsIff(states: seq<Server>, events: seq<Event>, i: nat, c: nat, env: nat -> Env)
    requires IsRun(states, events) && Fresh(states[0]) && i < |events|
    requires c == events[i].client < |states[i].clients| == |states[i + 1].clients| && Commits(states[i], events[i])
    ensures var multi, exec := Event(c, Request(MULTI, []), env), Event(c, Request(EXEC, []), env);
            && Shaped(states[i + 1]) && Handle(states[i + 1], multi).Next?
            && |Handle(states[i + 1], multi).server.clients| == |states[i + 1].clients|
            && (Commits(Handle(states[i + 1], multi).server, exec) <==>
                  !NotifiesAny(states[i].clients[c].queue, 0, states[i].clients[c].watched))
  {
    RegisteredAlways(states, events, i);
    AtStep(states, events, i);
    CommitLeaves(states[i], events[i]);
    MultiThenExec(states[i + 1], c, env);
  }

  /** UNWATCH ends all watches: the client is clean and on no list, unless it has watched two keys
      of one bucket, and keeps its transaction. */
  lemma {:induction false} UnwatchForgets(s: Server, e: Event)
    requires Registered(s) && Slotted(s) && e.client < |s.clients| && e.request.cmd.UNWATCH?
    ensures Handle(s, e).Next? <==> NoSharedBucket(s.clients[e.client].watched)
    ensures Handle(s, e).Next? ==>
      var c, r := e.client, Handle(s, e).server;
      && r.table == s.table && r.log == s.log
      && r.clients == s.clients[c := Client(s.clients[c].queued, false, s.clients[c].queue, [])]
      && forall b | 0 <= b < TABLE_SIZE :: !Watching(r.watchers[b], c)
  {
    ForgetsSafelyIff(s, e);
    ForgettingKeepsRegistered(s, e.client);
  }

  /** MULTI and WATCH inside a transaction, and EXEC and DISCARD outside one, are refused: nothing
      changes. */
  lemma {:induction false} RefusedIsNothing(s: Server, e: Event)
    requires Shaped(s) && e.client < |s.clients|
    requires if s.clients[e.client].queued then e.request.cmd.MULTI? || e.request.cmd.WATCH?
             else e.request.cmd.EXEC? || e.request.cmd.DISCARD?
    ensures Handle(s, e) == Next(s)
  {
  }
}
