/** A transaction of one write, committed after another client's command came in between. The
    replica gets the write when it is queued, before that command; the master carries it out at
    the EXEC, after it. */
module CommitOrder {
  import opened Commands
  import opened Resp
  import opened Tables
  import opened Effects
  import opened Keyspace
  import opened Orders
  import opened Replays
  import opened Replication
  import opened CaughtUp
  import T = Transactions

  /** Client c: MULTI and a write; client d: a data command. */
  ghost function Mixed(s: System, c: nat, write: Request, other: T.Event, env: nat -> Env): Option<System>
    requires Shaped(s) && c < |s.master.clients|
  {
    match Queue(s, c, [Request(MULTI, []), write], env)
    case None => None
    case Some(queued) =>
      if !Shaped(queued) || other.client >= |queued.master.clients| then None
      else FromClient(queued, other, |Print(other.request)|)
  }

  /** The same, and then EXEC of client c. */
  ghost function Committed(s: System, c: nat, write: Request, other: T.Event, env: nat -> Env): Option<System>
    requires Shaped(s) && c < |s.master.clients|
  {
    match Mixed(s, c, write, other, env)
    case None => None
    case Some(mixed) =>
      if !Shaped(mixed) || c >= |mixed.master.clients| then None
      else FromClient(mixed, T.Event(c, Request(EXEC, []), env), 0)
  }

  /** Client c has queued the write, which is in flight to the replica; client d is idle. */
  ghost predicate Between(s: System, r: nat, c: nat, d: nat, write: Request, t: Keys) {
    && Queued(s, r, c, [write], [write], t, false) && d < |s.master.clients| && d != c && T.Idle(s.master, d)
  }

  /** MULTI of an idle client, or a data command of one that queues, leaves the other clients alone. */
  lemma {:induction false} OthersStay(s: System, e: T.Event, bytes: nat, d: nat)
    requires Shaped(s) && e.client < |s.master.clients| && d < |s.master.clients| && d != e.client
    requires if s.master.clients[e.client].queued then !T.IsTransactionCmd(e.request.cmd) else e.request.cmd.MULTI?
    requires FromClient(s, e, bytes).Some?
    ensures var s' := FromClient(s, e, bytes).value;
            |s'.master.clients| == |s.master.clients| && s'.master.clients[d] == s.master.clients[d]
  {
  }

  lemma {:induction false} QueueOfOne(s: System, c: nat, req: Request, env: nat -> Env)
    requires Shaped(s) && c < |s.master.clients|
    ensures Queue(s, c, [req], env) == FromClient(s, T.Event(c, req, env), |Print(req)|)
  {
    assert [req][1..] == [];
  }

  lemma {:induction false} QueueOfTwo(s: System, c: nat, first: Request, second: Request, env: nat -> Env, next: System)
    requires Shaped(s) && c < |s.master.clients| && Shaped(next) && c < |next.master.clients|
    requires FromClient(s, T.Event(c, first, env), |Print(first)|) == Some(next)
    ensures Queue(s, c, [first, second], env) == FromClient(next, T.Event(c, second, env), |Print(second)|)
  {
    assert [first, second][1..] == [second];
    QueueOfOne(next, c, second, env);
  }

  lemma {:induction false} QueuesWrite(s: System, r: nat, c: nat, d: nat, write: Request, env: nat -> Env)
    requires Ready(s, r, c) && !s.master.clients[c].dirty && d < |s.master.clients| && d != c && T.Idle(s.master, d)
    requires IsWriteCmd(write.cmd) && Queue(s, c, [Request(MULTI, []), write], env).Some?
    ensures Between(Queue(s, c, [Request(MULTI, []), write], env).value, r, c, d, write, s.master.table)
  {
    var multi := Request(MULTI, []);
    MultiOpens(s, r, c, env);
    var open := FromClient(s, T.Event(c, multi, env), |Print(multi)|).value;
    QueueOfTwo(s, c, multi, write, env, open);
    OthersStay(s, T.Event(c, multi, env), |Print(multi)|, d);
    QueueOne(open, r, c, [], [], s.master.table, false, write, env);
    OthersStay(open, T.Event(c, write, env), |Print(write)|, d);
    assert [] + [write] == [write];
  }

  lemma {:induction false} OtherCommand(s: System, r: nat, c: nat, write: Request, t: Keys, other: T.Event)
    requires Between(s, r, c, other.client, write, t) && !T.IsTransactionCmd(other.request.cmd)
    requires FromClient(s, other, |Print(other.request)|).Some?
    ensures var s' := FromClient(s, other, |Print(other.request)|).value;
            && Shaped(s') && r < |s'.replicas| && c < |s'.master.clients|
            && Apply(t, other.request, other.env(0)) == Done(s'.master.table) && s'.replicas[r].table == t
            && s'.replicas[r].link == [write] + (if IsWriteCmd(other.request.cmd) then [other.request] else [])
            && s'.master.clients[c].queued && s'.master.clients[c].queue == [write]
  {
    T.HandleOfData(s.master, other);
    T.ExecuteOnlyDirties(s.master, other.request, other.env(0));
    assert [write] + [] == [write];
  }

  lemma {:induction false} ExecOfOne(s: System, r: nat, c: nat, write: Request, env: nat -> Env)
    requires Shaped(s) && r < |s.replicas| && c < |s.master.clients|
    requires s.master.clients[c].queued && s.master.clients[c].queue == [write] && !s.master.clients[c].dirty
    requires FromClient(s, T.Event(c, Request(EXEC, []), env), 0).Some?
    ensures var s' := FromClient(s, T.Event(c, Request(EXEC, []), env), 0).value;
            && Shaped(s') && r < |s'.replicas| && s'.replicas[r] == s.replicas[r]
            && Apply(s.master.table, write, env(0)) == Done(s'.master.table)
  {
    var left := T.Unqueued(s.master, c);
    assert T.ExecuteAll(left, [write], env, 0).Next?;
    assert T.Execute(left, write, env(0)).Next?;
  }

  /** What the replica makes of the write and the command after it. */
  lemma {:induction false} HandlesBoth(t: Keys, write: Request, b: Issued, reqs: seq<Request>, there: nat -> Env)
    requires |t| == TABLE_SIZE && IsWriteCmd(write.cmd) && Apply(t, b.request, b.env).Done?
    requires reqs == [write] + (if IsWriteCmd(b.request.cmd) then [b.request] else [])
    ensures HandleAll(t, ReadBackAll(reqs), there, 0) == There(t, write, b.request, there(0), there(1))
  {
    WritesAreRecording();
    WritesAreNamed(write.cmd);
    var more := if IsWriteCmd(b.request.cmd) then [b.request] else [];
    assert reqs[1..] == more;
    FirstRead(reqs);
    var u := Apply(t, write, there(0));
    if u.Done? {
      SecondIsCarriedOut(u.table, b.request, more, there);
    }
  }

  lemma {:induction false} SecondIsCarriedOut(t: Keys, req: Request, reqs: seq<Request>, there: nat -> Env)
    requires |t| == TABLE_SIZE && reqs == (if IsWriteCmd(req.cmd) then [req] else [])
    requires Touches(req) ==> KeyGiven(req)
    ensures HandleAll(t, ReadBackAll(reqs), there, 1) == CarriedOut(t, req, there(1))
  {
    WritesAreNamed(req.cmd);
    if IsWriteCmd(req.cmd) {
      FirstRead(reqs);
      ReadBackAllSplits(reqs, []);
      HandleOne(t, ReadBackAll(reqs), there, 1);
    } else if !Unrecorded(req.cmd) {
      OthersKeep(t, req, there(1));
    }
  }

  /** On a caught-up pair, client c queues the write, another client's command comes, and the EXEC
      commits: the command has not made c dirty. */
  ghost predicate Interrupted(s: System, r: nat, c: nat, write: Request, other: T.Event, env: nat -> Env) {
    && Ready(s, r, c) && !s.master.clients[c].dirty && other.client < |s.master.clients| && other.client != c
    && T.Idle(s.master, other.client) && !T.IsTransactionCmd(other.request.cmd)
    && IsWriteCmd(write.cmd) && Received(write) && (IsWriteCmd(other.request.cmd) ==> Received(other.request))
    && Committed(s, c, write, other, env).Some? && !Mixed(s, c, write, other, env).value.master.clients[c].dirty
  }

  /** What is left of all this: the master has carried out the command and then the write, and the
      replica ends with the write and then the command. */
  lemma {:induction false} CommittedLeaves(s: System, r: nat, c: nat, write: Request, other: T.Event, env: nat -> Env,
      there: nat -> Env)
    requires Interrupted(s, r, c, write, other, env)
    ensures var s' := Committed(s, c, write, other, env).value;
            && Here(s.master.table, Issued(write, env(0)), Issued(other.request, other.env(0))) == Done(s'.master.table)
            && (EndsEqual(s', r, there) <==>
                There(s.master.table, write, other.request, there(0), there(1)) == Done(s'.master.table))
  {
    var t := s.master.table;
    QueuesWrite(s, r, c, other.client, write, env);
    var queued := Queue(s, c, [Request(MULTI, []), write], env).value;
    OtherCommand(queued, r, c, write, t, other);
    var mixed := Mixed(s, c, write, other, env).value;
    ExecOfOne(mixed, r, c, write, env);
    var s' := Committed(s, c, write, other, env).value;
    var sent := mixed.replicas[r].link;
    HandlesBoth(t, write, Issued(other.request, other.env(0)), sent, there);
    SentFits(write, other.request, sent);
    DrainedHandles(s', r, there, sent, There(t, write, other.request, there(0), there(1)));
  }

  lemma {:induction false} SentFits(write: Request, other: Request, sent: seq<Request>)
    requires IsWriteCmd(write.cmd) && Received(write) && (IsWriteCmd(other.cmd) ==> Received(other))
    requires sent == [write] + (if IsWriteCmd(other.cmd) then [other] else [])
    ensures FittingWrites(sent)
  {
    ReceivedFits(write);
    if IsWriteCmd(other.cmd) {
      ReceivedFits(other);
    }
  }

  /** The pair ends equal. */
  ghost predicate KeepsEqual(s: System, r: nat, c: nat, write: Request, other: T.Event, env: nat -> Env,
      there: nat -> Env)
    requires Shaped(s) && c < |s.master.clients|
  {
    Committed(s, c, write, other, env).Some? && EndsEqual(Committed(s, c, write, other, env).value, r, there)
  }

  /** If the two commands touch no keys of one bucket, the pair ends equal exactly when both repeat. */
  lemma {:induction false} ApartKeepsEqualIff(s: System, r: nat, c: nat, write: Request, other: T.Event,
      env: nat -> Env, there: nat -> Env)
    requires Interrupted(s, r, c, write, other, env)
    requires Apart(write, other.request) && Unserved(there)
    ensures KeepsEqual(s, r, c, write, other, env, there) <==>
      && Repeats(s.master.table, write, env(0), there(0))
      && Repeats(s.master.table, other.request, other.env(0), there(1))
  {
    CommittedLeaves(s, r, c, write, other, env, there);
    ApartIff(s.master.table, Issued(write, env(0)), Issued(other.request, other.env(0)), there(0), there(1));
  }

  /** If the two are recorded commands on one key, the pair ends equal exactly when the two orders
      end with the same entry of that key, and neither fails. */
  lemma {:induction false} SameKeyKeepsEqualIff(s: System, r: nat, c: nat, key: Key, write: Request, other: T.Event,
      env: nat -> Env, there: nat -> Env)
    requires Interrupted(s, r, c, write, other, env)
    requires Touches(write) && write.args != [] && write.args[0] == key && Unserved(there)
    requires Touches(other.request) && other.request.args != [] && other.request.args[0] == key
    requires !Unrecorded(other.request.cmd)
    ensures KeepsEqual(s, r, c, write, other, env, there) <==>
      SameEnd(GetEntry(s.master.table, key), Issued(write, env(0)), Issued(other.request, other.env(0)), there(0),
              there(1))
  {
    CommittedLeaves(s, r, c, write, other, env, there);
    WritesAreNamed(write.cmd);
    SameKeyIff(s.master.table, key, Issued(write, env(0)), Issued(other.request, other.env(0)), there(0), there(1));
  }
}
