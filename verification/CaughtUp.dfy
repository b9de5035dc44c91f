/** A replica that is caught up with its master, and what one command or one transaction of a
    client leaves of that: each time the exact condition under which the two stay equal. */
module CaughtUp {
  import opened Seqs
  import opened Commands
  import opened Resp
  import opened Tables
  import opened Effects
  import opened Keyspace
  import opened Replays
  import opened Replication
  import T = Transactions
  import I = Interleavings

  /** Nothing is in flight to the replica, and it has the master's keyspace. */
  ghost predicate InStep(s: System, r: nat) {
    && Shaped(s) && r < |s.replicas|
    && s.replicas[r].link == [] && s.replicas[r].table == s.master.table
  }

  /** The system after everything in flight to the replica has arrived. */
  ghost function Drained(s: System, r: nat, env: nat -> Env): Option<System>
    requires Shaped(s) && r < |s.replicas|
  {
    Delivered(s, r, |s.replicas[r].link|, env)
  }

  /** The replica has the master's keyspace once everything has arrived. */
  ghost predicate EndsEqual(s: System, r: nat, env: nat -> Env) {
    && Shaped(s) && r < |s.replicas|
    && Drained(s, r, env).Some? && Drained(s, r, env).value.replicas[r].table == s.master.table
  }

  // ----- what arrives -----

  /** Writes that fit the parser's buffers. */
  ghost predicate FittingWrites(reqs: seq<Request>) { forall q | q in reqs :: IsWriteCmd(q.cmd) && Fits(q) }

  lemma {:induction false} TakeWriteOf(p: Replica, item: Read, env: Env)
    requires |p.table| == TABLE_SIZE && !item.request.cmd.REPLCONF?
    ensures Take(p, item, env) ==
      match Apply(p.table, item.request, env)
      case Crash => None
      case Done(table) => Some(p.(table := table, offset := p.offset + item.bytes))
  {
  }

  /** The keyspace of a replica that takes writes is that of a server that handles them. */
  lemma {:induction false} TakeAllHandles(p: Replica, reqs: seq<Request>, items: seq<Read>, env: nat -> Env, i: nat)
    requires |p.table| == TABLE_SIZE && FittingWrites(reqs) && items == ReadBackAll(reqs)
    ensures TakeAll(p, items, env, i).Some? <==> HandleAll(p.table, items, env, i).Done?
    ensures TakeAll(p, items, env, i).Some? ==>
      TakeAll(p, items, env, i).value.table == HandleAll(p.table, items, env, i).table
    decreases |reqs|
  {
    if reqs != [] {
      assert reqs[0] in reqs && forall q | q in reqs[1..] :: q in reqs;
      FirstRead(reqs);
      TakeWriteOf(p, items[0], env(i));
      var q := Take(p, items[0], env(i));
      if q.Some? {
        TakeAllHandles(q.value, reqs[1..], items[1..], env, i + 1);
      }
    }
  }

  lemma {:induction false} DrainedHandles(s: System, r: nat, env: nat -> Env, reqs: seq<Request>, h: Effect)
    requires Shaped(s) && r < |s.replicas| && s.replicas[r].link == reqs && FittingWrites(reqs)
    requires h == HandleAll(s.replicas[r].table, ReadBackAll(reqs), env, 0)
    ensures Drained(s, r, env).Some? <==> h.Done?
    ensures h.Done? ==> Drained(s, r, env).value.replicas[r].table == h.table
  {
    assert reqs[..|reqs|] == reqs && reqs[|reqs|..] == [];
    ReadLoopInvertsPrintAll(reqs);
    TakeAllHandles(s.replicas[r].(link := []), reqs, ReadBackAll(reqs), env, 0);
  }

  // ----- one command -----

  lemma {:induction false} WritesAreRecording()
    ensures Records(IsWriteCmd)
  {
  }

  lemma {:induction false} DataFromClient(s: System, e: T.Event, bytes: nat, r: nat)
    requires InStep(s, r) && e.client < |s.master.clients| && FromClient(s, e, bytes).Some?
    requires !s.master.clients[e.client].queued && !T.IsTransactionCmd(e.request.cmd)
    ensures var s' := FromClient(s, e, bytes).value;
            && Shaped(s') && r < |s'.replicas|
            && Apply(s.master.table, e.request, e.env(0)) == Done(s'.master.table)
            && s'.replicas[r].table == s.master.table
            && s'.replicas[r].link == if IsWriteCmd(e.request.cmd) then [e.request] else []
  {
    T.HandleOfData(s.master, e);
    assert [] + [e.request] == [e.request];
  }

  lemma {:induction false} HandleNoneOrOne(t: Keys, c: Issued, reqs: seq<Request>, env: nat -> Env)
    requires |t| == TABLE_SIZE && Apply(t, c.request, c.env).Done?
    requires reqs == if IsWriteCmd(c.request.cmd) then [c.request] else []
    ensures HandleAll(t, ReadBackAll(reqs), env, 0) == CarriedOut(t, c.request, env(0))
  {
    WritesAreRecording();
    RecordCarriedOut(t, c, IsWriteCmd, env(0));
    if IsWriteCmd(c.request.cmd) {
      FirstRead(reqs);
      ReadBackAllSplits(reqs, []);
      HandleOne(t, ReadBackAll(reqs), env, 0);
    }
  }

  /** One command of a client, outside transactions, on a caught-up pair: once it has arrived, the
      two are equal exactly when the command repeats on the table that it met. They are not if it
      is a ZADD, ZREM, GEOADD, BLPOP or GEOSEARCH with an effect, an RPUSH that served a client, a
      SET with an expiry or an XADD with an ID from a clock that reads differently there. */
  lemma {:induction false} CommandKeepsEqualIff(s: System, r: nat, e: T.Event, bytes: nat, env: nat -> Env)
    requires InStep(s, r) && e.client < |s.master.clients| && FromClient(s, e, bytes).Some? && Unserved(env)
    requires !s.master.clients[e.client].queued && !T.IsTransactionCmd(e.request.cmd)
    requires IsWriteCmd(e.request.cmd) ==> Received(e.request)
    ensures var s' := FromClient(s, e, bytes).value;
            && Shaped(s') && r < |s'.replicas| && Drained(s', r, env).Some?
            && (EndsEqual(s', r, env) <==> Repeats(s.master.table, e.request, e.env(0), env(0)))
  {
    var s' := FromClient(s, e, bytes).value;
    DataFromClient(s, e, bytes, r);
    if IsWriteCmd(e.request.cmd) {
      ReceivedFits(e.request);
    }
    var c := Issued(e.request, e.env(0));
    var h := CarriedOut(s.master.table, e.request, env(0));
    HandleNoneOrOne(s.master.table, c, s'.replicas[r].link, env);
    RepeatsIff(s.master.table, e.request, e.env(0), env(0));
    DrainedHandles(s', r, env, s'.replicas[r].link, h);
  }

  // ----- one transaction, with no command in between -----

  /** A client that has not called MULTI, on a caught-up pair. */
  ghost predicate Ready(s: System, r: nat, c: nat) {
    InStep(s, r) && c < |s.master.clients| && T.Idle(s.master, c)
  }

  /** The client sends these requests one after the other. */
  ghost function Queue(s: System, c: nat, reqs: seq<Request>, env: nat -> Env): Option<System>
    requires Shaped(s) && c < |s.master.clients|
    decreases |reqs|
  {
    if reqs == [] then Some(s)
    else
      match FromClient(s, T.Event(c, reqs[0], env), |Print(reqs[0])|)
      case None => None
      case Some(next) => Queue(next, c, reqs[1..], env)
  }

  /** Data commands that came from the parser. */
  ghost predicate Queueable(reqs: seq<Request>) {
    forall q | q in reqs :: !T.IsTransactionCmd(q.cmd) && (IsWriteCmd(q.cmd) ==> Received(q))
  }

  function WritesOf(reqs: seq<Request>): seq<Request> {
    if reqs == [] then [] else (if IsWriteCmd(reqs[0].cmd) then [reqs[0]] else []) + WritesOf(reqs[1..])
  }

  lemma {:induction false} WritesFit(reqs: seq<Request>)
    requires Queueable(reqs)
    ensures FittingWrites(WritesOf(reqs))
  {
    if reqs != [] {
      assert reqs[0] in reqs && forall q | q in reqs[1..] :: q in reqs;
      WritesFit(reqs[1..]);
      if IsWriteCmd(reqs[0].cmd) {
        ReceivedFits(reqs[0]);
      }
    }
  }

  /** The client has queued these requests, and their writes are in flight to the replica. */
  ghost predicate Queued(s: System, r: nat, c: nat, reqs: seq<Request>, sent: seq<Request>, t: Keys, dirty: bool) {
    && Shaped(s) && r < |s.replicas| && c < |s.master.clients|
    && s.master.table == t == s.replicas[r].table && s.replicas[r].link == sent
    && s.master.clients[c].queued && s.master.clients[c].queue == reqs && s.master.clients[c].dirty == dirty
  }

  lemma {:induction false} QueueOne(s: System, r: nat, c: nat, reqs: seq<Request>, sent: seq<Request>, t: Keys,
      dirty: bool, req: Request, env: nat -> Env)
    requires Queued(s, r, c, reqs, sent, t, dirty) && !T.IsTransactionCmd(req.cmd)
    requires FromClient(s, T.Event(c, req, env), |Print(req)|).Some?
    ensures Queued(FromClient(s, T.Event(c, req, env), |Print(req)|).value, r, c, reqs + [req],
                   sent + (if IsWriteCmd(req.cmd) then [req] else []), t, dirty)
  {
    assert sent + [] == sent;
  }

  lemma {:induction false} QueueAll(s: System, r: nat, c: nat, reqs: seq<Request>, sent: seq<Request>, t: Keys,
      dirty: bool, more: seq<Request>, env: nat -> Env)
    requires Queued(s, r, c, reqs, sent, t, dirty) && Queueable(more) && Queue(s, c, more, env).Some?
    ensures Queued(Queue(s, c, more, env).value, r, c, reqs + more, sent + WritesOf(more), t, dirty)
    decreases |more|
  {
    if more == [] {
      assert reqs + [] == reqs && sent + [] == sent;
    } else {
      var req := more[0];
      assert req in more && forall q | q in more[1..] :: q in more;
      var one := if IsWriteCmd(req.cmd) then [req] else [];
      QueueOne(s, r, c, reqs, sent, t, dirty, req, env);
      var next := FromClient(s, T.Event(c, req, env), |Print(req)|).value;
      QueueAll(next, r, c, reqs + [req], sent + one, t, dirty, more[1..], env);
      ConcatAssociates(reqs, [req], more[1..]);
      assert [req] + more[1..] == more;
      ConcatAssociates(sent, one, WritesOf(more[1..]));
    }
  }

  /** MULTI, the requests, and EXEC or DISCARD. */
  ghost function Transaction(s: System, c: nat, reqs: seq<Request>, last: Cmd, env: nat -> Env): Option<System>
    requires Shaped(s) && c < |s.master.clients|
  {
    match Queue(s, c, [Request(MULTI, [])] + reqs, env)
    case None => None
    case Some(queued) =>
      if !Shaped(queued) || c >= |queued.master.clients| then None
      else FromClient(queued, T.Event(c, Request(last, []), env), 0)
  }

  lemma {:induction false} MultiOpens(s: System, r: nat, c: nat, env: nat -> Env)
    requires Ready(s, r, c)
    ensures var next := FromClient(s, T.Event(c, Request(MULTI, []), env), |Print(Request(MULTI, []))|);
            next.Some? && Queued(next.value, r, c, [], [], s.master.table, s.master.clients[c].dirty)
  {
  }

  /** The state before the last command of a transaction. */
  lemma {:induction false} TransactionQueues(s: System, r: nat, c: nat, reqs: seq<Request>, env: nat -> Env)
    requires Ready(s, r, c) && Queueable(reqs)
    requires Queue(s, c, [Request(MULTI, [])] + reqs, env).Some?
    ensures Queued(Queue(s, c, [Request(MULTI, [])] + reqs, env).value, r, c, reqs, WritesOf(reqs), s.master.table,
                   s.master.clients[c].dirty)
  {
    var multi := Request(MULTI, []);
    assert ([multi] + reqs)[1..] == reqs;
    MultiOpens(s, r, c, env);
    var open := FromClient(s, T.Event(c, multi, env), |Print(multi)|).value;
    QueueAll(open, r, c, [], [], s.master.table, s.master.clients[c].dirty, reqs, env);
    assert [] + reqs == reqs && [] + WritesOf(reqs) == WritesOf(reqs);
  }

  /** EXEC of a clean client: the queue is carried out; EXEC of a dirty one and DISCARD: nothing. */
  lemma {:induction false} LastCommand(s: System, r: nat, c: nat, reqs: seq<Request>, sent: seq<Request>, t: Keys,
      dirty: bool,
      last: Cmd, env: nat -> Env)
    requires Queued(s, r, c, reqs, sent, t, dirty) && (last.EXEC? || last.DISCARD?)
    requires FromClient(s, T.Event(c, Request(last, []), env), 0).Some?
    ensures var s' := FromClient(s, T.Event(c, Request(last, []), env), 0).value;
            && Shaped(s') && r < |s'.replicas| && s'.replicas[r].link == sent && s'.replicas[r].table == t
            && (if last.EXEC? && !dirty then ApplyAll(t, I.Together(reqs, env, 0)) == Done(s'.master.table)
                else s'.master.table == t)
  {
    if last.EXEC? && !dirty {
      I.ExecuteAllIsApplyAll(T.Unqueued(s.master, c), reqs, env, 0);
    }
  }

  lemma {:induction false} TogetherWrites(reqs: seq<Request>, env: nat -> Env, i: nat)
    requires i <= |reqs|
    ensures RecordedOf(I.Together(reqs, env, i), IsWriteCmd) == WritesOf(reqs[i..])
    decreases |reqs| - i
  {
    if i < |reqs| {
      var more := I.Together(reqs, env, i + 1);
      assert ([Issued(reqs[i], env(i))] + more)[1..] == more;
      assert reqs[i..][1..] == reqs[i + 1..];
      TogetherWrites(reqs, env, i + 1);
    }
  }

  /** What a transaction with nothing in between leaves: the replica ends with the fold of the
      queued writes, whatever became of the transaction. */
  lemma {:induction false} AfterTransaction(s: System, r: nat, c: nat, reqs: seq<Request>, last: Cmd, env: nat -> Env,
      there: nat -> Env)
    requires Ready(s, r, c) && Queueable(reqs)
    requires (last.EXEC? || last.DISCARD?) && Transaction(s, c, reqs, last, env).Some?
    ensures var s', t := Transaction(s, c, reqs, last, env).value, s.master.table;
            var h := HandleAll(t, ReadBackAll(WritesOf(reqs)), there, 0);
            && Shaped(s') && r < |s'.replicas|
            && (EndsEqual(s', r, there) <==> h == Done(s'.master.table))
            && (if last.EXEC? && !s.master.clients[c].dirty
                then ApplyAll(t, I.Together(reqs, env, 0)) == Done(s'.master.table)
                else s'.master.table == t)
  {
    TransactionQueues(s, r, c, reqs, env);
    var queued := Queue(s, c, [Request(MULTI, [])] + reqs, env).value;
    LastCommand(queued, r, c, reqs, WritesOf(reqs), s.master.table, s.master.clients[c].dirty, last, env);
    WritesFit(reqs);
    DrainedHandles(Transaction(s, c, reqs, last, env).value, r, there, WritesOf(reqs),
                   HandleAll(s.master.table, ReadBackAll(WritesOf(reqs)), there, 0));
  }

  /** A committed transaction with nothing in between leaves a caught-up pair equal, when every
      queued command repeats on the table that it meets. */
  lemma {:induction false} CommitKeepsEqual(s: System, r: nat, c: nat, reqs: seq<Request>, env: nat -> Env,
      there: nat -> Env)
    requires Ready(s, r, c) && !s.master.clients[c].dirty && Queueable(reqs)
    requires Transaction(s, c, reqs, EXEC, env).Some? && Unserved(there)
    requires RepeatsAlong(s.master.table, I.Together(reqs, env, 0), IsWriteCmd, there, 0)
    ensures EndsEqual(Transaction(s, c, reqs, EXEC, env).value, r, there)
  {
    AfterTransaction(s, r, c, reqs, EXEC, env, there);
    assert reqs[0..] == reqs;
    TogetherWrites(reqs, env, 0);
    WritesAreRecording();
    RecordsRepeat(s.master.table, I.Together(reqs, env, 0), IsWriteCmd, there, 0);
  }

  /** For one queued command that is exact. */
  lemma {:induction false} CommitOneKeepsEqualIff(s: System, r: nat, c: nat, req: Request, env: nat -> Env,
      there: nat -> Env)
    requires Ready(s, r, c) && !s.master.clients[c].dirty && Queueable([req])
    requires Transaction(s, c, [req], EXEC, env).Some? && Unserved(there)
    ensures EndsEqual(Transaction(s, c, [req], EXEC, env).value, r, there)
      <==> Repeats(s.master.table, req, env(0), there(0))
  {
    AfterTransaction(s, r, c, [req], EXEC, env, there);
    var one := Issued(req, env(0));
    assert I.Together([req], env, 0) == [one] && [one][1..] == [];
    assert WritesOf([req]) == if IsWriteCmd(req.cmd) then [req] else [];
    HandleNoneOrOne(s.master.table, one, WritesOf([req]), there);
    RepeatsIff(s.master.table, req, env(0), there(0));
  }

  /** A transaction that is discarded, or aborted because its client is dirty, leaves a caught-up
      pair equal exactly when the writes that it queued leave the table as it is. */
  lemma {:induction false} AbandonedKeepsEqualIff(s: System, r: nat, c: nat, reqs: seq<Request>, last: Cmd,
      env: nat -> Env,
      there: nat -> Env)
    requires Ready(s, r, c) && Queueable(reqs)
    requires last.DISCARD? || (last.EXEC? && s.master.clients[c].dirty)
    requires Transaction(s, c, reqs, last, env).Some?
    ensures EndsEqual(Transaction(s, c, reqs, last, env).value, r, there)
      <==> HandleAll(s.master.table, ReadBackAll(WritesOf(reqs)), there, 0) == Done(s.master.table)
  {
    AfterTransaction(s, r, c, reqs, last, env, there);
  }

  /** For one queued command: exactly when it is not a write, or has no effect. */
  lemma {:induction false} AbandonedOneKeepsEqualIff(s: System, r: nat, c: nat, req: Request, last: Cmd,
      env: nat -> Env,
      there: nat -> Env)
    requires Ready(s, r, c) && Queueable([req]) && Unserved(there)
    requires last.DISCARD? || (last.EXEC? && s.master.clients[c].dirty)
    requires Transaction(s, c, [req], last, env).Some? && Apply(s.master.table, req, there(0)).Done?
    ensures EndsEqual(Transaction(s, c, [req], last, env).value, r, there)
      <==> !IsWriteCmd(req.cmd) || !Effective(s.master.table, req, there(0))
  {
    AbandonedKeepsEqualIff(s, r, c, [req], last, env, there);
    assert WritesOf([req]) == if IsWriteCmd(req.cmd) then [req] else [];
    HandleNoneOrOne(s.master.table, Issued(req, there(0)), WritesOf([req]), there);
    EffectiveIff(s.master.table, req, there(0));
    WritesAreNamed(req.cmd);
  }

  lemma {:induction false} WritesAreNamed(cmd: Cmd)
    ensures IsWriteCmd(cmd) ==> !Unrecorded(cmd)
  {
  }

  lemma {:induction false} NoEffectStep(t: Keys, req: Request, more: seq<Request>, env: nat -> Env, i: nat)
    requires |t| == TABLE_SIZE && IsWriteCmd(req.cmd) && !env(i).served
    requires Apply(t, req, env(i)).Done? && !Effective(t, req, env(i))
    ensures HandleAll(t, ReadBackAll([req] + more), env, i) == HandleAll(t, ReadBackAll(more), env, i + 1)
  {
    EffectiveIff(t, req, env(i));
    HandleFirst(t, req, more, env, i, Done(t));
  }

  /** Writes that have no effect, each by itself, leave the table as it is. */
  lemma {:induction false} NoEffects(t: Keys, reqs: seq<Request>, env: nat -> Env, i: nat)
    requires |t| == TABLE_SIZE && Unserved(env) && FittingWrites(reqs)
    requires forall q, k | q in reqs && i <= k :: Apply(t, q, env(k)).Done? && !Effective(t, q, env(k))
    ensures HandleAll(t, ReadBackAll(reqs), env, i) == Done(t)
    decreases |reqs|
  {
    if reqs != [] {
      assert reqs[0] in reqs && forall q | q in reqs[1..] :: q in reqs;
      assert [reqs[0]] + reqs[1..] == reqs;
      NoEffectStep(t, reqs[0], reqs[1..], env, i);
      NoEffects(t, reqs[1..], env, i + 1);
    }
  }

  lemma {:induction false} HandleTwo(t: Keys, a: Request, b: Request, t1: Keys, t2: Keys, env: nat -> Env)
    requires |t| == |t1| == TABLE_SIZE && Apply(t, ReadBack(a), env(0)) == Done(t1)
    requires Apply(t1, ReadBack(b), env(1)) == Done(t2)
    ensures HandleAll(t, ReadBackAll([a, b]), env, 0) == Done(t2)
  {
    assert [a, b] == [a] + [b];
    HandleFirst(t, a, [b], env, 0, Done(t1));
    FirstRead([b]);
    ReadBackAllSplits([b], []);
    HandleOne(t1, ReadBackAll([b]), env, 1);
  }

  /** The table with another list under a key that has one. */
  function WithList(t: Keys, key: Key, l: seq<string>): Keys
    requires |t| == TABLE_SIZE && GetEntry(t, key).Some?
  {
    t[Bucket(key) := t[Bucket(key)][Find(t[Bucket(key)], key) := Entry(key, List(l), 0)]]
  }

  ghost predicate HasList(t: Keys, key: Key, l: seq<string>) {
    |t| == TABLE_SIZE && GetEntry(t, key) == Some(Entry(key, List(l), 0))
  }

  lemma {:induction false} WithListHas(t: Keys, key: Key, l: seq<string>, more: seq<string>)
    requires HasList(t, key, l)
    ensures HasList(WithList(t, key, more), key, more) && WithList(WithList(t, key, more), key, l) == t
  {
    var b := Bucket(key);
    var i := Find(t[b], key);
    var chain := t[b][i := Entry(key, List(more), 0)];
    FindIs(chain, key, i);
    assert chain[i := Entry(key, List(l), 0)] == t[b];
    assert WithList(t, key, more)[b := t[b]] == t;
  }

  lemma {:induction false} PushApplies(t: Keys, key: Key, l: seq<string>, x: string, env: Env)
    requires HasList(t, key, l) && !env.served
    ensures Apply(t, Request(RPUSH, [key, x]), env) == Done(WithList(t, key, l + [x]))
    ensures Effective(t, Request(RPUSH, [key, x]), env)
  {
    assert [key, x][1..] == [x];
  }

  lemma {:induction false} PopApplies(t: Keys, key: Key, l: seq<string>, env: Env)
    requires HasList(t, key, l) && l != []
    ensures Apply(t, Request(LPOP, [key]), env) == Done(WithList(t, key, l[1..]))
    ensures Effective(t, Request(LPOP, [key]), env)
  {
  }

  /** The converse fails for more than one write: an RPUSH of the element and an LPOP on a
      list of one element each have an effect, and together none. */
  lemma {:induction false} EffectsMayCancel(t: Keys, key: Key, x: string, env: nat -> Env)
    requires HasList(t, key, [x]) && Unserved(env)
    ensures var push, pop := Request(RPUSH, [key, x]), Request(LPOP, [key]);
            && Effective(t, push, env(0)) && Effective(t, pop, env(1))
            && HandleAll(t, ReadBackAll([push, pop]), env, 0) == Done(t)
  {
    var two := [x] + [x];
    var t' := WithList(t, key, two);
    WithListHas(t, key, [x], two);
    PushApplies(t, key, [x], x, env(0));
    PopApplies(t, key, [x], env(1));
    assert two[1..] == [x];
    PopApplies(t', key, two, env(1));
    HandleTwo(t, Request(RPUSH, [key, x]), Request(LPOP, [key]), t', t, env);
  }
}
