/** What the count that WAIT replies says about the replicas, and what a replica that is caught
    up shares with its master. */
module WaitGuarantees {
  import opened Commands
  import opened Resp
  import opened Tables
  import opened Keyspace
  import opened Effects
  import opened Replays
  import opened Replication
  import T = Transactions

  // ----- sizes of streams -----

  lemma {:induction false} SomethingHasBytes(reqs: seq<Request>)
    ensures reqs != [] ==> Size(reqs) > 0
  {
    if reqs != [] {
      PrintStarts(reqs[0]);
    }
  }

  lemma {:induction false} PrefixOfStream(sent: seq<Request>, i: nat, j: nat)
    requires i <= j <= |sent|
    ensures Writes(sent[..j]) == Writes(sent[..i]) + Writes(sent[i..j])
    ensures Size(Writes(sent[..j])) == Size(Writes(sent[..i])) + Size(Writes(sent[i..j]))
    ensures GetAcks(sent[..j]) == GetAcks(sent[..i]) + GetAcks(sent[i..j])
  {
    assert sent[..j] == sent[..i] + sent[i..j];
    SizeSplits(sent[..i], sent[i..j]);
    SizeSplits(Writes(sent[..i]), Writes(sent[i..j]));
  }

  /** The writes among the first c requests are among the first m, exactly when these hold at
      least as many bytes of writes. */
  lemma {:induction false} PrefixBySize(sent: seq<Request>, c: nat, m: nat)
    requires c <= |sent| && m <= |sent|
    ensures Writes(sent[..c]) <= Writes(sent[..m]) <==> Size(Writes(sent[..c])) <= Size(Writes(sent[..m]))
  {
    if c <= m {
      PrefixOfStream(sent, c, m);
    } else {
      PrefixOfStream(sent, m, c);
      SomethingHasBytes(Writes(sent[m..c]));
    }
  }

  // ----- WAIT -----

  /** The first m requests sent hold every write that the last WAIT captured. */
  ghost predicate HoldsCaptured(s: System, m: nat) {
    m <= |s.sent| && s.capturedAt <= |s.sent| && Writes(s.sent[..s.capturedAt]) <= Writes(s.sent[..m])
  }

  /** The replica has carried out every write that the last WAIT captured. */
  ghost predicate HasApplied(s: System, r: nat) { exists n: nat :: LinkAt(s, r, n) && HoldsCaptured(s, n) }

  lemma {:induction false} CapturedBySize(s: System, m: nat)
    requires MasterAt(s) && m <= |s.sent|
    ensures Size(s.sent[..m]) - GETACK_BYTES * GetAcks(s.sent[..m]) >= s.captured <==> HoldsCaptured(s, m)
  {
    SizeCountsGetAcks(s.sent[..m]);
    PrefixBySize(s.sent, s.capturedAt, m);
  }

  lemma {:induction false} LaterHoldsMore(s: System, m: nat, n: nat)
    requires HoldsCaptured(s, m) && m <= n <= |s.sent|
    ensures HoldsCaptured(s, n)
  {
    PrefixOfStream(s.sent, m, n);
  }

  lemma {:induction false} AckPointBefore(sent: seq<Request>, n: nat, v: int) returns (m: nat)
    requires AckPoint(sent, n, v)
    ensures m < n && m < |sent| && v == Size(sent[..m]) && GetAcks(sent[..m]) < GetAcks(sent)
  {
    m :| 0 <= m < n && m < |sent| && IsGetAck(sent[m]) && v == Size(sent[..m]);
    PrefixStep(sent, m);
    PrefixOfStream(sent, m + 1, |sent|);
    assert sent[..|sent|] == sent;
  }

  /** What the last ACK of a replica says: it was sent after the first m requests, and those held
      every captured write exactly if its offset, less 37 bytes for each earlier GETACK, reaches
      the captured offset. */
  lemma {:induction false} AckMeans(s: System, r: nat, n: nat) returns (m: nat)
    requires MasterAt(s) && LinkAt(s, r, n)
    ensures m <= n && s.acked[r] == Size(s.sent[..m])
    ensures s.acked[r] - GETACK_BYTES * GetAcks(s.sent[..m]) >= s.captured <==> HoldsCaptured(s, m)
    ensures m == 0 || GetAcks(s.sent[..m]) < GetAcks(s.sent)
  {
    if s.acked[r] == 0 {
      m := 0;
    } else {
      m := AckPointBefore(s.sent, n, s.acked[r]);
    }
    CapturedBySize(s, m);
  }

  /** WAIT is sound up to the first GETACK: a replica that it counts has carried out every write
      that it captured. */
  lemma {:induction false} CountedHasApplied(s: System, r: nat)
    requires MasterAt(s) && Attached(s, r) && GetAcks(s.sent) <= 1 && s.acked[r] >= s.captured
    ensures HasApplied(s, r)
  {
    var n: nat :| LinkAt(s, r, n);
    var m := AckMeans(s, r, n);
    LaterHoldsMore(s, m, n);
  }

  /** The replicas that have carried out all of these writes. */
  ghost function Holders(s: System, writes: seq<Request>): set<int> {
    set r: nat | r < |s.replicas| && Holds(s, r, writes)
  }

  /** A replica's keyspace is the fold of a prefix of the stream that begins with these writes. */
  ghost predicate Holds(s: System, r: nat, writes: seq<Request>) {
    exists n: nat :: LinkAt(s, r, n) && writes <= Writes(s.sent[..n])
  }

  lemma {:induction false} AppliedHolds(s: System, r: nat)
    requires HasApplied(s, r)
    ensures Holds(s, r, Writes(s.sent[..s.capturedAt]))
  {
  }

  lemma {:induction false} SmallerSet(a: set<int>, b: set<int>)
    requires a <= b
    ensures |a| <= |b|
  {
    assert b == a + (b - a);
  }

  /** In every reachable state in which at most one WAIT has sent GETACKs, the replicas that WAIT
      would count have carried out all captured writes. */
  lemma {:induction false} FirstWaitIsSound(states: seq<System>, events: seq<Event>, i: nat)
    requires IsRun(states, events) && i <= |events| && GetAcks(states[i].sent) <= 1
    requires states[i].capturedAt <= |states[i].sent|
    ensures var s := states[i];
            var reached, holders := Reached(s.acked, s.captured), Holders(s, Writes(s.sent[..s.capturedAt]));
            reached <= holders && |reached| <= |holders|
  {
    var s := states[i];
    var reached, holders := Reached(s.acked, s.captured), Holders(s, Writes(s.sent[..s.capturedAt]));
    ReplicasStay(states, events, i);
    forall r | r in reached ensures r in holders {
      AttachedAlways(states, events, i, r);
      CountedHasApplied(s, r);
      AppliedHolds(s, r);
    }
    SmallerSet(reached, holders);
  }

  /** For every WAIT: in every reachable state the last ACK of a replica shows that it had
      carried out all captured writes exactly if its offset, less 37 bytes for each GETACK that
      it had handled before, reaches the captured offset. */
  lemma {:induction false} WaitNeedsDrift(states: seq<System>, events: seq<Event>, i: nat, r: nat)
    returns (m: nat, n: nat)
    requires IsRun(states, events) && i <= |events| && r < |states[0].replicas|
    ensures MasterAt(states[i]) && LinkAt(states[i], r, n) && m <= n
    ensures states[i].acked[r] == Size(states[i].sent[..m])
    ensures states[i].acked[r] - GETACK_BYTES * GetAcks(states[i].sent[..m]) >= states[i].captured
      <==> HoldsCaptured(states[i], m)
  {
    n := PrefixAlways(states, events, i, r);
    m := AckMeans(states[i], r, n);
  }

  // ----- a replica that is caught up -----

  ghost predicate NotMulti(e: Event) { e.Client? ==> !e.event.request.cmd.MULTI? }

  /** The step is no data command, or one that repeats on the master's table, where the replicas
      carry it out with nobody blocked. */
  ghost predicate RepeatsHere(s: System, e: Event)
    requires Shaped(s)
  {
    e.Client? && !T.IsTransactionCmd(e.event.request.cmd) ==>
      Repeats(s.master.table, e.event.request, e.event.env(0), PLAIN)
  }

  /** Nobody is in a transaction, and the master's keyspace is the fold of the writes sent. */
  ghost predicate MasterFolds(s: System) {
    && Shaped(s)
    && (forall c | 0 <= c < |s.master.clients| :: !s.master.clients[c].queued)
    && Fold(EmptyTable(), Writes(s.sent)) == Done(s.master.table)
  }

  lemma {:induction false} TransactionCmdKeepsTable(m: T.Server, e: T.Event)
    requires T.Shaped(m) && e.client < |m.clients| && T.IsTransactionCmd(e.request.cmd) && !e.request.cmd.MULTI?
    requires (forall c | 0 <= c < |m.clients| :: !m.clients[c].queued) && T.Handle(m, e).Next?
    ensures var r := T.Handle(m, e).server;
            r.table == m.table && forall c | 0 <= c < |r.clients| :: !r.clients[c].queued
  {
  }

  lemma {:induction false} DataCmdChangesTable(m: T.Server, e: T.Event)
    requires T.Shaped(m) && e.client < |m.clients| && !T.IsTransactionCmd(e.request.cmd)
    requires (forall c | 0 <= c < |m.clients| :: !m.clients[c].queued) && T.Handle(m, e).Next?
    ensures var r := T.Handle(m, e).server;
            && Apply(m.table, e.request, e.env(0)) == Done(r.table)
            && forall c | 0 <= c < |r.clients| :: !r.clients[c].queued
  {
    T.HandleOfData(m, e);
    T.ExecuteOnlyDirties(m, e.request, e.env(0));
  }

  lemma {:induction false} FoldOfOneMore(sent: seq<Request>, t: Keys, req: Request, t': Keys)
    requires Fold(EmptyTable(), Writes(sent)) == Done(t) && |t| == TABLE_SIZE
    requires !IsGetAck(req) && Apply(t, req, PLAIN) == Done(t')
    ensures Fold(EmptyTable(), Writes(sent + [req])) == Done(t')
  {
    SizeSplits(sent, [req]);
    assert [req][1..] == [] && Writes([req]) == [req];
    FoldSplits(EmptyTable(), Writes(sent), [req]);
    FoldOne(t, req);
  }

  lemma {:induction false} OthersAreNotCarriedOut(t: Keys, req: Request)
    requires |t| == TABLE_SIZE && !IsWriteCmd(req.cmd) && CarriedOut(t, req, PLAIN).Done?
    ensures CarriedOut(t, req, PLAIN) == Done(t)
  {
    if !Unrecorded(req.cmd) {
      OthersKeep(t, req, PLAIN);
    }
  }

  /** What the replicas will make of the stream after a data command. */
  lemma {:induction false} FoldAfterData(sent: seq<Request>, t: Keys, req: Request)
    requires Fold(EmptyTable(), Writes(sent)) == Done(t) && |t| == TABLE_SIZE && CarriedOut(t, req, PLAIN).Done?
    ensures Fold(EmptyTable(), Writes(if IsWriteCmd(req.cmd) then sent + [req] else sent)) == CarriedOut(t, req, PLAIN)
  {
    if IsWriteCmd(req.cmd) {
      FoldOfOneMore(sent, t, req, Apply(t, req, PLAIN).table);
    } else {
      OthersAreNotCarriedOut(t, req);
    }
  }

  lemma {:induction false} DataFromClient(s: System, e: T.Event, bytes: nat, s': System)
    requires MasterFolds(s) && e.client < |s.master.clients| && FromClient(s, e, bytes) == Some(s')
    requires !T.IsTransactionCmd(e.request.cmd)
    ensures Shaped(s') && s'.sent == if IsWriteCmd(e.request.cmd) then s.sent + [e.request] else s.sent
    ensures Apply(s.master.table, e.request, e.env(0)) == Done(s'.master.table)
    ensures forall c | 0 <= c < |s'.master.clients| :: !s'.master.clients[c].queued
  {
    DataCmdChangesTable(s.master, e);
  }

  /** A data command of a client keeps the master's keyspace the fold of the writes sent exactly
      when it repeats. */
  lemma {:induction false} DataKeepsFoldIff(s: System, e: T.Event, bytes: nat, s': System)
    requires MasterFolds(s) && e.client < |s.master.clients| && FromClient(s, e, bytes) == Some(s')
    requires !T.IsTransactionCmd(e.request.cmd)
    ensures MasterFolds(s') <==> Repeats(s.master.table, e.request, e.env(0), PLAIN)
  {
    DataFromClient(s, e, bytes, s');
    RepeatsIff(s.master.table, e.request, e.env(0), PLAIN);
    FoldAfterData(s.sent, s.master.table, e.request);
  }

  lemma {:induction false} WritesSkipGetAck(sent: seq<Request>)
    ensures Writes(sent + [GETACK]) == Writes(sent)
  {
    SizeSplits(sent, [GETACK]);
    assert [GETACK][1..] == [] && Writes([GETACK]) == [];
    assert Writes(sent) + [] == Writes(sent);
  }

  lemma {:induction false} WaitSends(s: System, wanted: int)
    requires Shaped(s)
    ensures Shaped(Wait(s, wanted)) && Wait(s, wanted).master == s.master
    ensures Wait(s, wanted).sent == s.sent || Wait(s, wanted).sent == s.sent + [GETACK]
  {
  }

  lemma {:induction false} WaitKeepsFold(s: System, wanted: int)
    requires MasterFolds(s)
    ensures MasterFolds(Wait(s, wanted))
  {
    WaitSends(s, wanted);
    WritesSkipGetAck(s.sent);
  }

  lemma {:induction false} LinkStepKeepsFold(s: System, e: Event)
    requires MasterFolds(s) && !e.Client? && !e.WaitFor? && Step(s, e).Some? && Shaped(Step(s, e).value)
    ensures MasterFolds(Step(s, e).value)
  {
  }

  lemma {:induction false} RunStepKeepsFoldIff(states: seq<System>, events: seq<Event>, i: nat)
    requires IsRun(states, events) && i < |events| && NotMulti(events[i]) && MasterFolds(states[i])
    ensures MasterFolds(states[i + 1]) <==> RepeatsHere(states[i], events[i])
  {
    AtStep(states, events, i);
    var s, e := states[i], events[i];
    if e.Client? && !T.IsTransactionCmd(e.event.request.cmd) {
      DataKeepsFoldIff(s, e.event, e.bytes, states[i + 1]);
    } else if e.Client? {
      TransactionCmdKeepsTable(s.master, e.event);
    } else if e.WaitFor? {
      WaitKeepsFold(s, e.wanted);
    } else {
      ReplicasStay(states, events, i + 1);
      LinkStepKeepsFold(s, e);
    }
  }

  /** Every command of the run up to step n repeats on the table that it met. */
  ghost predicate AllRepeat(states: seq<System>, events: seq<Event>, n: nat)
    requires IsRun(states, events) && n <= |events|
  {
    forall i | 0 <= i < n :: RepeatsHere(states[i], events[i])
  }

  lemma {:induction false} StartFolds(s: System)
    requires Start(s)
    ensures MasterFolds(s)
  {
  }

  lemma {:induction false} MasterFoldsAt(states: seq<System>, events: seq<Event>, n: nat)
    requires IsRun(states, events) && n <= |events| && (forall e | e in events :: NotMulti(e))
    requires AllRepeat(states, events, n)
    ensures MasterFolds(states[n])
  {
    if n == 0 {
      StartFolds(states[0]);
    } else {
      assert AllRepeat(states, events, n - 1);
      MasterFoldsAt(states, events, n - 1);
      assert events[n - 1] in events && RepeatsHere(states[n - 1], events[n - 1]);
      RunStepKeepsFoldIff(states, events, n - 1);
    }
  }

  /** Without MULTI, the master's keyspace is at every point the fold of the writes that it has
      sent, exactly when every command repeats on the table that it met. */
  lemma {:induction false} MasterFoldsIff(states: seq<System>, events: seq<Event>)
    requires IsRun(states, events) && forall e | e in events :: NotMulti(e)
    ensures (forall n | 0 <= n <= |events| :: MasterFolds(states[n])) <==> AllRepeat(states, events, |events|)
  {
    if AllRepeat(states, events, |events|) {
      forall n | 0 <= n <= |events| ensures MasterFolds(states[n]) {
        assert AllRepeat(states, events, n);
        MasterFoldsAt(states, events, n);
      }
    }
    if forall n | 0 <= n <= |events| :: MasterFolds(states[n]) {
      forall i | 0 <= i < |events| ensures RepeatsHere(states[i], events[i]) {
        assert events[i] in events && MasterFolds(states[i]) && MasterFolds(states[i + 1]);
        RunStepKeepsFoldIff(states, events, i);
      }
    }
  }

  /** Without MULTI, and while every command repeats on the table that it met, a replica with
      nothing in flight has the master's keyspace. */
  lemma {:induction false} CaughtUpIsEqual(states: seq<System>, events: seq<Event>, i: nat, r: nat)
    requires IsRun(states, events) && i <= |events| && r < |states[0].replicas|
    requires (forall e | e in events :: NotMulti(e)) && AllRepeat(states, events, i)
    requires r < |states[i].replicas| && states[i].replicas[r].link == []
    ensures states[i].replicas[r].table == states[i].master.table
  {
    MasterFoldsAt(states, events, i);
    var n := PrefixAlways(states, events, i, r);
    assert |states[i].sent[n..]| == 0;
    assert states[i].sent[..n] == states[i].sent;
  }
}
