/** Runs in which replication falls short: a later WAIT that counts a replica which is behind, and
    a discarded transaction that a replica carries out. */
module ReplicationGaps {
  import opened CStrings
  import opened Commands
  import opened Resp
  import opened Tables
  import opened Effects
  import opened Keyspace
  import opened Replays
  import opened Replication
  import opened WaitGuarantees
  import T = Transactions

  // ----- runs of one replica, step by step -----

  lemma {:induction false} Extend(states: seq<System>, events: seq<Event>, e: Event, s: System)
    requires IsRun(states, events) && Proper(e) && Step(states[|events|], e) == Some(s)
    requires Shaped(s) && Size(s.sent) <= LLONG_MAX
    ensures IsRun(states + [s], events + [e])
  {
    var more, steps := states + [s], events + [e];
    forall i | 0 <= i < |steps| ensures Proper(steps[i]) && Step(more[i], steps[i]) == Some(more[i + 1]) {
      if i < |events| {
        AtStep(states, events, i);
      }
    }
  }

  /** One replica with nothing in flight either way. */
  ghost predicate Quiescent(s: System, p: Replica) {
    && Shaped(s) && s.replicas == [p] && p.link == [] && p.acks == [] && |s.acked| == 1
    && Size(s.sent) <= 1000 && p.offset <= 1000
  }

  lemma {:induction false} SentToOne(p: Replica, req: Request)
    requires p.link == []
    ensures SentTo([p], req) == [p.(link := [req])]
  {
    assert p.link + [req] == [req];
  }

  lemma {:induction false} SizeOfOneMore(sent: seq<Request>)
    ensures Size(sent + [GETACK]) == Size(sent) + GETACK_BYTES
  {
    SizeSplits(sent, [GETACK]);
    GetAckBytes();
    assert [GETACK][1..] == [];
  }

  lemma {:induction false} AskOne(s: System, p: Replica)
    requires Quiescent(s, p)
    ensures Wait(s, 2) == s.(captured := s.offset, capturedAt := |s.sent|, wanted := 2, waiting := true,
                             replicas := [p.(link := [GETACK])], sent := s.sent + [GETACK])
  {
    CountOfOne(s.acked, s.offset);
    SentToOne(p, GETACK);
  }

  lemma {:induction false} CountOfOne(acked: seq<int>, captured: nat)
    requires |acked| == 1
    ensures Count(acked, captured) == if acked[0] >= captured then 1 else 0
  {
    assert acked[1..] == [];
  }

  lemma {:induction false} ReadOne(req: Request)
    requires Fits(req) && ReadBack(req) == req
    ensures ReadLoop(PrintAll([req])) == Reads([Read(req, |Print(req)|)], false)
  {
    ReadLoopInvertsPrintAll([req]);
    FirstRead([req]);
    assert [req][1..] == [];
  }

  lemma {:induction false} TakeAsk(p: Replica, item: Read, env: Env)
    requires |p.table| == TABLE_SIZE && IsReplconf(item.request, "GETACK")
    ensures Take(p, item, env) == Some(p.(acks := p.acks + [p.offset], offset := p.offset + item.bytes))
  {
  }

  lemma {:induction false} TakeAllOfOne(p: Replica, items: seq<Read>, env: nat -> Env, q: Replica)
    requires |p.table| == |q.table| == TABLE_SIZE && |items| == 1 && Take(p, items[0], env(0)) == Some(q)
    ensures TakeAll(p, items, env, 0) == Some(q)
  {
    assert items[1..] == [];
  }

  lemma {:induction false} TakeAsked(p: Replica, item: Read, env: nat -> Env, items: seq<Read>)
    requires |p.table| == TABLE_SIZE && IsReplconf(item.request, "GETACK") && items == [item] && p.acks == []
    ensures TakeAll(p, items, env, 0) == Some(p.(acks := [p.offset], offset := p.offset + item.bytes))
  {
    TakeAsk(p, item, env(0));
    var q := p.(acks := p.acks + [p.offset], offset := p.offset + item.bytes);
    assert p.acks + [p.offset] == [p.offset];
    TakeAllOfOne(p, items, env, q);
  }

  lemma {:induction false} DeliveredOne(s: System, p: Replica, env: nat -> Env, req: Request, items: seq<Read>,
      q: Replica)
    requires s.replicas == [p] && p.link == [req] && |p.table| == TABLE_SIZE
    requires ReadLoop(PrintAll([req])) == Reads(items, false)
    requires TakeAll(p.(link := []), items, env, 0) == Some(q)
    ensures Delivered(s, 0, 1, env) == Some(s.(replicas := [q]))
  {
    assert p.link[..1] == [req] && p.link[1..] == [];
    assert [p][0 := q] == [q];
  }

  lemma {:induction false} HeardOne(acked: int, req: Request, bytes: nat, v: nat)
    requires IsReplconf(req, "ACK") && |req.args| >= 2 && Atoi(req.args[1]) == v
    ensures Acknowledged(acked, [Read(req, bytes)]) == v
  {
    assert [Read(req, bytes)][1..] == [];
  }

  lemma {:induction false} ReportedOne(s: System, p: Replica, v: nat, answer: Request, item: Read)
    requires s.replicas == [p] && p.acks == [v] && |s.acked| == 1
    requires AcksOf([v]) == [answer] && ReadLoop(PrintAll([answer])) == Reads([item], false)
    requires Acknowledged(s.acked[0], [item]) == v
    ensures Reported(s, 0, 1) == Some(s.(acked := [v], replicas := [p.(acks := [])]))
  {
    assert p.acks[..1] == [v] && p.acks[1..] == [];
    assert s.acked[0 := v] == [v] && [p][0 := p.(acks := [])] == [p.(acks := [])];
  }

  lemma {:induction false} ReportNumber(s: System, p: Replica, v: nat)
    requires s.replicas == [p] && p.acks == [v] && |s.acked| == 1 && v <= LLONG_MAX
    ensures Reported(s, 0, 1) == Some(s.(acked := [v], replicas := [p.(acks := [])]))
  {
    var answer, bytes := AckOf(v), |Print(AckOf(v))|;
    AckFits(v);
    AckIsUnderstood(v);
    assert [v][1..] == [] && AcksOf([v]) == [answer];
    HeardOne(s.acked[0], answer, bytes, v);
    ReadOne(answer);
    ReportedOne(s, p, v, answer, Read(answer, bytes));
  }

  /** One message of the only replica's link, with what it makes of it. */
  lemma {:induction false} DeliverOne(states: seq<System>, events: seq<Event>, s: System, p: Replica, env: nat -> Env,
      q: Replica)
    returns (states': seq<System>, events': seq<Event>)
    requires IsRun(states, events) && s == states[|events|] && s.replicas == [p] && |p.link| == 1
    requires Unserved(env) && |q.table| == TABLE_SIZE && Delivered(s, 0, 1, env) == Some(s.(replicas := [q]))
    ensures IsRun(states', events') && states'[0] == states[0] && states'[|events'|] == s.(replicas := [q])
  {
    var s' := s.(replicas := [q]);
    Extend(states, events, Deliver(0, 1, env), s');
    states', events' := states + [s'], events + [Deliver(0, 1, env)];
  }

  lemma {:induction false} AskAndAnswer(states: seq<System>, events: seq<Event>, env: nat -> Env, p: Replica)
    returns (states': seq<System>, events': seq<Event>)
    requires IsRun(states, events) && Unserved(env) && Quiescent(states[|events|], p)
    ensures IsRun(states', events') && states'[0] == states[0]
    ensures var s, s' := states[|events|], states'[|events'|];
            && Shaped(s') && s'.master == s.master && s'.offset == s.offset && s'.acked == s.acked
            && s'.replicas == [p.(acks := [p.offset], offset := p.offset + GETACK_BYTES)] && s'.replies == s.replies
            && s'.sent == s.sent + [GETACK] && Size(s'.sent) == Size(s.sent) + GETACK_BYTES
  {
    var s := states[|events|];
    AskOne(s, p);
    var asked := Wait(s, 2);
    SizeOfOneMore(s.sent);
    Extend(states, events, WaitFor(2), asked);
    states', events' := states + [asked], events + [WaitFor(2)];
    GetAckIsAsked();
    GetAckBytes();
    ReadOne(GETACK);
    TakeAsked(p, Read(GETACK, GETACK_BYTES), env, [Read(GETACK, GETACK_BYTES)]);
    var q := p.(acks := [p.offset], offset := p.offset + GETACK_BYTES);
    DeliveredOne(asked, asked.replicas[0], env, GETACK, [Read(GETACK, GETACK_BYTES)], q);
    states', events' := DeliverOne(states', events', asked, asked.replicas[0], env, q);
  }

  /** A WAIT for two replicas makes the only one answer a GETACK, which moves its offset on. */
  lemma {:induction false} AckRound(states: seq<System>, events: seq<Event>, env: nat -> Env, p: Replica)
    returns (states': seq<System>, events': seq<Event>)
    requires IsRun(states, events) && Unserved(env) && Quiescent(states[|events|], p)
    ensures IsRun(states', events') && states'[0] == states[0]
    ensures var s, s' := states[|events|], states'[|events'|];
            && Shaped(s') && s'.master == s.master && s'.offset == s.offset && s'.acked == [p.offset]
            && s'.replicas == [p.(offset := p.offset + GETACK_BYTES)] && s'.replies == s.replies
            && s'.sent == s.sent + [GETACK] && Size(s'.sent) == Size(s.sent) + GETACK_BYTES
  {
    states', events' := AskAndAnswer(states, events, env, p);
    var answered := states'[|events'|];
    ReportNumber(answered, answered.replicas[0], p.offset);
    var reported := Reported(answered, 0, 1).value;
    Extend(states', events', Report(0, 1), reported);
    states', events' := states' + [reported], events' + [Report(0, 1)];
  }

  lemma {:induction false} SendOne(s: System, p: Replica, e: T.Event, bytes: nat)
    requires Shaped(s) && s.replicas == [p] && p.link == [] && e.client < |s.master.clients|
    requires IsWriteCmd(e.request.cmd) && |Print(e.request)| < PRINT_BUFFER && T.Handle(s.master, e).Next?
    ensures FromClient(s, e, bytes) ==
      Some(s.(master := T.Handle(s.master, e).server, offset := s.offset + bytes,
              replicas := [p.(link := [e.request])], sent := s.sent + [e.request]))
  {
    SentToOne(p, e.request);
  }

  lemma {:induction false} CountOneBehind(s: System)
    requires |s.acked| == 1 && s.acked[0] >= s.offset
    ensures Wait(s, 1) ==
      s.(captured := s.offset, capturedAt := |s.sent|, wanted := 1, replies := s.replies + [1])
  {
    CountOfOne(s.acked, s.offset);
  }

  lemma {:induction false} BehindByOne(s: System, req: Request)
    requires |s.replicas| == 1 && s.replicas[0].link == [req] && s.sent == [GETACK, GETACK, req] && s.capturedAt == 3
    requires !IsGetAck(req)
    ensures !HasApplied(s, 0)
  {
    forall n: nat | LinkAt(s, 0, n) ensures !HoldsCaptured(s, n) {
      assert |s.sent[n..]| == 1;
      assert s.sent[..2] == [GETACK, GETACK] && s.sent[..3] == [GETACK, GETACK] + [req];
      SizeSplits([GETACK, GETACK], [req]);
      assert [GETACK, GETACK][1..] == [GETACK] && [GETACK][1..] == [] && [req][1..] == [];
      assert Writes([GETACK, GETACK]) == [] && Writes([req]) == [req];
    }
  }

  // ----- a later WAIT miscounts -----

  /** The only replica has answered two GETACKs, and nothing else has happened. */
  ghost predicate TwiceAsked(s: System) {
    && Shaped(s) && s.offset == 0 && s.acked == [GETACK_BYTES] && s.replies == []
    && s.sent == [GETACK, GETACK] && Size(s.sent) == 2 * GETACK_BYTES
    && |s.replicas| == 1 && s.replicas[0].link == [] && s.replicas[0].acks == []
  }

  lemma {:induction false} AskTwice(s: System, env: nat -> Env) returns (states: seq<System>, events: seq<Event>)
    requires Start(s) && |s.replicas| == 1 && Unserved(env)
    ensures IsRun(states, events) && states[0] == s
    ensures TwiceAsked(states[|events|]) && states[|events|].master == s.master
  {
    states, events := AckRound([s], [], env, s.replicas[0]);
    var p := states[|events|].replicas[0];
    assert p.offset == GETACK_BYTES;
    states, events := AckRound(states, events, env, p);
    assert states[|events|].sent == [GETACK, GETACK];
  }

  /** The state after a write of a client. */
  ghost function AfterWrite(s: System, p: Replica, req: Request, next: T.Server): System {
    s.(master := next, offset := s.offset + |Print(req)|, replicas := [p.(link := [req])], sent := s.sent + [req])
  }

  lemma {:induction false} WriteReachesLink(s: System, p: Replica, e: T.Event, next: T.Server)
    requires Shaped(s) && s.replicas == [p] && p.link == [] && e.client < |s.master.clients| && T.Shaped(next)
    requires IsWriteCmd(e.request.cmd) && |Print(e.request)| < PRINT_BUFFER && T.Handle(s.master, e) == T.Next(next)
    ensures FromClient(s, e, |Print(e.request)|) == Some(AfterWrite(s, p, e.request, next))
    ensures Shaped(AfterWrite(s, p, e.request, next))
    ensures Size(AfterWrite(s, p, e.request, next).sent) == Size(s.sent) + |Print(e.request)|
  {
    SendOne(s, p, e, |Print(e.request)|);
    SizeSplits(s.sent, [e.request]);
    assert [e.request][1..] == [];
  }

  lemma {:induction false} WriteIsProper(e: T.Event)
    requires IsWriteCmd(e.request.cmd) && Fits(e.request) && Repeatable(e.request)
    ensures Proper(Client(e, |Print(e.request)|))
  {
    ReceivedFits(e.request);
  }

  lemma {:induction false} SendWrite(states: seq<System>, events: seq<Event>, e: T.Event, next: T.Server)
    returns (states': seq<System>, events': seq<Event>)
    requires IsRun(states, events) && e.client < |states[|events|].master.clients| && T.Shaped(next)
    requires IsWriteCmd(e.request.cmd) && Fits(e.request) && Repeatable(e.request) && |Print(e.request)| < PRINT_BUFFER
    requires T.Handle(states[|events|].master, e) == T.Next(next) && Size(states[|events|].sent) <= 1000
    requires |states[|events|].replicas| == 1 && states[|events|].replicas[0].link == []
    ensures IsRun(states', events') && states'[0] == states[0]
    ensures states'[|events'|] == AfterWrite(states[|events|], states[|events|].replicas[0], e.request, next)
    ensures Size(states'[|events'|].sent) == Size(states[|events|].sent) + |Print(e.request)|
    ensures Shaped(states'[|events'|])
  {
    var s, p := states[|events|], states[|events|].replicas[0];
    WriteReachesLink(s, p, e, next);
    WriteIsProper(e);
    Extend(states, events, Client(e, |Print(e.request)|), AfterWrite(s, p, e.request, next));
    states', events' := states + [AfterWrite(s, p, e.request, next)], events + [Client(e, |Print(e.request)|)];
  }

  /** After two WAITs that each made the only replica answer a GETACK, a WAIT for one replica
      counts it at once, although the write that it should have is still in flight. */
  lemma {:induction false} LaterWaitMiscounts(s: System, e: T.Event, env: nat -> Env)
    returns (states: seq<System>, events: seq<Event>)
    requires Start(s) && |s.replicas| == 1 && e.client < |s.master.clients| && T.Handle(s.master, e).Next?
    requires IsWriteCmd(e.request.cmd) && Fits(e.request) && Repeatable(e.request) && Unserved(env)
    requires |Print(e.request)| <= GETACK_BYTES
    ensures IsRun(states, events) && states[0] == s
    ensures var last := states[|events|];
            last.replies == [1] && last.captured == last.offset && !HasApplied(last, 0)
  {
    states, events := AskTwice(s, env);
    states, events := SendWrite(states, events, e, T.Handle(states[|events|].master, e).server);
    var behind := states[|events|];
    CountOneBehind(behind);
    Extend(states, events, WaitFor(1), Wait(behind, 1));
    states, events := states + [Wait(behind, 1)], events + [WaitFor(1)];
    BehindByOne(Wait(behind, 1), e.request);
  }

  // ----- a discarded transaction reaches the replicas -----

  lemma {:induction false} DiscardedTransaction(m: T.Server, c: nat, req: Request, env: nat -> Env)
    returns (multi: T.Server, queued: T.Server, discarded: T.Server)
    requires T.Shaped(m) && c < |m.clients| && !m.clients[c].queued && m.clients[c].watched == []
    requires !T.IsTransactionCmd(req.cmd)
    ensures T.Shaped(multi) && T.Shaped(queued) && T.Shaped(discarded)
    ensures |multi.clients| == |queued.clients| == |m.clients|
    ensures T.Handle(m, T.Event(c, Request(MULTI, []), env)) == T.Next(multi)
    ensures T.Handle(multi, T.Event(c, req, env)) == T.Next(queued)
    ensures T.Handle(queued, T.Event(c, Request(DISCARD, []), env)) == T.Next(discarded)
    ensures discarded.table == m.table
  {
    multi := T.Multi(m, c);
    queued := T.Handle(multi, T.Event(c, req, env)).server;
    discarded := T.Discard(queued, c).server;
  }

  lemma {:induction false} TakesWrite(p: Replica, item: Read, env: Env, q: Replica)
    requires |p.table| == TABLE_SIZE && !env.served
    requires IsWriteCmd(item.request.cmd) && Repeatable(item.request)
    requires Apply(p.table, item.request, PLAIN) == Done(q.table)
    requires q == p.(table := q.table, offset := p.offset + item.bytes)
    ensures Take(p, item, env) == Some(q)
  {
    RepeatableApplies(p.table, item.request, env, PLAIN);
  }

  /** A command that is not sent on: only the master moves. */
  lemma {:induction false} NotSent(states: seq<System>, events: seq<Event>, e: T.Event, next: T.Server)
    returns (states': seq<System>, events': seq<Event>)
    requires IsRun(states, events) && e.client < |states[|events|].master.clients| && T.Shaped(next)
    requires !IsWriteCmd(e.request.cmd) && T.Handle(states[|events|].master, e) == T.Next(next)
    ensures IsRun(states', events') && states'[0] == states[0]
    ensures states'[|events'|] == states[|events|].(master := next)
  {
    var s := states[|events|].(master := next);
    Extend(states, events, Client(e, 0), s);
    states', events' := states + [s], events + [Client(e, 0)];
  }

  /** MULTI, a write and DISCARD of one client. */
  lemma {:induction false} DiscardRun(s: System, c: nat, req: Request, env: nat -> Env)
    returns (states: seq<System>, events: seq<Event>)
    requires Start(s) && |s.replicas| == 1 && c < |s.master.clients|
    requires IsWriteCmd(req.cmd) && Fits(req) && Repeatable(req) && |Print(req)| < PRINT_BUFFER
    ensures IsRun(states, events) && states[0] == s
    ensures var last := states[|events|];
            last.master.table == EmptyTable() && last.replicas == [s.replicas[0].(link := [req])]
  {
    var multi, queued, discarded := DiscardedTransaction(s.master, c, req, env);
    states, events := NotSent([s], [], T.Event(c, Request(MULTI, []), env), multi);
    states, events := SendWrite(states, events, T.Event(c, req, env), queued);
    states, events := NotSent(states, events, T.Event(c, Request(DISCARD, []), env), discarded);
  }

  lemma {:induction false} DeliveredTaken(s: System, p: Replica, idle: Replica, req: Request, env: nat -> Env,
      item: Read, q: Replica)
    requires s.replicas == [p] && p.link == [req] && idle == p.(link := []) && |p.table| == |q.table| == TABLE_SIZE
    requires ReadLoop(PrintAll([req])) == Reads([item], false)
    requires Take(idle, item, env(0)) == Some(q)
    ensures Delivered(s, 0, 1, env) == Some(s.(replicas := [q]))
  {
    TakeAllOfOne(idle, [item], env, q);
    DeliveredOne(s, p, env, req, [item], q);
  }

  lemma {:induction false} DeliverWrite(states: seq<System>, events: seq<Event>, s: System, req: Request,
      env: nat -> Env, table: Keys)
    returns (states': seq<System>, events': seq<Event>)
    requires IsRun(states, events) && s == states[|events|] && |s.replicas| == 1 && s.replicas[0].link == [req]
    requires IsWriteCmd(req.cmd) && Fits(req) && Repeatable(req) && Unserved(env) && |table| == TABLE_SIZE
    requires |s.replicas[0].table| == TABLE_SIZE && Apply(s.replicas[0].table, req, PLAIN) == Done(table)
    ensures IsRun(states', events') && states'[0] == states[0]
    ensures var s' := states'[|events'|];
            s'.master == s.master && |s'.replicas| == 1 && s'.replicas[0].link == [] && s'.replicas[0].table == table
  {
    var p, bytes := s.replicas[0], |Print(req)|;
    var idle, item := p.(link := []), Read(req, bytes);
    var q := idle.(table := table, offset := p.offset + bytes);
    ReadOne(req);
    TakesWrite(idle, item, env(0), q);
    DeliveredTaken(s, p, idle, req, env, item, q);
    states', events' := DeliverOne(states, events, s, p, env, q);
  }

  /** A write that a client queues is sent at once. After MULTI, the write and DISCARD, the
      replica carries it out, and the master never does: the two keyspaces differ exactly when
      the write has an effect. */
  lemma {:induction false} DiscardedWriteIsReplicated(s: System, c: nat, req: Request, env: nat -> Env)
    returns (states: seq<System>, events: seq<Event>)
    requires Start(s) && |s.replicas| == 1 && c < |s.master.clients| && Unserved(env)
    requires IsWriteCmd(req.cmd) && Fits(req) && Repeatable(req) && |Print(req)| < PRINT_BUFFER
    requires Apply(EmptyTable(), req, PLAIN).Done?
    ensures IsRun(states, events) && states[0] == s
    ensures var last := states[|events|];
            && last.master.table == EmptyTable() && |last.replicas| == 1 && last.replicas[0].link == []
            && Done(last.replicas[0].table) == Apply(EmptyTable(), req, PLAIN)
            && (last.replicas[0].table != last.master.table <==> Effective(EmptyTable(), req, PLAIN))
  {
    states, events := DiscardRun(s, c, req, env);
    states, events := DeliverWrite(states, events, states[|events|], req, env, Apply(EmptyTable(), req, PLAIN).table);
    EffectiveIff(EmptyTable(), req, PLAIN);
  }
}
