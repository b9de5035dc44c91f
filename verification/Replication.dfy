/** A master and its replicas: the per-client loop and the WAIT step of main.c, GETACK, ACK and
    WAIT of utility_handler.c, over first-in first-out links that deliver whole messages. */
module Replication {
  import opened Seqs
  import opened CStrings
  import opened Commands
  import opened Resp
  import opened Tables
  import opened Keyspace
  import opened Replays
  import T = Transactions
  import I = Interleavings

  // ----- state -----

  /** A replica: the requests in flight to it, its keyspace, slave_repl_offset, and the offsets
      in the ACKs in flight to the master. In flight, requests are in their printed form. */
  datatype Replica = Replica(link: seq<Request>, table: Keys, offset: nat, acks: seq<nat>)

  /** The master: master_repl_offset, the repl_offset of each replica's connection, the WAIT
      in progress, and the counts that WAIT has replied. As history, it keeps all that it has
      sent down the links, and how much of that had been sent when the last WAIT began. */
  datatype System = System(master: T.Server, offset: nat, replicas: seq<Replica>, acked: seq<int>,
                           captured: nat, wanted: int, waiting: bool, replies: seq<nat>,
                           sent: seq<Request>, capturedAt: nat)

  /** replconf_handle_getack answers this request of handle_wait. */
  const GETACK := Request(REPLCONF, ["GETACK", "*"])

  function AckOf(offset: nat): Request { Request(REPLCONF, ["ACK", DecInt(offset)]) }

  predicate IsReplconf(req: Request, word: string) {
    req.cmd.REPLCONF? && req.args != [] && Upper(req.args[0]) == word
  }

  // ----- the master -----

  /** The buffer that pass_data_toReplica prints into. */
  const PRINT_BUFFER := 1024

  function SentTo(replicas: seq<Replica>, req: Request): (r: seq<Replica>)
    ensures |r| == |replicas|
    ensures forall i | 0 <= i < |r| :: r[i] == replicas[i].(link := replicas[i].link + [req])
  {
    seq(|replicas|, i requires 0 <= i < |replicas| => replicas[i].(link := replicas[i].link + [req]))
  }

  /** One request of a client that took `bytes` bytes on its connection. None: outside memory. */
  function FromClient(s: System, e: T.Event, bytes: nat): Option<System>
    requires T.Shaped(s.master) && e.client < |s.master.clients|
  {
    match T.Handle(s.master, e)
    case Crashed => None
    case Next(master) =>
      if !IsWriteCmd(e.request.cmd) then Some(s.(master := master))
      else if s.replicas != [] && |Print(e.request)| >= PRINT_BUFFER then None
      else
        Some(s.(master := master, offset := s.offset + bytes,
                replicas := SentTo(s.replicas, e.request), sent := s.sent + [e.request]))
  }

  /** The replicas whose last ACK reached the captured offset. */
  function Count(acked: seq<int>, captured: nat): nat {
    if acked == [] then 0 else (if acked[0] >= captured then 1 else 0) + Count(acked[1..], captured)
  }

  /** The replicas whose last ACK reached an offset. */
  ghost function Reached(acked: seq<int>, offset: int): set<int> {
    set r | 0 <= r < |acked| && acked[r] >= offset
  }

  lemma {:induction false} CountSplits(acked: seq<int>, last: int, offset: nat)
    ensures Count(acked + [last], offset) == Count(acked, offset) + if last >= offset then 1 else 0
  {
    if acked == [] {
      assert ([] + [last])[1..] == [];
    } else {
      assert (acked + [last])[1..] == acked[1..] + [last];
      CountSplits(acked[1..], last, offset);
    }
  }

  /** The count of the loop is the number of those replicas. */
  lemma {:induction false} CountIsSize(acked: seq<int>, offset: nat)
    ensures Count(acked, offset) == |Reached(acked, offset)|
  {
    if acked == [] {
      assert Reached(acked, offset) == {};
    } else {
      var n := |acked| - 1;
      var before := Reached(acked[..n], offset);
      assert acked == acked[..n] + [acked[n]];
      CountSplits(acked[..n], acked[n], offset);
      CountIsSize(acked[..n], offset);
      assert n !in before;
      assert Reached(acked, offset) == if acked[n] >= offset then before + {n} else before;
    }
  }

  /** handle_wait */
  function Wait(s: System, wanted: int): System {
    var begun := s.(captured := s.offset, capturedAt := |s.sent|, wanted := wanted);
    var count := Count(s.acked, s.offset);
    if count >= wanted then begun.(replies := s.replies + [count])
    else begun.(waiting := true, replicas := SentTo(s.replicas, GETACK), sent := s.sent + [GETACK])
  }

  /** The WAIT step of the event loop. */
  function Poll(s: System, timedOut: bool): System {
    var count := Count(s.acked, s.captured);
    if s.waiting && (count >= s.wanted || timedOut) then s.(waiting := false, replies := s.replies + [count])
    else s
  }

  /** replconf_handle_ack for all that one recv returned. */
  function Acknowledged(acked: int, items: seq<Read>): int
    decreases |items|
  {
    if items == [] then acked
    else
      var req := items[0].request;
      Acknowledged(if IsReplconf(req, "ACK") && |req.args| >= 2 then Atoi(req.args[1]) else acked, items[1..])
  }

  function AcksOf(offsets: seq<nat>): (r: seq<Request>) {
    if offsets == [] then [] else [AckOf(offsets[0])] + AcksOf(offsets[1..])
  }

  // ----- a replica -----

  /** One request from the master: a GETACK is answered with the offset before its own bytes. */
  function Take(p: Replica, item: Read, env: Env): (r: Option<Replica>)
    requires |p.table| == TABLE_SIZE
    ensures r.Some? ==> |r.value.table| == TABLE_SIZE
  {
    if IsReplconf(item.request, "GETACK") then
      Some(p.(acks := p.acks + [p.offset], offset := p.offset + item.bytes))
    else
      match Apply(p.table, item.request, env)
      case Crash => None
      case Done(table) => Some(p.(table := table, offset := p.offset + item.bytes))
  }

  function TakeAll(p: Replica, items: seq<Read>, env: nat -> Env, i: nat): (r: Option<Replica>)
    requires |p.table| == TABLE_SIZE
    ensures r.Some? ==> |r.value.table| == TABLE_SIZE
    decreases |items|
  {
    if items == [] then Some(p)
    else
      match Take(p, items[0], env(i))
      case None => None
      case Some(q) => TakeAll(q, items[1..], env, i + 1)
  }

  // ----- steps -----

  datatype Event =
    | Client(event: T.Event, bytes: nat)
    | WaitFor(wanted: int)
    | PollWait(timedOut: bool)
    | Deliver(replica: nat, count: nat, env: nat -> Env)
    | Report(replica: nat, count: nat)

  ghost predicate Shaped(s: System) {
    && T.Shaped(s.master) && |s.acked| == |s.replicas|
    && forall r | 0 <= r < |s.replicas| :: |s.replicas[r].table| == TABLE_SIZE
  }

  /** Deliver: a replica's recv returns the next messages of its link; Report: the master's recv
      returns the next ACKs of a replica. */
  ghost function Step(s: System, e: Event): Option<System>
    requires Shaped(s)
  {
    match e
    case Client(event, bytes) => if event.client < |s.master.clients| then FromClient(s, event, bytes) else None
    case WaitFor(wanted) => Some(Wait(s, wanted))
    case PollWait(timedOut) => Some(Poll(s, timedOut))
    case Deliver(r, k, env) => if r < |s.replicas| && k <= |s.replicas[r].link| then Delivered(s, r, k, env) else None
    case Report(r, k) => if r < |s.replicas| && k <= |s.replicas[r].acks| then Reported(s, r, k) else None
  }

  function Delivered(s: System, r: nat, k: nat, env: nat -> Env): Option<System>
    requires r < |s.replicas| && k <= |s.replicas[r].link| && |s.replicas[r].table| == TABLE_SIZE
  {
    var p := s.replicas[r];
    var input := ReadLoop(PrintAll(p.link[..k]));
    if input.fault then None
    else
      match TakeAll(p.(link := p.link[k..]), input.items, env, 0)
      case None => None
      case Some(q) => Some(s.(replicas := s.replicas[r := q]))
  }

  function Reported(s: System, r: nat, k: nat): Option<System>
    requires r < |s.replicas| == |s.acked| && k <= |s.replicas[r].acks|
  {
    var p := s.replicas[r];
    var input := ReadLoop(PrintAll(AcksOf(p.acks[..k])));
    if input.fault then None
    else
      Some(s.(acked := s.acked[r := Acknowledged(s.acked[r], input.items)],
              replicas := s.replicas[r := p.(acks := p.acks[k..])]))
  }

  // ----- bytes -----

  predicate IsGetAck(req: Request) { req == GETACK }

  function Size(reqs: seq<Request>): nat {
    if reqs == [] then 0 else |Print(reqs[0])| + Size(reqs[1..])
  }

  /** The requests other than GETACK. */
  function Writes(reqs: seq<Request>): seq<Request> {
    if reqs == [] then [] else (if IsGetAck(reqs[0]) then [] else [reqs[0]]) + Writes(reqs[1..])
  }

  function GetAcks(reqs: seq<Request>): nat {
    if reqs == [] then 0 else (if IsGetAck(reqs[0]) then 1 else 0) + GetAcks(reqs[1..])
  }

  const GETACK_BYTES := 37

  lemma {:induction false} GetAckWords()
    ensures Bulk("REPLCONF") == "$8\r\nREPLCONF\r\n"
    ensures Bulk("GETACK") == "$6\r\nGETACK\r\n"
    ensures Bulk("*") == "$1\r\n*\r\n"
  {
    assert Dec(8) == "8" && Dec(6) == "6" && Dec(1) == "1";
  }

  /** The bytes that handle_wait sends to each replica. */
  lemma {:induction false} GetAckBytes()
    ensures Print(GETACK) == "*3\r\n" + ("$8\r\nREPLCONF\r\n" + ("$6\r\nGETACK\r\n" + "$1\r\n*\r\n"))
    ensures |Print(GETACK)| == GETACK_BYTES
  {
    GetAckWords();
    BulkAllOfThree("REPLCONF", "GETACK", "*");
    var words := ["REPLCONF", "GETACK", "*"];
    assert [CmdToString(REPLCONF)] + GETACK.args == words;
    assert Dec(3) == "3" && "*" + "3" + CRLF == "*3\r\n";
    assert ArrayOf(words) == "*3\r\n" + BulkAll(words);
  }

  lemma {:induction false} SizeSplits(a: seq<Request>, b: seq<Request>)
    ensures Size(a + b) == Size(a) + Size(b)
    ensures Writes(a + b) == Writes(a) + Writes(b)
    ensures GetAcks(a + b) == GetAcks(a) + GetAcks(b)
  {
    if a == [] {
      assert a + b == b;
    } else {
      assert (a + b)[1..] == a[1..] + b;
      SizeSplits(a[1..], b);
      if IsGetAck(a[0]) {
        assert [] + (Writes(a[1..]) + Writes(b)) == [] + Writes(a[1..]) + Writes(b);
      } else {
        ConcatAssociates([a[0]], Writes(a[1..]), Writes(b));
      }
    }
  }

  /** The bytes of a stream: those of its writes, and 37 for each GETACK. */
  lemma {:induction false} SizeCountsGetAcks(reqs: seq<Request>)
    ensures Size(reqs) == Size(Writes(reqs)) + GETACK_BYTES * GetAcks(reqs)
  {
    if reqs != [] {
      GetAckBytes();
      SizeCountsGetAcks(reqs[1..]);
      if IsGetAck(reqs[0]) {
        assert [] + Writes(reqs[1..]) == Writes(reqs[1..]);
      } else {
        assert ([reqs[0]] + Writes(reqs[1..]))[1..] == Writes(reqs[1..]);
      }
    }
  }

  // ----- what a replica has of the stream -----

  /** The offset of an ACK: the bytes before some GETACK among the first n requests. */
  ghost predicate AckPoint(sent: seq<Request>, n: nat, v: int) {
    exists m | 0 <= m < n && m < |sent| && IsGetAck(sent[m]) :: v == Size(sent[..m])
  }

  /** The replica has handled the first n requests of the stream. */
  ghost predicate ReplicaAt(p: Replica, sent: seq<Request>, n: nat) {
    && n <= |sent|
    && p.offset == Size(sent[..n])
    && Fold(EmptyTable(), Writes(sent[..n])) == Done(p.table)
    && forall v | v in p.acks :: AckPoint(sent, n, v)
  }

  /** What the links carry: GETACKs, and repeatable writes that fit the parser's buffers. */
  ghost predicate Carried(sent: seq<Request>) {
    forall q | q in sent :: IsGetAck(q) || (IsWriteCmd(q.cmd) && Fits(q) && Repeatable(q))
  }

  lemma {:induction false} GetAckIsAsked()
    ensures IsReplconf(GETACK, "GETACK") && Fits(GETACK)
  {
    UpperOfPlainName("GETACK");
  }

  lemma {:induction false} UpperOfPlainName(s: string)
    requires PlainName(s)
    ensures Upper(s) == s
  {
  }

  lemma {:induction false} PrefixStep(sent: seq<Request>, n: nat)
    requires n < |sent|
    ensures Size(sent[..n + 1]) == Size(sent[..n]) + |Print(sent[n])|
    ensures Writes(sent[..n + 1]) == Writes(sent[..n]) + (if IsGetAck(sent[n]) then [] else [sent[n]])
    ensures GetAcks(sent[..n + 1]) == GetAcks(sent[..n]) + (if IsGetAck(sent[n]) then 1 else 0)
  {
    assert sent[..n + 1] == sent[..n] + [sent[n]];
    SizeSplits(sent[..n], [sent[n]]);
    assert [sent[n]][1..] == [];
  }

  /** Later ACK points of a growing stream. */
  lemma {:induction false} AckPointStays(sent: seq<Request>, n: nat, more: seq<Request>, n': nat, v: int)
    requires AckPoint(sent, n, v) && n <= n'
    ensures AckPoint(sent + more, n', v)
  {
    var m :| 0 <= m < n && m < |sent| && IsGetAck(sent[m]) && v == Size(sent[..m]);
    assert (sent + more)[..m] == sent[..m] && (sent + more)[m] == sent[m];
  }

  lemma {:induction false} TakeGetAck(p: Replica, sent: seq<Request>, n: nat, env: Env)
    requires ReplicaAt(p, sent, n) && |p.table| == TABLE_SIZE && n < |sent| && IsGetAck(sent[n])
    ensures var r := Take(p, Read(sent[n], |Print(sent[n])|), env);
            r.Some? && ReplicaAt(r.value, sent, n + 1) && r.value.link == p.link
  {
    var q := p.(acks := p.acks + [p.offset], offset := p.offset + |Print(sent[n])|);
    GetAckIsAsked();
    PrefixStep(sent, n);
    assert Writes(sent[..n]) + [] == Writes(sent[..n]);
    forall v | v in q.acks ensures AckPoint(sent, n + 1, v) {
      if v in p.acks {
        AckPointStays(sent, n, [], n + 1, v);
        assert sent + [] == sent;
      }
    }
  }

  lemma {:induction false} TakeWrite(p: Replica, sent: seq<Request>, n: nat, env: Env)
    requires ReplicaAt(p, sent, n) && |p.table| == TABLE_SIZE && n < |sent| && !env.served
    requires IsWriteCmd(sent[n].cmd) && Repeatable(sent[n])
    requires Take(p, Read(sent[n], |Print(sent[n])|), env).Some?
    ensures var q := Take(p, Read(sent[n], |Print(sent[n])|), env).value;
            ReplicaAt(q, sent, n + 1) && q.link == p.link
  {
    var q := Take(p, Read(sent[n], |Print(sent[n])|), env).value;
    PrefixStep(sent, n);
    RepeatableApplies(p.table, sent[n], env, PLAIN);
    FoldSplits(EmptyTable(), Writes(sent[..n]), [sent[n]]);
    FoldOne(p.table, sent[n]);
    forall v | v in q.acks ensures AckPoint(sent, n + 1, v) {
      AckPointStays(sent, n, [], n + 1, v);
      assert sent + [] == sent;
    }
  }

  lemma {:induction false} TakeOne(p: Replica, sent: seq<Request>, n: nat, env: Env)
    requires ReplicaAt(p, sent, n) && |p.table| == TABLE_SIZE && n < |sent| && !env.served && Carried(sent)
    requires Take(p, Read(ReadBack(sent[n]), |Print(sent[n])|), env).Some?
    ensures var q := Take(p, Read(ReadBack(sent[n]), |Print(sent[n])|), env).value;
            ReplicaAt(q, sent, n + 1) && q.link == p.link
  {
    assert sent[n] in sent;
    if IsGetAck(sent[n]) {
      GetAckIsAsked();
      TakeGetAck(p, sent, n, env);
    } else {
      TakeWrite(p, sent, n, env);
    }
  }

  lemma {:induction false} TakeAllSteps(p: Replica, items: seq<Read>, env: nat -> Env, i: nat)
    requires |p.table| == TABLE_SIZE && items != [] && TakeAll(p, items, env, i).Some?
    ensures Take(p, items[0], env(i)).Some?
    ensures TakeAll(p, items, env, i) == TakeAll(Take(p, items[0], env(i)).value, items[1..], env, i + 1)
  {
  }

  /** The message after the first n, and the others up to the end. */
  lemma {:induction false} ReadsAhead(sent: seq<Request>, n: nat, end: nat, items: seq<Read>)
    requires n < end <= |sent| && items == ReadBackAll(sent[n..end])
    ensures items != [] && items[0] == Read(ReadBack(sent[n]), |Print(sent[n])|)
    ensures items[1..] == ReadBackAll(sent[n + 1..end])
  {
    var reqs := sent[n..end];
    assert reqs[0] == sent[n] && reqs[1..] == sent[n + 1..end];
    FirstRead(reqs);
  }

  lemma {:induction false} TakeMany(p: Replica, sent: seq<Request>, n: nat, end: nat, items: seq<Read>,
      env: nat -> Env, i: nat)
    returns (q: Replica)
    requires ReplicaAt(p, sent, n) && |p.table| == TABLE_SIZE && n <= end <= |sent| && Unserved(env) && Carried(sent)
    requires items == ReadBackAll(sent[n..end]) && TakeAll(p, items, env, i).Some?
    ensures TakeAll(p, items, env, i) == Some(q)
    ensures ReplicaAt(q, sent, end) && q.link == p.link
    decreases end - n
  {
    if n == end {
      q := p;
    } else {
      ReadsAhead(sent, n, end, items);
      TakeAllSteps(p, items, env, i);
      TakeOne(p, sent, n, env(i));
      q := TakeMany(Take(p, items[0], env(i)).value, sent, n + 1, end, items[1..], env, i + 1);
    }
  }

  // ----- invariants -----

  /** Replica r has handled the first n requests sent, and the others are in flight to it; its
      last ACK, if any, reported an ACK point. */
  ghost predicate LinkAt(s: System, r: nat, n: nat) {
    && r < |s.replicas| == |s.acked| && n <= |s.sent|
    && s.replicas[r].link == s.sent[n..]
    && ReplicaAt(s.replicas[r], s.sent, n)
    && (s.acked[r] == 0 || AckPoint(s.sent, n, s.acked[r]))
  }

  /** The master's offset counts the bytes of all writes sent, and the captured offset those of
      the writes sent before the last WAIT. */
  ghost predicate MasterAt(s: System) {
    && Shaped(s) && Carried(s.sent)
    && s.offset == Size(Writes(s.sent))
    && s.capturedAt <= |s.sent| && s.captured == Size(Writes(s.sent[..s.capturedAt]))
  }

  /** A client's write came from the parser, in canonical form, and is repeatable; nobody is blocked
      on the replica that handles it. */
  ghost predicate Proper(e: Event) {
    match e
    case Client(event, bytes) =>
      IsWriteCmd(event.request.cmd) ==>
        bytes == |Print(event.request)| && Received(event.request) && Repeatable(event.request)
    case Deliver(r, k, env) => Unserved(env)
    case _ => true
  }

  lemma {:induction false} SentGrows(s: System, s': System, req: Request, r: nat, n: nat)
    requires LinkAt(s, r, n) && s'.sent == s.sent + [req] && s'.replicas == SentTo(s.replicas, req)
    requires s'.acked == s.acked
    ensures LinkAt(s', r, n)
  {
    assert s'.sent[..n] == s.sent[..n] && s'.sent[n..] == s.sent[n..] + [req];
    if s.acked[r] != 0 {
      AckPointStays(s.sent, n, [req], n, s.acked[r]);
    }
    forall v | v in s.replicas[r].acks ensures AckPoint(s'.sent, n, v) {
      AckPointStays(s.sent, n, [req], n, v);
    }
  }

  lemma {:induction false} WritesGrow(sent: seq<Request>, req: Request)
    ensures Size(Writes(sent + [req])) == Size(Writes(sent)) + (if IsGetAck(req) then 0 else |Print(req)|)
  {
    SizeSplits(sent, [req]);
    assert [req][1..] == [];
    if IsGetAck(req) {
      assert Writes(sent) + [] == Writes(sent);
    } else {
      assert Writes([req]) == [req];
      SizeSplits(Writes(sent), [req]);
    }
  }

  /** Sending one more request down every link. */
  lemma {:induction false} SendKeepsMaster(s: System, s': System, req: Request)
    requires MasterAt(s) && Shaped(s') && s'.sent == s.sent + [req] && Carried([req])
    requires s'.offset == s.offset + (if IsGetAck(req) then 0 else |Print(req)|)
    requires (s'.captured, s'.capturedAt) == (s.captured, s.capturedAt)
      || (s'.captured, s'.capturedAt) == (s.offset, |s.sent|)
    ensures MasterAt(s')
  {
    WritesGrow(s.sent, req);
    assert s'.sent[..s'.capturedAt] == s.sent[..s'.capturedAt];
    assert s.sent[..|s.sent|] == s.sent;
    forall q | q in s'.sent ensures q in s.sent || q in [req] {
    }
  }

  lemma {:induction false} ClientKeepsMaster(s: System, e: T.Event, bytes: nat)
    requires MasterAt(s) && Proper(Client(e, bytes)) && e.client < |s.master.clients| && FromClient(s, e, bytes).Some?
    ensures MasterAt(FromClient(s, e, bytes).value)
  {
    if IsWriteCmd(e.request.cmd) {
      ReceivedFits(e.request);
      SendKeepsMaster(s, FromClient(s, e, bytes).value, e.request);
    }
  }

  lemma {:induction false} WaitKeepsMaster(s: System, wanted: int)
    requires MasterAt(s)
    ensures MasterAt(Wait(s, wanted))
  {
    if Count(s.acked, s.offset) >= wanted {
      assert s.sent[..|s.sent|] == s.sent;
    } else {
      SendKeepsMaster(s, Wait(s, wanted), GETACK);
    }
  }

  lemma {:induction false} ClientKeepsLink(s: System, e: T.Event, bytes: nat, r: nat, n: nat)
    requires T.Shaped(s.master) && LinkAt(s, r, n) && e.client < |s.master.clients| && FromClient(s, e, bytes).Some?
    ensures LinkAt(FromClient(s, e, bytes).value, r, n)
  {
    if IsWriteCmd(e.request.cmd) {
      SentGrows(s, FromClient(s, e, bytes).value, e.request, r, n);
    }
  }

  lemma {:induction false} WaitKeepsLink(s: System, wanted: int, r: nat, n: nat)
    requires LinkAt(s, r, n)
    ensures LinkAt(Wait(s, wanted), r, n)
  {
    if Count(s.acked, s.offset) < wanted {
      SentGrows(s, Wait(s, wanted), GETACK, r, n);
    }
  }

  lemma {:induction false} CarriedFits(sent: seq<Request>)
    requires Carried(sent)
    ensures forall q | q in sent :: Fits(q)
  {
    GetAckIsAsked();
  }

  lemma {:induction false} LinkSlices(sent: seq<Request>, link: seq<Request>, n: nat, k: nat, end: nat)
    requires n <= |sent| && link == sent[n..] && k <= |link| && end == n + k
    ensures link[..k] == sent[n..end] && link[k..] == sent[end..]
  {
  }

  lemma {:induction false} ReadsSlice(sent: seq<Request>, n: nat, end: nat)
    requires Carried(sent) && n <= end <= |sent|
    ensures ReadLoop(PrintAll(sent[n..end])) == Reads(ReadBackAll(sent[n..end]), false)
  {
    CarriedFits(sent);
    assert forall q | q in sent[n..end] :: q in sent;
    ReadLoopInvertsPrintAll(sent[n..end]);
  }

  /** What a replica reads when k messages of its link arrive. */
  lemma {:induction false} DeliveredInput(s: System, r: nat, n: nat, k: nat, end: nat, items: seq<Read>)
    requires LinkAt(s, r, n) && Carried(s.sent) && k <= |s.replicas[r].link|
    requires end == n + k && items == ReadBackAll(s.sent[n..end])
    ensures ReadLoop(PrintAll(s.replicas[r].link[..k])) == Reads(items, false)
    ensures s.replicas[r].link[k..] == s.sent[end..]
  {
    LinkSlices(s.sent, s.replicas[r].link, n, k, end);
    ReadsSlice(s.sent, n, end);
  }

  lemma {:induction false} DeliveredTo(s: System, r: nat, k: nat, env: nat -> Env, idle: Replica, items: seq<Read>)
    requires r < |s.replicas| && k <= |s.replicas[r].link| && |s.replicas[r].table| == TABLE_SIZE
    requires idle == s.replicas[r].(link := s.replicas[r].link[k..]) && Delivered(s, r, k, env).Some?
    requires ReadLoop(PrintAll(s.replicas[r].link[..k])) == Reads(items, false)
    ensures TakeAll(idle, items, env, 0).Some?
    ensures Delivered(s, r, k, env).value == s.(replicas := s.replicas[r := TakeAll(idle, items, env, 0).value])
  {
  }

  lemma {:induction false} LinkOfDelivered(s: System, s': System, r: nat, n: nat, end: nat, q: Replica)
    requires LinkAt(s, r, n) && n <= end <= |s.sent| && ReplicaAt(q, s.sent, end) && q.link == s.sent[end..]
    requires s' == s.(replicas := s.replicas[r := q])
    ensures LinkAt(s', r, end)
  {
    if s.acked[r] != 0 {
      AckPointStays(s.sent, n, [], end, s.acked[r]);
      assert s.sent + [] == s.sent;
    }
  }

  lemma {:induction false} TakenLink(s: System, r: nat, n: nat, end: nat, idle: Replica, items: seq<Read>,
      env: nat -> Env, q: Replica)
    requires LinkAt(s, r, n) && n <= end <= |s.sent| && Carried(s.sent) && Unserved(env) && |idle.table| == TABLE_SIZE
    requires idle == s.replicas[r].(link := s.sent[end..]) && items == ReadBackAll(s.sent[n..end])
    requires TakeAll(idle, items, env, 0) == Some(q)
    ensures LinkAt(s.(replicas := s.replicas[r := q]), r, end)
  {
    var taken := TakeMany(idle, s.sent, n, end, items, env, 0);
    LinkOfDelivered(s, s.(replicas := s.replicas[r := q]), r, n, end, q);
  }

  lemma {:induction false} DeliverKeepsLink(s: System, r: nat, n: nat, k: nat, end: nat, env: nat -> Env)
    requires LinkAt(s, r, n) && Carried(s.sent) && k <= |s.replicas[r].link| && Unserved(env) && end == n + k
    requires |s.replicas[r].table| == TABLE_SIZE && Delivered(s, r, k, env).Some?
    ensures LinkAt(Delivered(s, r, k, env).value, r, end)
  {
    var items := ReadBackAll(s.sent[n..end]);
    var idle := s.replicas[r].(link := s.replicas[r].link[k..]);
    DeliveredInput(s, r, n, k, end, items);
    DeliveredTo(s, r, k, env, idle, items);
    TakenLink(s, r, n, end, idle, items, env, TakeAll(idle, items, env, 0).value);
  }

  // ----- acknowledgements -----

  /** The largest offset of a long long. */
  const LLONG_MAX := 0x7FFF_FFFF_FFFF_FFFF

  lemma {:induction false} AckFits(v: nat)
    requires v <= LLONG_MAX
    ensures Fits(AckOf(v)) && ReadBack(AckOf(v)) == AckOf(v)
  {
    assert Pow10(5) == 100_000 && Pow10(10) == 100_000 * Pow10(5);
    assert Pow10(15) == 100_000 * Pow10(10) && Pow10(19) == 10_000 * Pow10(15);
    DecLength(v, 19, Pow10(19));
  }

  lemma {:induction false} AckIsUnderstood(v: nat)
    ensures IsReplconf(AckOf(v), "ACK") && |AckOf(v).args| >= 2 && Atoi(AckOf(v).args[1]) == v
  {
    UpperOfPlainName("ACK");
    AtoiOfDecInt(v);
  }

  /** The last of the ACKs counts. */
  lemma {:induction false} AcknowledgedIsLast(acked: int, offsets: seq<nat>)
    requires forall v | v in offsets :: v <= LLONG_MAX
    ensures Acknowledged(acked, ReadBackAll(AcksOf(offsets))) ==
      if offsets == [] then acked else offsets[|offsets| - 1]
    decreases |offsets|
  {
    if offsets != [] {
      assert offsets[0] in offsets && forall v | v in offsets[1..] :: v in offsets;
      var more := AcksOf(offsets[1..]);
      assert ([AckOf(offsets[0])] + more)[1..] == more;
      FirstRead(AcksOf(offsets));
      AckFits(offsets[0]);
      AckIsUnderstood(offsets[0]);
      AcknowledgedIsLast(offsets[0], offsets[1..]);
    }
  }

  lemma {:induction false} AcksFit(offsets: seq<nat>)
    requires forall v | v in offsets :: v <= LLONG_MAX
    ensures forall q | q in AcksOf(offsets) :: Fits(q)
    decreases |offsets|
  {
    if offsets != [] {
      assert offsets[0] in offsets && forall v | v in offsets[1..] :: v in offsets;
      AckFits(offsets[0]);
      AcksFit(offsets[1..]);
    }
  }

  lemma {:induction false} SizeGrows(a: seq<Request>, b: seq<Request>)
    ensures Size(a) <= Size(a + b)
  {
    SizeSplits(a, b);
  }

  lemma {:induction false} SizeOfPrefix(sent: seq<Request>, m: nat)
    requires m <= |sent|
    ensures Size(sent[..m]) <= Size(sent)
  {
    assert sent[..m] + sent[m..] == sent;
    SizeGrows(sent[..m], sent[m..]);
  }

  lemma {:induction false} AckPointIsBounded(sent: seq<Request>, n: nat, v: int)
    requires AckPoint(sent, n, v) && Size(sent) <= LLONG_MAX
    ensures v <= LLONG_MAX
  {
    var m :| 0 <= m < n && m < |sent| && IsGetAck(sent[m]) && v == Size(sent[..m]);
    SizeOfPrefix(sent, m);
  }

  lemma {:induction false} ReportKeepsLink(s: System, r: nat, n: nat, k: nat)
    requires LinkAt(s, r, n) && k <= |s.replicas[r].acks| && Size(s.sent) <= LLONG_MAX && Reported(s, r, k).Some?
    ensures LinkAt(Reported(s, r, k).value, r, n)
  {
    var offsets := s.replicas[r].acks[..k];
    forall v | v in offsets ensures v <= LLONG_MAX && AckPoint(s.sent, n, v) {
      assert v in s.replicas[r].acks;
      AckPointIsBounded(s.sent, n, v);
    }
    AcksFit(offsets);
    ReadLoopInvertsPrintAll(AcksOf(offsets));
    AcknowledgedIsLast(s.acked[r], offsets);
    if k > 0 {
      assert offsets[k - 1] in offsets;
    }
  }

  // ----- runs -----

  /** Replicas attached at offset 0, to a master that has just started. */
  ghost predicate Start(s: System) {
    && Shaped(s) && I.Fresh(s.master) && s.master.table == EmptyTable()
    && s.offset == 0 && s.sent == [] && s.captured == 0 && s.capturedAt == 0 && !s.waiting && s.replies == []
    && forall r | 0 <= r < |s.replicas| :: s.replicas[r] == Replica([], EmptyTable(), 0, []) && s.acked[r] == 0
  }

  ghost predicate IsRun(states: seq<System>, events: seq<Event>) {
    && |states| == |events| + 1 && Start(states[0])
    && (forall i | 0 <= i <= |events| :: Shaped(states[i]) && Size(states[i].sent) <= LLONG_MAX)
    && (forall i | 0 <= i < |events| :: Proper(events[i]) && Step(states[i], events[i]) == Some(states[i + 1]))
  }

  lemma {:induction false} AtStep(states: seq<System>, events: seq<Event>, i: nat)
    requires IsRun(states, events) && i < |events|
    ensures Shaped(states[i]) && Size(states[i].sent) <= LLONG_MAX && Proper(events[i])
    ensures Step(states[i], events[i]) == Some(states[i + 1])
  {
  }

  /** Replica r is attached: it has handled some prefix of the stream. */
  ghost predicate Attached(s: System, r: nat) { exists n: nat :: LinkAt(s, r, n) }

  lemma {:induction false} ClientStep(s: System, e: Event, r: nat)
    requires MasterAt(s) && Attached(s, r) && Proper(e) && e.Client? && Step(s, e).Some?
    ensures MasterAt(Step(s, e).value) && Attached(Step(s, e).value, r)
  {
    var n: nat :| LinkAt(s, r, n);
    var s' := FromClient(s, e.event, e.bytes).value;
    ClientKeepsMaster(s, e.event, e.bytes);
    ClientKeepsLink(s, e.event, e.bytes, r, n);
    assert LinkAt(s', r, n);
  }

  lemma {:induction false} WaitStep(s: System, e: Event, r: nat)
    requires MasterAt(s) && Attached(s, r) && (e.WaitFor? || e.PollWait?)
    ensures MasterAt(Step(s, e).value) && Attached(Step(s, e).value, r)
  {
    var n: nat :| LinkAt(s, r, n);
    if e.WaitFor? {
      WaitKeepsMaster(s, e.wanted);
      WaitKeepsLink(s, e.wanted, r, n);
    }
    assert LinkAt(Step(s, e).value, r, n);
  }

  lemma {:induction false} OtherLink(s: System, s': System, r: nat, n: nat)
    requires LinkAt(s, r, n) && s'.sent == s.sent && |s'.acked| == |s'.replicas| == |s.replicas|
    requires s'.replicas[r] == s.replicas[r] && s'.acked[r] == s.acked[r]
    ensures LinkAt(s', r, n)
  {
  }

  lemma {:induction false} DeliverToOther(s: System, e: Event, r: nat, n: nat)
    requires MasterAt(s) && LinkAt(s, r, n) && e.Deliver? && Step(s, e).Some? && e.replica != r
    ensures LinkAt(Step(s, e).value, r, n)
  {
    OtherLink(s, Step(s, e).value, r, n);
  }

  lemma {:induction false} DeliverKeepsMaster(s: System, e: Event)
    requires MasterAt(s) && e.Deliver? && Step(s, e).Some?
    ensures MasterAt(Step(s, e).value)
  {
  }

  lemma {:induction false} DeliverIsStep(s: System, e: Event)
    requires Shaped(s) && e.Deliver? && Step(s, e).Some?
    ensures e.replica < |s.replicas| && e.count <= |s.replicas[e.replica].link|
    ensures Step(s, e) == Delivered(s, e.replica, e.count, e.env)
  {
  }

  lemma {:induction false} DeliverToOne(s: System, e: Event, n: nat)
    requires MasterAt(s) && e.Deliver? && LinkAt(s, e.replica, n) && Proper(e) && Step(s, e).Some?
    ensures Attached(Step(s, e).value, e.replica)
  {
    DeliverIsStep(s, e);
    DeliverKeepsLink(s, e.replica, n, e.count, n + e.count, e.env);
  }

  lemma {:induction false} DeliverStep(s: System, e: Event, r: nat)
    requires MasterAt(s) && Attached(s, r) && Proper(e) && e.Deliver? && Step(s, e).Some?
    ensures MasterAt(Step(s, e).value) && Attached(Step(s, e).value, r)
  {
    var n: nat :| LinkAt(s, r, n);
    DeliverKeepsMaster(s, e);
    if e.replica == r {
      DeliverToOne(s, e, n);
    } else {
      DeliverToOther(s, e, r, n);
    }
  }

  lemma {:induction false} ReportKeepsMaster(s: System, e: Event)
    requires MasterAt(s) && e.Report? && Step(s, e).Some?
    ensures MasterAt(Step(s, e).value)
  {
  }

  lemma {:induction false} ReportToOther(s: System, e: Event, r: nat, n: nat)
    requires MasterAt(s) && LinkAt(s, r, n) && e.Report? && Step(s, e).Some? && e.replica != r
    ensures LinkAt(Step(s, e).value, r, n)
  {
    OtherLink(s, Step(s, e).value, r, n);
  }

  lemma {:induction false} ReportStep(s: System, e: Event, r: nat)
    requires MasterAt(s) && Attached(s, r) && e.Report? && Step(s, e).Some? && Size(s.sent) <= LLONG_MAX
    ensures MasterAt(Step(s, e).value) && Attached(Step(s, e).value, r)
  {
    var n: nat :| LinkAt(s, r, n);
    ReportKeepsMaster(s, e);
    if e.replica == r {
      ReportKeepsLink(s, r, n, e.count);
      assert LinkAt(Step(s, e).value, r, n);
    } else {
      ReportToOther(s, e, r, n);
    }
  }

  lemma {:induction false} StepKeeps(s: System, e: Event, r: nat)
    requires MasterAt(s) && Attached(s, r) && Proper(e) && Step(s, e).Some? && Size(s.sent) <= LLONG_MAX
    ensures MasterAt(Step(s, e).value) && Attached(Step(s, e).value, r)
  {
    if e.Client? {
      ClientStep(s, e, r);
    } else if e.Deliver? {
      DeliverStep(s, e, r);
    } else if e.Report? {
      ReportStep(s, e, r);
    } else {
      WaitStep(s, e, r);
    }
  }

  lemma {:induction false} RunStepKeeps(states: seq<System>, events: seq<Event>, i: nat, r: nat)
    requires IsRun(states, events) && i < |events| && MasterAt(states[i]) && Attached(states[i], r)
    ensures MasterAt(states[i + 1]) && Attached(states[i + 1], r)
  {
    AtStep(states, events, i);
    StepKeeps(states[i], events[i], r);
  }

  lemma {:induction false} StartIsAttached(s: System, r: nat)
    requires Start(s) && r < |s.replicas|
    ensures MasterAt(s) && Attached(s, r)
  {
    assert LinkAt(s, r, 0);
  }

  lemma {:induction false} AttachedAlways(states: seq<System>, events: seq<Event>, i: nat, r: nat)
    requires IsRun(states, events) && i <= |events| && r < |states[0].replicas|
    ensures MasterAt(states[i]) && Attached(states[i], r)
  {
    var holds := (s: System) => MasterAt(s) && Attached(s, r);
    StartIsAttached(states[0], r);
    forall k | 0 <= k < i && holds(states[k]) ensures holds(states[k + 1]) {
      RunStepKeeps(states, events, k, r);
    }
    Carries(states, holds, 0, i);
  }

  lemma {:induction false} StepKeepsReplicas(s: System, e: Event)
    requires Shaped(s) && Step(s, e).Some?
    ensures |Step(s, e).value.replicas| == |s.replicas|
  {
  }

  lemma {:induction false} ReplicasStay(states: seq<System>, events: seq<Event>, i: nat)
    requires IsRun(states, events) && i <= |events|
    ensures |states[i].replicas| == |states[i].acked| == |states[0].replicas|
  {
    var holds := (s: System) => |s.replicas| == |states[0].replicas|;
    forall k | 0 <= k < i && holds(states[k]) ensures holds(states[k + 1]) {
      AtStep(states, events, k);
      StepKeepsReplicas(states[k], events[k]);
    }
    Carries(states, holds, 0, i);
  }

  lemma {:induction false} OffsetOf(s: System, r: nat, n: nat)
    requires LinkAt(s, r, n)
    ensures s.replicas[r].offset == Size(Writes(s.sent[..n])) + GETACK_BYTES * GetAcks(s.sent[..n])
  {
    SizeCountsGetAcks(s.sent[..n]);
  }

  /** In every reachable state each replica's keyspace is the fold of a prefix of the master's
      stream of writes, its offset is the bytes of those writes and 37 for each GETACK handled,
      and every ACK, in flight or received, reports the offset before its own GETACK. */
  lemma {:induction false} PrefixAlways(states: seq<System>, events: seq<Event>, i: nat, r: nat) returns (n: nat)
    requires IsRun(states, events) && i <= |events| && r < |states[0].replicas|
    ensures MasterAt(states[i]) && LinkAt(states[i], r, n)
    ensures states[i].replicas[r].offset ==
      Size(Writes(states[i].sent[..n])) + GETACK_BYTES * GetAcks(states[i].sent[..n])
  {
    AttachedAlways(states, events, i, r);
    n :| LinkAt(states[i], r, n);
    OffsetOf(states[i], r, n);
  }
}
