/** The append-only file: what write_to_file records, and what the replay loop of main.c makes
    of it. */
module Aof {
  import opened Commands
  import opened Resp
  import opened Tables
  import opened Effects
  import opened Keyspace
  import opened Replays
  import T = Transactions
  import I = Interleavings

  function Log(h: seq<Issued>): string { PrintAll(LoggedOf(h)) }

  // ----- replay -----

  /** The replay loop over the whole file. */
  function Replay(t: Keys, text: string, env: nat -> Env): (r: Effect)
    requires |t| == TABLE_SIZE
    ensures r.Done? ==> |r.table| == TABLE_SIZE
  {
    var input := ReadLoop(text);
    if input.fault then Crash else HandleAll(t, input.items, env, 0)
  }

  /** What logged requests are read back as: ZADD, ZREM and GEOADD come back UNKNOWN. */
  function ReadBacks(reqs: seq<Request>): seq<Request> {
    if reqs == [] then [] else [ReadBack(reqs[0])] + ReadBacks(reqs[1..])
  }

  lemma {:induction false} HandleAllIsFold(t: Keys, reqs: seq<Request>, env: nat -> Env, i: nat)
    requires |t| == TABLE_SIZE && Unserved(env) && forall r | r in reqs :: Repeatable(ReadBack(r))
    ensures HandleAll(t, ReadBackAll(reqs), env, i) == Fold(t, ReadBacks(reqs))
    decreases |reqs|
  {
    if reqs != [] {
      assert reqs[0] in reqs && forall r | r in reqs[1..] :: r in reqs;
      RepeatableApplies(t, ReadBack(reqs[0]), env(i), PLAIN);
      var r := Apply(t, ReadBack(reqs[0]), PLAIN);
      if r.Done? {
        HandleAllIsFold(r.table, reqs[1..], env, i + 1);
      }
    }
  }

  /** Every logged request of the history fits the parser's buffers and reads back repeatable. */
  ghost predicate Readable(h: seq<Issued>) {
    forall c | c in h && Logged(c.request.cmd) :: Fits(c.request) && Repeatable(ReadBack(c.request))
  }

  lemma {:induction false} LoggedAreReadable(h: seq<Issued>)
    requires Readable(h)
    ensures forall r | r in LoggedOf(h) :: Fits(r) && Repeatable(ReadBack(r))
  {
    if h != [] {
      assert h[0] in h && forall c | c in h[1..] :: c in h;
      LoggedAreReadable(h[1..]);
    }
  }

  lemma {:induction false} ReplayOfPrinted(t: Keys, reqs: seq<Request>, env: nat -> Env)
    requires |t| == TABLE_SIZE && Unserved(env) && forall r | r in reqs :: Fits(r) && Repeatable(ReadBack(r))
    ensures Replay(t, PrintAll(reqs), env) == Fold(t, ReadBacks(reqs))
  {
    ReadLoopInvertsPrintAll(reqs);
    HandleAllIsFold(t, reqs, env, 0);
  }

  /** What replaying the file does, for every history: it carries out the logged requests in
      order, but for ZADD, ZREM and GEOADD, which are lost. */
  lemma {:induction false} ReplayOfLog(t: Keys, h: seq<Issued>, env: nat -> Env)
    requires |t| == TABLE_SIZE && Readable(h) && Unserved(env)
    ensures Replay(t, Log(h), env) == Fold(t, ReadBacks(LoggedOf(h)))
  {
    LoggedAreReadable(h);
    ReplayOfPrinted(t, LoggedOf(h), env);
  }

  lemma {:induction false} FaithfulReadsBack(c: Issued)
    requires Faithful(c.request, c.env)
    ensures ReadBack(c.request) == c.request && (Changes(c.request.cmd) ==> Logged(c.request.cmd))
  {
  }

  lemma {:induction false} LoggedStep(c: Issued, more: seq<Issued>)
    ensures Logged(c.request.cmd) ==>
      ReadBacks(LoggedOf([c] + more)) == [ReadBack(c.request)] + ReadBacks(LoggedOf(more))
    ensures !Logged(c.request.cmd) ==> LoggedOf([c] + more) == LoggedOf(more)
  {
    assert ([c] + more)[1..] == more;
    var rest := LoggedOf(more);
    assert ([c.request] + rest)[1..] == rest;
    assert [] + rest == rest;
  }

  /** The commands that are logged as UNKNOWN. */
  predicate LoggedNameless(cmd: Cmd) { cmd.ZADD? || cmd.ZREM? || cmd.GEOADD? }

  /** The history without the commands that are logged as UNKNOWN. */
  function Named(h: seq<Issued>): seq<Issued> {
    if h == [] then [] else (if LoggedNameless(h[0].request.cmd) then [] else [h[0]]) + Named(h[1..])
  }

  lemma {:induction false} NamelessStep(t: Keys, c: Issued, more: seq<Issued>)
    requires |t| == TABLE_SIZE && LoggedNameless(c.request.cmd)
    ensures Fold(t, ReadBacks(LoggedOf([c] + more))) == Fold(t, ReadBacks(LoggedOf(more)))
  {
    LoggedStep(c, more);
    OthersKeep(t, ReadBack(c.request), PLAIN);
    FoldFirst(t, ReadBack(c.request), ReadBacks(LoggedOf(more)), Done(t));
  }

  lemma {:induction false} NamedStep(t: Keys, c: Issued, more: seq<Issued>, r: Effect)
    requires |t| == TABLE_SIZE && Faithful(c.request, c.env) && r.Done? && Apply(t, c.request, c.env) == r
    ensures Fold(t, ReadBacks(LoggedOf([c] + more))) == Fold(r.table, ReadBacks(LoggedOf(more)))
  {
    LoggedStep(c, more);
    FaithfulReadsBack(c);
    if Logged(c.request.cmd) {
      FaithfulApplies(t, c.request, c.env);
      FoldFirst(t, c.request, ReadBacks(LoggedOf(more)), r);
    } else {
      OthersKeep(t, c.request, c.env);
    }
  }

  /** Every command is faithful, or one that is logged as UNKNOWN. */
  ghost predicate FaithfulButNameless(h: seq<Issued>) {
    forall c | c in h :: LoggedNameless(c.request.cmd) || Faithful(c.request, c.env)
  }

  /** The logged part of a history leaves what the history without ZADD, ZREM and GEOADD does. */
  lemma {:induction false} LoggedHistory(t: Keys, h: seq<Issued>)
    requires |t| == TABLE_SIZE && FaithfulButNameless(h) && ApplyAll(t, Named(h)).Done?
    ensures Fold(t, ReadBacks(LoggedOf(h))) == ApplyAll(t, Named(h))
    decreases |h|
  {
    if h != [] {
      var c, more := h[0], h[1..];
      assert c in h && h == [c] + more && forall d | d in more :: d in h;
      if LoggedNameless(c.request.cmd) {
        assert Named(h) == Named(more);
        LoggedHistory(t, more);
        NamelessStep(t, c, more);
      } else {
        assert ([c] + Named(more))[1..] == Named(more);
        var r := Apply(t, c.request, c.env);
        LoggedHistory(r.table, more);
        NamedStep(t, c, more, r);
      }
    }
  }

  /** Replay leaves the keyspace of the history without its ZADD, ZREM and GEOADD commands. */
  lemma {:induction false} ReplayLeaves(t: Keys, h: seq<Issued>, env: nat -> Env)
    requires |t| == TABLE_SIZE && Readable(h) && Unserved(env)
    requires FaithfulButNameless(h) && ApplyAll(t, Named(h)).Done?
    ensures Replay(t, Log(h), env) == ApplyAll(t, Named(h))
  {
    ReplayOfLog(t, h, env);
    LoggedHistory(t, h);
  }

  lemma {:induction false} NothingNameless(h: seq<Issued>)
    requires forall c | c in h :: !LoggedNameless(c.request.cmd)
    ensures Named(h) == h
  {
    if h != [] {
      assert h[0] in h && forall c | c in h[1..] :: c in h;
      NothingNameless(h[1..]);
    }
  }

  lemma {:induction false} OneNameless(c: Issued, t: Keys)
    requires LoggedNameless(c.request.cmd) && Fits(c.request) && |t| == TABLE_SIZE
    ensures Named([c]) == [] && Readable([c]) && FaithfulButNameless([c])
    ensures ApplyAll(t, [c]) == Apply(t, c.request, c.env)
  {
    assert [c][1..] == [];
  }

  lemma {:induction false} ZAddCreates(key: Key, score: string, member: string, env: Env)
    ensures var r := Apply(EmptyTable(), Request(ZADD, [key, score, member]), env);
            r.Done? && GetEntry(r.table, key).Some?
  {
    var t: Keys := EmptyTable();
    var req := Request(ZADD, [key, score, member]);
    assert GetEntry(t, key) == None;
    var action := Decide(None, req, env);
    assert action.Create?;
    assert Edited([], key, action) == [Entry(key, action.value, 0)];
    FindIs([Entry(key, action.value, 0)], key, 0);
  }

  /** A sorted set is not rebuilt: after a ZADD to an empty keyspace, replay leaves it empty. */
  lemma {:induction false} ZAddIsNotRebuilt(key: Key, score: string, member: string, atWrite: Env, env: nat -> Env)
    requires ShortWord(key) && ShortWord(score) && ShortWord(member) && Unserved(env)
    ensures var h := [Issued(Request(ZADD, [key, score, member]), atWrite)];
            && ApplyAll(EmptyTable(), h).Done? && GetEntry(ApplyAll(EmptyTable(), h).table, key).Some?
            && Replay(EmptyTable(), Log(h), env) == Done(EmptyTable())
  {
    ZAddCreates(key, score, member, atWrite);
    OneNameless(Issued(Request(ZADD, [key, score, member]), atWrite), EmptyTable());
    ReplayLeaves(EmptyTable(), [Issued(Request(ZADD, [key, score, member]), atWrite)], env);
  }

  // ----- when replay rebuilds -----

  /** Every logged request of the history fits the parser's buffers. */
  ghost predicate Fitting(h: seq<Issued>) { forall c | c in h && Logged(c.request.cmd) :: Fits(c.request) }

  lemma {:induction false} LoggedFit(h: seq<Issued>)
    requires Fitting(h)
    ensures forall r | r in LoggedOf(h) :: Fits(r)
  {
    if h != [] {
      assert h[0] in h && forall c | c in h[1..] :: c in h;
      LoggedFit(h[1..]);
    }
  }

  lemma {:induction false} ReplayHandles(t: Keys, h: seq<Issued>, env: nat -> Env)
    requires |t| == TABLE_SIZE && Fitting(h)
    ensures Replay(t, Log(h), env) == HandleAll(t, ReadBackAll(LoggedOf(h)), env, 0)
  {
    LoggedFit(h);
    ReadLoopInvertsPrintAll(LoggedOf(h));
  }

  lemma {:induction false} LogIsRecording()
    ensures Records(Logged)
  {
  }

  lemma {:induction false} LoggedOneMore(h: seq<Issued>, c: Issued)
    ensures LoggedOf(h + [c]) == LoggedOf(h) + (if Logged(c.request.cmd) then [c.request] else [])
  {
    LoggedOfBoth(h, [c]);
    assert [c][1..] == [];
  }

  lemma {:induction false} HandleLast(start: Keys, items: seq<Read>, last: seq<Read>, t: Keys, env: nat -> Env, n: nat)
    requires |start| == |t| == TABLE_SIZE && HandleAll(start, items, env, 0) == Done(t) && n == |items| && |last| == 1
    ensures HandleAll(start, items + last, env, 0) == Apply(t, last[0].request, env(n))
  {
    HandleAllSplits(start, items, last, env, 0);
    HandleOne(t, last, env, n);
  }

  /** The replay of one command more, after the records that left a table. */
  lemma {:induction false} HandleOneMore(start: Keys, reqs: seq<Request>, t: Keys, req: Request, env: nat -> Env)
    requires |start| == |t| == TABLE_SIZE && HandleAll(start, ReadBackAll(reqs), env, 0) == Done(t)
    ensures HandleAll(start, ReadBackAll(reqs + [req]), env, 0) == Apply(t, ReadBack(req), env(|reqs|))
  {
    ReadBackAllSplits(reqs, [req]);
    FirstRead([req]);
    ReadBackAllSplits([req], []);
    HandleLast(start, ReadBackAll(reqs), ReadBackAll([req]), t, env, |reqs|);
  }

  lemma {:induction false} ReplayOneMore(start: Keys, h: seq<Issued>, t: Keys, c: Issued, env: nat -> Env)
    requires |start| == |t| == TABLE_SIZE && Fitting(h + [c]) && Unserved(env)
    requires Replay(start, Log(h), env) == Done(t) && Apply(t, c.request, c.env).Done?
    ensures Replay(start, Log(h + [c]), env) == CarriedOut(t, c.request, env(|LoggedOf(h)|))
  {
    assert forall d | d in h :: d in h + [c];
    ReplayHandles(start, h, env);
    ReplayHandles(start, h + [c], env);
    LoggedOneMore(h, c);
    LogIsRecording();
    RecordCarriedOut(t, c, Logged, env(|LoggedOf(h)|));
    if Logged(c.request.cmd) {
      HandleOneMore(start, LoggedOf(h), t, c.request, env);
    } else {
      assert LoggedOf(h) + [] == LoggedOf(h);
    }
  }

  /** When replay fails: after a history that replay rebuilds, it rebuilds one command more exactly
      when that command repeats. It does not if the command is a ZADD, ZREM, GEOADD, BLPOP or
      GEOSEARCH with an effect, an RPUSH that served a client, a SET with an expiry or an XADD with
      an ID from a clock that reads differently at the replay. */
  lemma {:induction false} ReplayRebuildsIff(start: Keys, h: seq<Issued>, t: Keys, c: Issued, env: nat -> Env)
    requires |start| == |t| == TABLE_SIZE && Fitting(h + [c]) && Unserved(env)
    requires ApplyAll(start, h) == Done(t) && Replay(start, Log(h), env) == Done(t)
    requires Apply(t, c.request, c.env).Done?
    ensures Replay(start, Log(h + [c]), env) == ApplyAll(start, h + [c]) <==>
      Repeats(t, c.request, c.env, env(|LoggedOf(h)|))
  {
    ReplayOneMore(start, h, t, c, env);
    ApplyAllSplits(start, h, [c]);
    assert [c][1..] == [];
    RepeatsIff(t, c.request, c.env, env(|LoggedOf(h)|));
  }

  /** Replay rebuilds what a history left when every command repeats on the table that it met. */
  lemma {:induction false} ReplayRebuilds(start: Keys, h: seq<Issued>, env: nat -> Env)
    requires |start| == TABLE_SIZE && Fitting(h) && Unserved(env) && ApplyAll(start, h).Done?
    requires RepeatsAlong(start, h, Logged, env, 0)
    ensures Replay(start, Log(h), env) == ApplyAll(start, h)
  {
    ReplayHandles(start, h, env);
    LoggedAreRecorded(h);
    LogIsRecording();
    RecordsRepeat(start, h, Logged, env, 0);
  }

  /** A command that is not logged leaves nothing to replay. */
  lemma {:induction false} NothingToReplay(t: Keys, c: Issued, env: nat -> Env)
    requires |t| == TABLE_SIZE && !Logged(c.request.cmd)
    ensures Replay(t, Log([c]), env) == Done(t)
  {
    assert [c][1..] == [] && LoggedOf([c]) == [] + [];
  }

  lemma {:induction false} OneCommand(t: Keys, c: Issued)
    requires |t| == TABLE_SIZE
    ensures ApplyAll(t, [c]) == Apply(t, c.request, c.env)
  {
    assert [c][1..] == [];
  }

  lemma {:induction false} BlpopChain(t: Keys, key: Key, item: string, env: Env)
    requires |t| == TABLE_SIZE && GetEntry(t, key) == Some(Entry(key, List([item]), 0))
    ensures Apply(t, Request(BLPOP, [key, "0"]), env).Done?
    ensures Effective(t, Request(BLPOP, [key, "0"]), env)
  {
  }

  /** A popped element comes back: a BLPOP that found one is not in the file at all. */
  lemma {:induction false} BlpopIsNotRebuilt(t: Keys, key: Key, item: string, atWrite: Env, env: nat -> Env)
    requires |t| == TABLE_SIZE && GetEntry(t, key) == Some(Entry(key, List([item]), 0)) && Unserved(env)
    ensures var h := [Issued(Request(BLPOP, [key, "0"]), atWrite)];
            ApplyAll(t, h).Done? && ApplyAll(t, h) != Done(t) && Replay(t, Log(h), env) == Done(t)
  {
    var c := Issued(Request(BLPOP, [key, "0"]), atWrite);
    BlpopChain(t, key, item, atWrite);
    EffectiveIff(t, c.request, atWrite);
    OneCommand(t, c);
    NothingToReplay(t, c, env);
  }

  // ----- replay after any interleaving of clients -----

  /** Logged requests that came from the parser. */
  ghost predicate FromParser(req: Request) { Logged(req.cmd) ==> Received(req) }

  lemma {:induction false} LoggedAreNamedOrNot(cmd: Cmd)
    ensures Logged(cmd) ==> Recorded(cmd)
  {
  }

  lemma {:induction false} HistoryFits(states: seq<T.Server>, events: seq<T.Event>)
    requires T.IsRun(states, events) && forall e | e in events :: FromParser(e.request)
    ensures Fitting(I.Concat(I.Blocks(states, events)))
  {
    var h := I.Concat(I.Blocks(states, events));
    forall c | c in h && Logged(c.request.cmd) ensures Fits(c.request) {
      I.HistoryIsSent(states, events, c);
      LoggedAreNamedOrNot(c.request.cmd);
      ReceivedFits(c.request);
    }
  }

  /** Replaying the file that any interleaving of clients and transactions has written rebuilds
      the final keyspace, when every command that took effect repeats. */
  lemma {:induction false} ReplayRebuildsRun(states: seq<T.Server>, events: seq<T.Event>, env: nat -> Env)
    requires T.IsRun(states, events) && I.Fresh(states[0]) && Unserved(env)
    requires forall e | e in events :: FromParser(e.request)
    requires RepeatsAlong(states[0].table, I.Concat(I.Blocks(states, events)), Logged, env, 0)
    ensures Replay(states[0].table, PrintAll(states[|events|].log), env) == Done(states[|events|].table)
  {
    var h := I.Concat(I.Blocks(states, events));
    HistoryFits(states, events);
    I.Serialisable(states, events);
    I.LogIsHistory(states, events);
    ReplayRebuilds(states[0].table, h, env);
  }

  /** The clients send nothing that is not recorded faithfully, and nobody is blocked. */
  ghost predicate SafeEvents(events: seq<T.Event>) {
    forall e | e in events :: FromParser(e.request) && Faithful(e.request, PLAIN) && Unserved(e.env)
  }

  lemma {:induction false} SentIsFaithful(events: seq<T.Event>, c: Issued)
    requires SafeEvents(events) && I.Sent(events, c)
    ensures Faithful(c.request, PLAIN) && !c.env.served
  {
  }

  lemma {:induction false} FaithfulIssued(c: Issued)
    requires Faithful(c.request, PLAIN) && !c.env.served
    ensures Faithful(c.request, c.env) && !LoggedNameless(c.request.cmd)
    ensures Logged(c.request.cmd) ==> Repeatable(ReadBack(c.request))
  {
  }

  lemma {:induction false} FaithfulHistory(h: seq<Issued>)
    requires Fitting(h) && forall c | c in h :: Faithful(c.request, PLAIN) && !c.env.served
    ensures Readable(h) && FaithfulButNameless(h) && Named(h) == h
  {
    forall c | c in h
      ensures Faithful(c.request, c.env) && !LoggedNameless(c.request.cmd)
      ensures Logged(c.request.cmd) ==> Repeatable(ReadBack(c.request))
    {
      FaithfulIssued(c);
    }
    NothingNameless(h);
  }

  /** The same from the requests alone: when the clients send no command that can change the
      keyspace but SET, INCR, LPUSH, RPUSH, LPOP and XADD, without expiries or clock IDs, and
      nobody is blocked. */
  lemma {:induction false} ReplayRebuildsSafeRun(states: seq<T.Server>, events: seq<T.Event>, env: nat -> Env)
    requires T.IsRun(states, events) && I.Fresh(states[0]) && Unserved(env)
    requires SafeEvents(events)
    ensures Replay(states[0].table, PrintAll(states[|events|].log), env) == Done(states[|events|].table)
  {
    var h := I.Concat(I.Blocks(states, events));
    HistoryFits(states, events);
    forall c | c in h ensures Faithful(c.request, PLAIN) && !c.env.served {
      I.HistoryIsSent(states, events, c);
      SentIsFaithful(events, c);
    }
    FaithfulHistory(h);
    I.Serialisable(states, events);
    I.LogIsHistory(states, events);
    ReplayLeaves(states[0].table, h, env);
  }
}
