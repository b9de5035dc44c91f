/** Starting again from the append-only file. The replay handles every record, and so appends it
    to the file once more: each start doubles the log. */
module Restarts {
  import opened Commands
  import opened CStrings
  import opened Resp
  import opened Tables
  import opened Keyspace
  import opened Replays
  import opened Aof
  import Seqs
  import T = Transactions

  // ----- SET as store_set -----

  /** A SET that stores a value without an expiry. */
  predicate PlainSet(req: Request) {
    req.cmd.SET? && |req.args| >= 2 && Indexes(req.args[0]) && Repeatable(req)
  }

  ghost predicate PlainSets(reqs: seq<Request>) { forall r | r in reqs :: PlainSet(r) && Fits(r) }

  function Call(req: Request): SetCall<Value>
    requires PlainSet(req)
  {
    SetCall(req.args[0], Text(req.args[1]), NoTimeFlag, -1, 0)
  }

  function Calls(reqs: seq<Request>): (r: seq<SetCall<Value>>)
    requires forall r | r in reqs :: PlainSet(r)
    ensures |r| == |reqs| && forall i | 0 <= i < |r| :: r[i] == Call(reqs[i])
  {
    if reqs == [] then [] else [Call(reqs[0])] + Calls(reqs[1..])
  }

  lemma {:induction false} SetApplies(t: Keys, req: Request)
    requires |t| == TABLE_SIZE && PlainSet(req)
    ensures Apply(t, req, PLAIN) == Done(Put(t, req.args[0], Text(req.args[1]), 0))
  {
  }

  lemma {:induction false} FoldIsRun(t: Keys, reqs: seq<Request>)
    requires |t| == TABLE_SIZE && forall r | r in reqs :: PlainSet(r)
    ensures Fold(t, reqs) == Done(Run(t, Calls(reqs)))
    decreases |reqs|
  {
    if reqs != [] {
      assert reqs[0] in reqs && forall r | r in reqs[1..] :: r in reqs;
      SetApplies(t, reqs[0]);
      var calls := Calls(reqs[1..]);
      assert Calls(reqs) == [Call(reqs[0])] + calls && Calls(reqs)[1..] == calls;
      FoldIsRun(Put(t, reqs[0].args[0], Text(reqs[0].args[1]), 0), reqs[1..]);
    }
  }

  // ----- running the same calls again -----

  lemma {:induction false} RunMapAdds(m: map<Key, Entry<Value>>, calls: seq<SetCall<Value>>)
    ensures RunMap(m, calls) == m + RunMap(map[], calls)
    decreases |calls|
  {
    if calls != [] {
      var c := calls[0];
      var e := Entry(c.key, c.value, ExpiryOf(c.flag, c.seconds, c.now));
      RunMapAdds(m[c.key := e], calls[1..]);
      RunMapAdds(map[c.key := e], calls[1..]);
    } else {
      assert m + map[] == m;
    }
  }

  lemma {:induction false} CalledKeysAreBound(m: map<Key, Entry<Value>>, calls: seq<SetCall<Value>>, i: nat)
    requires i < |calls|
    ensures calls[i].key in RunMap(m, calls)
    decreases |calls|
  {
    var c := calls[0];
    var e := Entry(c.key, c.value, ExpiryOf(c.flag, c.seconds, c.now));
    if i == 0 {
      RunMapAdds(m[c.key := e], calls[1..]);
    } else {
      CalledKeysAreBound(m[c.key := e], calls[1..], i - 1);
    }
  }

  ghost predicate SameKeys(a: seq<Entry<Value>>, b: seq<Entry<Value>>) {
    |a| == |b| && forall i | 0 <= i < |a| :: a[i].key == b[i].key
  }

  lemma {:induction false} PutKeepsKeys(t: Keys, key: Key, value: Value, expiresAt: int, b: nat)
    requires |t| == TABLE_SIZE && b < TABLE_SIZE && GetEntry(t, key).Some?
    ensures SameKeys(Put(t, key, value, expiresAt)[b], t[b])
  {
  }

  lemma {:induction false} SameKeysSameFind(t: Keys, u: Keys, key: Key)
    requires |t| == |u| == TABLE_SIZE && SameKeys(t[Bucket(key)], u[Bucket(key)])
    ensures GetEntry(t, key).Some? <==> GetEntry(u, key).Some?
  {
    var chain, other: seq<Entry<Value>> := t[Bucket(key)], u[Bucket(key)];
    FindIs(other, key, Find(chain, key));
  }

  /** Storing under keys that are all present keeps every chain's keys in place. */
  lemma {:induction false} RunKeepsKeys(t: Keys, calls: seq<SetCall<Value>>, b: nat)
    requires |t| == TABLE_SIZE && b < TABLE_SIZE && forall c | c in calls :: GetEntry(t, c.key).Some?
    ensures |Run(t, calls)| == TABLE_SIZE && SameKeys(Run(t, calls)[b], t[b])
    decreases |calls|
  {
    if calls != [] {
      var c := calls[0];
      assert c in calls;
      var r := Put(t, c.key, c.value, ExpiryOf(c.flag, c.seconds, c.now));
      forall d | d in calls[1..] ensures GetEntry(r, d.key).Some? {
        PutKeepsKeys(t, c.key, c.value, ExpiryOf(c.flag, c.seconds, c.now), Bucket(d.key));
        SameKeysSameFind(t, r, d.key);
      }
      PutKeepsKeys(t, c.key, c.value, ExpiryOf(c.flag, c.seconds, c.now), b);
      RunKeepsKeys(r, calls[1..], b);
    }
  }

  lemma {:induction false} EntryIsBound(t: Keys, m: map<Key, Entry<Value>>, b: nat, i: nat)
    requires Represents(t, m) && b < TABLE_SIZE && i < |t[b]|
    ensures Indexes(t[b][i].key) && t[b][i].key in m && t[b][i] == m[t[b][i].key]
  {
    var chain := t[b];
    var key: Key := chain[i].key;
    FindIs(chain, key, i);
    assert GetEntry(t, key) == Some(chain[i]);
  }

  /** A map and the order of the keys in each chain determine the table. */
  lemma {:induction false} TableIsUnique(t: Keys, u: Keys, m: map<Key, Entry<Value>>)
    requires Represents(t, m) && Represents(u, m)
    requires forall b | 0 <= b < TABLE_SIZE :: SameKeys(t[b], u[b])
    ensures t == u
  {
    forall b | 0 <= b < TABLE_SIZE ensures t[b] == u[b] {
      var chain, other := t[b], u[b];
      assert SameKeys(chain, other);
      forall i | 0 <= i < |chain| ensures chain[i] == other[i] {
        EntryIsBound(t, m, b, i);
        EntryIsBound(u, m, b, i);
      }
    }
  }

  /** Storing the same values again, in the same order, changes nothing. */
  lemma {:induction false} RunTwice(calls: seq<SetCall<Value>>)
    ensures var t := Run(EmptyTable(), calls); |t| == TABLE_SIZE && Run(t, calls) == t
  {
    var empty: Keys := EmptyTable();
    assert Represents(empty, map[]);
    RunRefinesMap(empty, map[], calls);
    var t, m := Run(empty, calls), RunMap(map[], calls);
    RunRefinesMap(t, m, calls);
    RunMapAdds(m, calls);
    assert RunMap(m, calls) == m;
    forall c | c in calls ensures GetEntry(t, c.key).Some? {
      var i :| 0 <= i < |calls| && calls[i] == c;
      CalledKeysAreBound(map[], calls, i);
    }
    forall b | 0 <= b < TABLE_SIZE ensures SameKeys(Run(t, calls)[b], t[b]) {
      RunKeepsKeys(t, calls, b);
    }
    TableIsUnique(Run(t, calls), t, m);
  }

  lemma {:induction false} IncrOnce(t: Keys, key: Key, was: Option<Entry<Value>>, text: string)
    requires |t| == TABLE_SIZE && GetEntry(t, key) == was
    requires DecideIncr(was) == Store(Text(text), 0)
    ensures var r := Apply(t, Request(INCR, [key]), PLAIN);
            r.Done? && GetEntry(r.table, key) == Some(Entry(key, Text(text), 0))
  {
    var e := Entry(key, Text(text), 0);
    var chain: seq<Entry<Value>> := t[Bucket(key)];
    if Find(chain, key) < |chain| {
      FindIs(chain[Find(chain, key) := e], key, Find(chain, key));
    } else {
      FindIs(Seqs.InsertAt(chain, 0, e), key, 0);
    }
  }

  // ----- the file over several starts -----

  /** The requests that the replay appends again. */
  function AppendedAgain(items: seq<Read>): seq<Request> {
    if items == [] then []
    else (if Logged(items[0].request.cmd) then [items[0].request] else []) + AppendedAgain(items[1..])
  }

  function RequestsOf(items: seq<Read>): (r: seq<Request>)
    ensures |r| == |items|
    ensures forall i | 0 <= i < |r| :: r[i] == items[i].request
  {
    seq(|items|, i requires 0 <= i < |items| => items[i].request)
  }

  lemma {:induction false} AppendsOne(log: seq<Request>, items: seq<Read>, i: nat)
    requires i < |items|
    ensures log + AppendedAgain(items[i..]) == T.Written(log, items[i].request) + AppendedAgain(items[i + 1..])
  {
    assert items[i..][1..] == items[i + 1..];
    var one := if Logged(items[i].request.cmd) then [items[i].request] else [];
    Seqs.ConcatAssociates(log, one, AppendedAgain(items[i + 1..]));
    assert log + [] == log;
  }

  lemma {:induction false} ExecutesItems(s: T.Server, items: seq<Read>, env: nat -> Env, i: nat)
    requires T.Shaped(s) && i <= |items| && T.ExecuteAll(s, RequestsOf(items), env, i).Next?
    ensures var r := T.ExecuteAll(s, RequestsOf(items), env, i).server;
            r.log == s.log + AppendedAgain(items[i..]) && HandleAll(s.table, items[i..], env, i) == Done(r.table)
    decreases |items| - i
  {
    if i == |items| {
      assert s.log + [] == s.log;
    } else {
      var next := T.Execute(s, items[i].request, env(i)).server;
      assert items[i..][1..] == items[i + 1..];
      AppendsOne(s.log, items, i);
      ExecutesItems(next, items, env, i + 1);
    }
  }

  /** A start from a file: the server executes what it reads, which leaves the replayed keyspace
      and appends to the file what AfterStart says. */
  lemma {:induction false} StartExecutes(s: T.Server, text: string, env: nat -> Env)
    requires T.Shaped(s) && PrintAll(s.log) == text && !ReadLoop(text).fault
    requires T.ExecuteAll(s, RequestsOf(ReadLoop(text).items), env, 0).Next?
    ensures var r := T.ExecuteAll(s, RequestsOf(ReadLoop(text).items), env, 0).server;
            PrintAll(r.log) == AfterStart(text) && Replay(s.table, text, env) == Done(r.table)
  {
    var items := ReadLoop(text).items;
    ExecutesItems(s, items, env, 0);
    assert items[0..] == items;
    PrintAllSplits(s.log, AppendedAgain(items));
  }

  /** The file after a start from it. */
  function AfterStart(text: string): string { text + PrintAll(AppendedAgain(ReadLoop(text).items)) }

  function AfterStarts(text: string, n: nat): string
    decreases n
  {
    if n == 0 then text else AfterStarts(AfterStart(text), n - 1)
  }

  /** Requests that are logged under their own names. */
  ghost predicate LoggedByName(reqs: seq<Request>) {
    forall r | r in reqs :: Fits(r) && Logged(r.cmd) && !LoggedNameless(r.cmd)
  }

  lemma {:induction false} AppendedFirst(req: Request, bytes: nat, more: seq<Read>)
    requires Logged(req.cmd)
    ensures AppendedAgain([Read(req, bytes)] + more) == [req] + AppendedAgain(more)
  {
    assert ([Read(req, bytes)] + more)[1..] == more;
  }

  lemma {:induction false} AllAppendedAgain(reqs: seq<Request>)
    requires LoggedByName(reqs)
    ensures AppendedAgain(ReadBackAll(reqs)) == reqs && ReadBacks(reqs) == reqs
  {
    if reqs != [] {
      assert reqs[0] in reqs && forall r | r in reqs[1..] :: r in reqs;
      AppendedFirst(reqs[0], |Print(reqs[0])|, ReadBackAll(reqs[1..]));
      AllAppendedAgain(reqs[1..]);
      assert reqs == [reqs[0]] + reqs[1..];
    }
  }

  /** Each start doubles the log. */
  lemma {:induction false} StartDoublesLog(reqs: seq<Request>)
    requires LoggedByName(reqs)
    ensures AfterStart(PrintAll(reqs)) == PrintAll(reqs + reqs)
  {
    ReadLoopInvertsPrintAll(reqs);
    AllAppendedAgain(reqs);
    PrintAllSplits(reqs, reqs);
  }

  lemma {:induction false} ReplayOfNamed(reqs: seq<Request>, env: nat -> Env)
    requires LoggedByName(reqs) && Unserved(env) && forall r | r in reqs :: Repeatable(r)
    ensures Replay(EmptyTable(), PrintAll(reqs), env) == Fold(EmptyTable(), reqs)
  {
    AllAppendedAgain(reqs);
    ReplayOfPrinted(EmptyTable(), reqs, env);
  }

  // ----- many starts -----

  function Copies(reqs: seq<Request>, k: nat): seq<Request> { if k == 0 then [] else reqs + Copies(reqs, k - 1) }

  function Pow2(n: nat): (r: nat)
    ensures r > 0
  {
    if n == 0 then 1 else 2 * Pow2(n - 1)
  }

  function Times(c: nat, k: nat): (r: nat)
    ensures r == c * k
  {
    if k == 0 then 0 else c + Times(c, k - 1)
  }

  lemma {:induction false} CopiesAdd(reqs: seq<Request>, a: nat, b: nat)
    ensures Copies(reqs, a) + Copies(reqs, b) == Copies(reqs, a + b)
  {
    if a == 0 {
      assert [] + Copies(reqs, b) == Copies(reqs, b);
    } else {
      CopiesAdd(reqs, a - 1, b);
      Seqs.ConcatAssociates(reqs, Copies(reqs, a - 1), Copies(reqs, b));
    }
  }

  lemma {:induction false} CopiesOfCopies(reqs: seq<Request>, c: nat, k: nat)
    ensures Copies(Copies(reqs, c), k) == Copies(reqs, Times(c, k))
  {
    if k > 0 {
      CopiesOfCopies(reqs, c, k - 1);
      CopiesAdd(reqs, c, Times(c, k - 1));
    }
  }

  lemma {:induction false} TwoCopies(reqs: seq<Request>)
    ensures Copies(reqs, 2) == reqs + reqs && Copies(reqs, 1) == reqs
  {
    assert reqs + [] == reqs;
    assert Copies(reqs, 1) == reqs;
  }

  lemma {:induction false} CopiesStay(reqs: seq<Request>, k: nat)
    ensures forall r | r in Copies(reqs, k) :: r in reqs
  {
    if k > 0 {
      CopiesStay(reqs, k - 1);
    }
  }

  /** After n starts the file holds 2^n copies of the log. */
  lemma {:induction false} LogAfterStarts(reqs: seq<Request>, text: string, n: nat)
    requires LoggedByName(reqs) && text == PrintAll(reqs)
    ensures AfterStarts(text, n) == PrintAll(Copies(reqs, Pow2(n)))
    decreases n
  {
    TwoCopies(reqs);
    if n > 0 {
      StartDoublesLog(reqs);
      LogAfterStarts(reqs + reqs, AfterStart(text), n - 1);
      CopiesOfCopies(reqs, 2, Pow2(n - 1));
    }
  }

  /** What a replay of the file leaves after n starts: the fold of 2^n copies of the log. */
  lemma {:induction false} ReplayAfterStarts(reqs: seq<Request>, n: nat, env: nat -> Env)
    requires LoggedByName(reqs) && Unserved(env) && forall r | r in reqs :: Repeatable(r)
    ensures Replay(EmptyTable(), AfterStarts(PrintAll(reqs), n), env) == Fold(EmptyTable(), Copies(reqs, Pow2(n)))
  {
    LogAfterStarts(reqs, PrintAll(reqs), n);
    CopiesStay(reqs, Pow2(n));
    ReplayOfNamed(Copies(reqs, Pow2(n)), env);
  }

  // ----- SETs stay as they are -----

  lemma {:induction false} PlainSetsAreLogged(reqs: seq<Request>)
    requires PlainSets(reqs)
    ensures LoggedByName(reqs) && forall r | r in reqs :: Repeatable(r)
  {
  }

  lemma {:induction false} CopiesOnFixedPoint(t: Keys, reqs: seq<Request>, k: nat)
    requires |t| == TABLE_SIZE && Fold(t, reqs) == Done(t)
    ensures Fold(t, Copies(reqs, k)) == Done(t)
  {
    if k > 0 {
      CopiesOnFixedPoint(t, reqs, k - 1);
      FoldSplits(t, reqs, Copies(reqs, k - 1));
    }
  }

  lemma {:induction false} CopiesOfIdempotent(t: Keys, reqs: seq<Request>, k: nat)
    requires |t| == TABLE_SIZE && k > 0 && Fold(EmptyTable(), reqs) == Done(t) && Fold(t, reqs) == Done(t)
    ensures Fold(EmptyTable(), Copies(reqs, k)) == Done(t)
  {
    CopiesOnFixedPoint(t, reqs, k - 1);
    FoldSplits(EmptyTable(), reqs, Copies(reqs, k - 1));
  }

  /** A log of plain SETs gives the same keyspace after any number of starts. */
  lemma {:induction false} SetsSurviveStarts(reqs: seq<Request>, n: nat, env: nat -> Env)
    requires PlainSets(reqs) && Unserved(env)
    ensures Replay(EmptyTable(), AfterStarts(PrintAll(reqs), n), env) == Fold(EmptyTable(), reqs)
  {
    PlainSetsAreLogged(reqs);
    ReplayAfterStarts(reqs, n, env);
    var t: Keys := Run(EmptyTable(), Calls(reqs));
    RunTwice(Calls(reqs));
    FoldIsRun(EmptyTable(), reqs);
    FoldIsRun(t, reqs);
    CopiesOfIdempotent(t, reqs, Pow2(n));
  }

  // ----- counters grow -----

  const INT_MAX := 0x7FFF_FFFF

  /** The value of a counter after k INCRs. */
  ghost predicate Counts(r: Effect, key: Key, k: nat) {
    r.Done? && |r.table| == TABLE_SIZE
    && GetEntry(r.table, key) == if k == 0 then None else Some(Entry(key, Text(DecInt(k)), 0))
  }

  lemma {:induction false} OneLast(reqs: seq<Request>, k: nat)
    requires k > 0
    ensures Copies(reqs, k) == Copies(reqs, k - 1) + reqs
  {
    TwoCopies(reqs);
    CopiesAdd(reqs, k - 1, 1);
  }

  lemma {:induction false} NextCount(k: nat)
    requires k < INT_MAX
    ensures DecideIncr(if k == 0 then None else Some(Entry("", Text(DecInt(k)), 0))) == Store(Text(DecInt(k + 1)), 0)
  {
    AtoiOfDecInt(k);
    if k == 0 {
      assert DecInt(1) == "1";
    }
  }

  lemma {:induction false} NextIncr(t: Keys, key: Key, k: nat)
    requires 0 < k <= INT_MAX && Counts(Done(t), key, k - 1)
    ensures Counts(Apply(t, Request(INCR, [key]), PLAIN), key, k)
  {
    NextCount(k - 1);
    IncrOnce(t, key, GetEntry(t, key), DecInt(k));
  }

  lemma {:induction false} IncrsCount(key: Key, k: nat)
    requires k <= INT_MAX
    ensures Counts(Fold(EmptyTable(), Copies([Request(INCR, [key])], k)), key, k)
  {
    var one := [Request(INCR, [key])];
    if k > 0 {
      IncrsCount(key, k - 1);
      var before := Fold(EmptyTable(), Copies(one, k - 1));
      OneLast(one, k);
      FoldSplits(EmptyTable(), Copies(one, k - 1), one);
      FoldOne(before.table, one[0]);
      NextIncr(before.table, key, k);
    }
  }

  lemma {:induction false} IncrLogIsNamed(key: Key, c: nat)
    requires ShortWord(key)
    ensures var log := Copies([Request(INCR, [key])], c);
            LoggedByName(log) && forall r | r in log :: Repeatable(r)
  {
    CopiesStay([Request(INCR, [key])], c);
  }

  /** A counter does not survive: after n starts from a log of c INCRs, a replay of the file makes
      it read c times 2^n, as long as that is an int. */
  lemma {:induction false} CounterGrows(key: Key, c: nat, n: nat, env: nat -> Env, log: seq<Request>)
    requires ShortWord(key) && Unserved(env) && Times(c, Pow2(n)) <= INT_MAX && log == Copies([Request(INCR, [key])], c)
    ensures Counts(Replay(EmptyTable(), AfterStarts(PrintAll(log), n), env), key, Times(c, Pow2(n)))
  {
    IncrLogIsNamed(key, c);
    ReplayAfterStarts(log, n, env);
    CopiesOfCopies([Request(INCR, [key])], c, Pow2(n));
    IncrsCount(key, Times(c, Pow2(n)));
  }
}
