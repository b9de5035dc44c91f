/** Inputs on which the code falls short, each a concrete instance of a condition that is proved
    exact elsewhere. */
module Failures {
  import opened CStrings
  import opened Commands
  import opened Resp
  import opened Tables
  import opened Effects
  import opened Keyspace
  import opened Replays
  import A = AfterExec
  import Geo
  import Lists
  import Orders
  import C = CaughtUp
  import G = ReplicationGaps
  import I = Interleavings
  import O = CommitOrder
  import R = Replication
  import T = Transactions
  import W = WaitGuarantees

  const SET_K_V := Request(SET, ["k", "v"])
  const ZADD_K := Request(ZADD, ["k", "1", "m"])
  const BLPOP_K := Request(BLPOP, ["k", "0"])

  lemma {:induction false} KeyK()
    ensures Indexes("k")
  {
    AsciiIndexes("k");
  }

  lemma {:induction false} SetFits()
    ensures Fits(SET_K_V) && Repeatable(SET_K_V) && IsWriteCmd(SET)
    ensures Print(SET_K_V) == "*3\r\n" + ("$3\r\nSET\r\n" + ("$1\r\nk\r\n" + "$1\r\nv\r\n"))
    ensures |Print(SET_K_V)| == 27
  {
    SetWords();
    BulkAllOfThree("SET", "k", "v");
    var words := ["SET", "k", "v"];
    assert [CmdToString(SET)] + SET_K_V.args == words;
    assert Dec(3) == "3" && "*" + "3" + CRLF == "*3\r\n";
    assert ArrayOf(words) == "*3\r\n" + BulkAll(words);
  }

  lemma {:induction false} SetWords()
    ensures Bulk("SET") == "$3\r\nSET\r\n" && Bulk("k") == "$1\r\nk\r\n" && Bulk("v") == "$1\r\nv\r\n"
  {
    assert Dec(3) == "3" && Dec(1) == "1";
  }

  lemma {:induction false} SetStores(env: Env)
    ensures var r := Apply(EmptyTable(), SET_K_V, env);
            r.Done? && Effective(EmptyTable(), SET_K_V, env) && GetEntry(r.table, "k") == Some(Entry("k", Text("v"), 0))
  {
    KeyK();
    var k: Key := "k";
    var e := Entry(k, Text("v"), 0);
    assert GetEntry(EmptyTable<Value>(), k) == None;
    assert Tables.Stored([], e) == [e];
    FindIs([e], k, 0);
  }

  // ----- transactions -----

  /** WATCH k and MULTI by one client and BLPOP k by another, on a list of one element: the EXEC
      that follows commits, although the list is empty by now. */
  lemma {:induction false} ExecMissesBlpop(s: T.Server, c: nat, d: nat, x: string, env: nat -> Env)
    returns (states: seq<T.Server>, events: seq<T.Event>)
    requires T.Shaped(s) && c < |s.clients| && d < |s.clients| && c != d
    requires !s.clients[c].queued && !s.clients[c].dirty && !s.clients[d].queued
    requires Indexes("k") && GetEntry(s.table, "k") == Some(Entry("k", List([x]), 0))
    ensures T.IsRun(states, events) && states[0] == s && |events| == 3
    ensures events[0] == T.Event(c, Request(WATCH, ["k"]), env) && events[1] == T.Event(c, Request(MULTI, []), env)
    ensures events[2] == T.Event(d, BLPOP_K, env) && |states[3].clients| == |s.clients|
    ensures T.Commits(states[3], T.Event(c, Request(EXEC, []), env))
    ensures states[3].table[Bucket("k")] != s.table[Bucket("k")]
  {
    states, events := T.MissedExactlyWhenSilent(s, c, d, "k", T.Event(d, BLPOP_K, env), env);
  }

  // ----- replication -----

  /** MULTI, SET k v and DISCARD: the replica has the key, and the master does not. */
  lemma {:induction false} DiscardedSetIsReplicated(s: R.System, c: nat, env: nat -> Env)
    returns (states: seq<R.System>, events: seq<R.Event>)
    requires R.Start(s) && |s.replicas| == 1 && c < |s.master.clients| && Unserved(env) && Indexes("k")
    ensures R.IsRun(states, events) && states[0] == s
    ensures var last := states[|events|];
            && last.master.table == EmptyTable() && |last.replicas| == 1 && last.replicas[0].link == []
            && |last.replicas[0].table| == TABLE_SIZE
            && GetEntry(last.replicas[0].table, "k") == Some(Entry("k", Text("v"), 0))
            && last.replicas[0].table != last.master.table
  {
    SetFits();
    SetStores(PLAIN);
    states, events := G.DiscardedWriteIsReplicated(s, c, SET_K_V, env);
  }

  /** After two WAITs that made the only replica answer, SET k v and WAIT 1: the WAIT replies 1
      while the SET is in flight. */
  lemma {:induction false} WaitMiscountsSet(s: R.System, c: nat, env: nat -> Env)
    returns (states: seq<R.System>, events: seq<R.Event>)
    requires R.Start(s) && |s.replicas| == 1 && c < |s.master.clients| && Unserved(env)
    ensures R.IsRun(states, events) && states[0] == s
    ensures var last := states[|events|];
            last.replies == [1] && last.captured == last.offset && !W.HasApplied(last, 0)
  {
    SetFits();
    SetStores(env(0));
    states, events := G.LaterWaitMiscounts(s, T.Event(c, SET_K_V, env), env);
  }

  lemma {:induction false} ZAddTakesEffect(env: Env)
    ensures Apply(EmptyTable(), ZADD_K, env).Done? && Effective(EmptyTable(), ZADD_K, env)
  {
    KeyK();
    var k: Key := "k";
    assert GetEntry(EmptyTable<Value>(), k) == None;
  }

  /** One ZADD k 1 m, and no transaction: nothing is sent, and the replica never has the set. */
  lemma {:induction false} ZAddIsNotReplicated(s: R.System, r: nat, c: nat, env: nat -> Env, there: nat -> Env)
    requires R.Start(s) && r < |s.replicas| && c < |s.master.clients| && Unserved(there)
    ensures var next := R.FromClient(s, T.Event(c, ZADD_K, env), 0);
            next.Some? && R.Shaped(next.value) && !C.EndsEqual(next.value, r, there)
  {
    ZAddTakesEffect(env(0));
    assert s.replicas[r] == R.Replica([], EmptyTable(), 0, []);
    T.HandleOfData(s.master, T.Event(c, ZADD_K, env));
    C.CommandKeepsEqualIff(s, r, T.Event(c, ZADD_K, env), 0, there);
  }

  function SetK(v: string): Request { Request(SET, ["k", v]) }

  lemma {:induction false} SetsOfK(s: R.System, env: nat -> Env, there: nat -> Env, k: Key)
    requires R.Shaped(s) && k == "k"
    ensures !Orders.SameEnd(GetEntry(s.master.table, k), Issued(SetK("a"), env(0)), Issued(SetK("b"), env(0)), there(0),
                            there(1))
  {
    Orders.SetsEndAlike(GetEntry(s.master.table, k), k, "a", "b", env(0), there(0), there(1));
  }

  /** MULTI and SET k a by one client, SET k b by another, and EXEC: the master ends with a, and the
      replica, to which the SETs were sent in that order, with b. */
  lemma {:induction false} CommitReorders(s: R.System, r: nat, c: nat, d: nat, env: nat -> Env, there: nat -> Env)
    requires O.Interrupted(s, r, c, SetK("a"), T.Event(d, SetK("b"), env), env) && Unserved(there) && Indexes("k")
    ensures !O.KeepsEqual(s, r, c, SetK("a"), T.Event(d, SetK("b"), env), env, there)
  {
    hide O.KeepsEqual, O.Committed, O.Mixed;
    SetsOfK(s, env, there, "k");
    O.SameKeyKeepsEqualIff(s, r, c, "k", SetK("a"), T.Event(d, SetK("b"), env), env, there);
  }

  /** After WATCH k, MULTI, SET k v and an EXEC that commits, the next MULTI and EXEC of the client
      abort: its own SET has made it dirty. */
  lemma {:induction false} NextExecAborts(s: T.Server, c: nat, env: nat -> Env)
    requires I.Registered(s) && c < |s.clients| && Indexes("k")
    requires s.clients[c] == T.Client(true, false, [SET_K_V], ["k"])
    ensures var exec, multi := T.Event(c, Request(EXEC, []), env), T.Event(c, Request(MULTI, []), env);
            && T.Commits(s, exec) && T.Handle(s, exec).Next?
            && var r := T.Handle(s, exec).server;
               T.Handle(r, multi).Next? && !T.Commits(T.Handle(r, multi).server, exec)
  {
    var exec := T.Event(c, Request(EXEC, []), env);
    var left := T.Unqueued(s, c);
    assert T.ExecuteAll(left, [SET_K_V], env, 0) == T.Execute(left, SET_K_V, env(0));
    A.CommitLeaves(s, exec);
    var keys: seq<Key> := ["k"];
    assert Bucket(keys[0]) == Bucket("k") && A.NotifiesOne([SET_K_V][0], keys);
    A.MultiThenExec(T.Handle(s, exec).server, c, env);
  }

  // ----- blocked clients and the geo index -----

  /** RPUSH of two elements wakes one of two clients: the other stays blocked on a list that has
      an element. */
  lemma {:induction false} RPushLeavesOneBlocked(now: int)
    requires now != 0
    ensures var w := Lists.Waiting("k", 0, 0);
            var s := Lists.State(map[], [w, w], map[]);
            var r := Lists.Step(s, Lists.RPush("k", ["x", "y"], now));
            Lists.NobodyMissed(s) && !Lists.NobodyMissed(r)
  {
    var w := Lists.Waiting("k", 0, 0);
    var s := Lists.State(map[], [w, w], map[]);
    assert Lists.WaitsFor(s.waiters[0], "k") && Lists.WaitsFor(s.waiters[1], "k");
    assert Lists.Awaited(s, "k") && !Lists.OneWaiter(s, "k");
    Lists.StepMissesIff(s, Lists.RPush("k", ["x", "y"], now));
  }

  /** A client that BLPOP has blocked in this millisecond stays blocked, and the element stays. */
  lemma {:induction false} RPushPassesOver(now: int)
    ensures var s := Lists.State(map[], [Lists.Waiting("k", now, 0)], map[]);
            var r := Lists.Step(s, Lists.RPush("k", ["x"], now));
            r.waiters == s.waiters && Lists.At(r.lists, "k") == ["x"]
  {
    var s := Lists.State(map[], [Lists.Waiting("k", now, 0)], map[]);
    Lists.RPushWakesIff(s, "k", ["x"], now);
    assert [] + ["x"] == ["x"];
  }

  /** At longitude 180, in the middle of latitude cell 1, GEOPOS answers cell 0. */
  lemma {:induction false} GeoposMovesDown()
    ensures var lat := 1.5 / Geo.CELLS * Geo.LAT_SPAN - Geo.LAT_MAX;
            && Geo.ValidCoordinate(180.0, lat)
            && Geo.Position(Geo.Score(180.0, lat)) == Geo.Centre(0x400_0000, 0)
            && !Geo.WithinHalfCell(Geo.Position(Geo.Score(180.0, lat)), 180.0, lat)
  {
    var lat := 1.5 / Geo.CELLS * Geo.LAT_SPAN - Geo.LAT_MAX;
    assert (lat + Geo.LAT_MAX) / Geo.LAT_SPAN * Geo.CELLS == 1.5;
    assert Geo.LatCell(lat) == 1 && Geo.LonCell(180.0) == 0x400_0000;
    Geo.GeoposAnswersCell(180.0, lat);
    Geo.GeoposWithinHalfCell(180.0, lat);
  }

  /** LRANGE k 1 5 on a list of three returns all three. */
  lemma {:induction false} RangeStartsOver()
    ensures var l := ["a", "b", "c"]; Lists.Range(l, 1, 5) == l && Lists.Between(l, 1, 5) == ["b", "c"]
  {
    var l := ["a", "b", "c"];
    Lists.BetweenIsClamped(l, 1, 5, 1, 5);
  }
}
