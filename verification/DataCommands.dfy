/** What single data commands do to the keyspace, in plain terms: what a lookup of the key, or of
    another key, finds afterwards. */
module DataCommands {
  import opened CStrings
  import opened Commands
  import opened Resp
  import opened Tables
  import opened Keyspace
  import opened Effects
  import Lists
  import SortedSets
  import Streams
  import Geo

  // ----- lookups after an edit -----

  lemma {:induction false} StoredIsFound(chain: seq<Entry<Value>>, entry: Entry<Value>, other: string)
    ensures EntryIn(Tables.Stored(chain, entry), entry.key) == Some(entry)
    ensures other != entry.key ==> EntryIn(Tables.Stored(chain, entry), other) == EntryIn(chain, other)
  {
    var r, i := Tables.Stored(chain, entry), Find(chain, entry.key);
    if i < |chain| {
      FindIs(r, entry.key, i);
      FindIs(r, other, Find(chain, other));
    } else {
      FindIs(r, entry.key, 0);
      if other != entry.key {
        FindIs(r, other, Find(chain, other) + 1);
      }
    }
  }

  lemma {:induction false} ChangedIsFound(chain: seq<Entry<Value>>, key: string, value: Value, other: string)
    ensures EntryIn(Changed(chain, key, value), key)
         == if EntryIn(chain, key).Some? then Some(EntryIn(chain, key).value.(value := value)) else None
    ensures other != key ==> EntryIn(Changed(chain, key, value), other) == EntryIn(chain, other)
  {
    var r, i := Changed(chain, key, value), Find(chain, key);
    assert forall j | 0 <= j < |r| :: r[j].key == chain[j].key;
    FindIs(r, key, i);
    FindIs(r, other, Find(chain, other));
  }

  /** A new object takes over the head of its bucket: its key is found, and the key that was
      there is not. */
  lemma {:induction false} HeadIsFound(chain: seq<Entry<Value>>, entry: Entry<Value>, other: string)
    requires UniqueKeys(chain)
    ensures EntryIn(HeadReplaced(chain, entry), entry.key) == Some(entry)
    ensures other != entry.key ==>
      EntryIn(HeadReplaced(chain, entry), other) ==
        if chain != [] && chain[0].key == other then None else EntryIn(chain, other)
  {
    var r := HeadReplaced(chain, entry);
    FindIs(r, entry.key, 0);
    if other != entry.key {
      FindIs(r, other, if chain == [] then 1 else if chain[0].key == other then |chain| else Find(chain, other));
    }
  }

  /** The key that heads the bucket of this key. */
  predicate Heads(t: Keys, key: Key, other: string)
    requires |t| == TABLE_SIZE
  {
    t[Bucket(key)] != [] && t[Bucket(key)][0].key == other
  }

  lemma {:induction false} EditIsFound(chain: seq<Entry<Value>>, key: string, action: Action, other: string)
    requires UniqueKeys(chain)
    ensures EntryIn(Edited(chain, key, action), key) == EntryAfter(EntryIn(chain, key), key, action)
    ensures other != key ==>
      EntryIn(Edited(chain, key, action), other) ==
        if action.Create? && chain != [] && chain[0].key == other then None else EntryIn(chain, other)
  {
    match action
    case Store(value, expiresAt) => StoredIsFound(chain, Entry(key, value, expiresAt), other);
    case Create(value) => HeadIsFound(chain, Entry(key, value, 0), other);
    case Update(value) => ChangedIsFound(chain, key, value, other);
    case _ =>
  }

  lemma {:induction false} CommitIsFound(t: Keys, key: Key, action: Action, other: Key)
    requires WellFormed(t) && !action.Undefined?
    ensures var r := Commit(t, key, action).table;
            && GetEntry(r, key) == EntryAfter(GetEntry(t, key), key, action)
            && (other != key ==>
                  GetEntry(r, other) == if action.Create? && Heads(t, key, other) then None else GetEntry(t, other))
  {
    var chain := t[Bucket(key)];
    EditIsFound(chain, key, action, other);
    if other != key && action.Create? && Heads(t, key, other) {
      assert chain[0].key == other && Bucket(other) == Bucket(key);
    }
  }

  // ----- other keys -----

  /** The command makes a new list, stream or sorted set: its key is missing, and it has what it
      needs. */
  predicate MakesObject(t: Keys, req: Request, env: Env)
    requires |t| == TABLE_SIZE
  {
    Effective(t, req, env) && GetEntry(t, req.args[0]).None? && !req.cmd.SET? && !req.cmd.INCR?
  }

  lemma {:induction false} CreatesIff(entry: Option<Entry<Value>>, req: Request, env: Env)
    requires req.args != [] && !Decide(entry, req, env).Undefined?
    ensures Decide(entry, req, env).Create?
       <==> entry.None? && EffectiveOn(entry, req, env) && !req.cmd.SET? && !req.cmd.INCR?
  {
  }

  /** A command leaves what is stored under another key exactly when it does not make a new object
      in a bucket headed by that key; otherwise the other key is lost. */
  lemma {:induction false} OtherKeyStaysIff(t: Keys, req: Request, env: Env, other: Key)
    requires WellFormed(t) && Apply(t, req, env).Done? && GetEntry(t, other).Some?
    requires Touches(req) ==> other != req.args[0]
    ensures var r, lost := Apply(t, req, env).table, MakesObject(t, req, env) && Heads(t, req.args[0], other);
            && |r| == TABLE_SIZE
            && GetEntry(r, other) == if Touches(req) && lost then None else GetEntry(t, other)
  {
    if Touches(req) {
      var key: Key := req.args[0];
      CreatesIff(GetEntry(t, key), req, env);
      CommitIsFound(t, key, Decide(GetEntry(t, key), req, env), other);
    }
  }

  // ----- SET and GET -----

  /** The first EX or PX that has an argument after it, as an index of the words after the value. */
  predicate FirstTime(extra: seq<string>, i: nat) {
    i + 1 < |extra| && IsTime(extra[i]) && forall j | 0 <= j < i :: !IsTime(extra[j])
  }

  predicate IsTime(word: string) { word == "EX" || word == "PX" }

  lemma {:induction false} SetFlagsAt(args: seq<string>, k: nat, i: nat)
    requires k <= i && i + 1 < |args| && IsTime(args[i]) && forall j | k <= j < i :: !IsTime(args[j])
    ensures SetFlags(args, k) == (if args[i] == "EX" then EX else PX, Atoi(args[i + 1]))
    decreases i - k
  {
    if k < i {
      SetFlagsAt(args, k + 1, i);
    }
  }

  lemma {:induction false} NoSetFlags(args: seq<string>, k: nat)
    requires forall j | k <= j < |args| - 1 :: !IsTime(args[j])
    ensures SetFlags(args, k) == (NoTimeFlag, -1)
    decreases |args| - k
  {
    if k + 1 < |args| {
      NoSetFlags(args, k + 1);
    }
  }

  lemma {:induction false} SetLeaves(t: Keys, args: seq<string>, env: Env)
    requires WellFormed(t) && |args| >= 2 && Indexes(args[0])
    ensures Apply(t, Request(SET, args), env).Done?
    ensures GetEntry(Apply(t, Request(SET, args), env).table, args[0])
         == Some(Entry(args[0], Text(args[1]), SetExpiry(args, env.now)))
  {
    var key: Key := args[0];
    CommitIsFound(t, key, DecideSet(args, env.now), key);
  }

  lemma {:induction false} NoTimeExpiry(args: seq<string>, extra: seq<string>, now: int)
    requires |args| == |extra| + 2 && args[2..] == extra && forall j | 0 <= j < |extra| - 1 :: !IsTime(extra[j])
    ensures SetExpiry(args, now) == 0
  {
    if |args| > 3 {
      forall j | 2 <= j < |args| - 1 ensures !IsTime(args[j]) {
        assert args[j] == args[2..][j - 2];
      }
      NoSetFlags(args, 2);
    }
  }

  lemma {:induction false} TimeExpiry(args: seq<string>, extra: seq<string>, i: nat, now: int)
    requires |args| == |extra| + 2 && args[2..] == extra && FirstTime(extra, i)
    ensures SetExpiry(args, now) == ExpiryOf(if extra[i] == "EX" then EX else PX, Atoi(extra[i + 1]), now)
  {
    assert args[i + 2] == args[2..][i] && args[i + 3] == args[2..][i + 1];
    forall j | 2 <= j < i + 2 ensures !IsTime(args[j]) {
      assert args[j] == args[2..][j - 2];
    }
    SetFlagsAt(args, 2, i + 2);
  }

  /** A SET without EX or PX is found at every later clock reading. */
  lemma {:induction false} GetAfterSet(t: Keys, key: Key, value: string, extra: seq<string>, env: Env, later: int)
    requires WellFormed(t) && forall j | 0 <= j < |extra| - 1 :: !IsTime(extra[j])
    ensures var r := Apply(t, Request(SET, [key, value] + extra), env);
            r.Done? && Get(r.table, key, later) == Some(Text(value))
  {
    var args := [key, value] + extra;
    SetLeaves(t, args, env);
    NoTimeExpiry(args, extra, env.now);
  }

  /** A SET with EX or PX is found until the clock has moved on by that many seconds, or
      milliseconds; a time of -1 counts as none. */
  lemma {:induction false} GetAfterTimedSet(t: Keys, key: Key, value: string, extra: seq<string>, i: nat, env: Env,
      later: int)
    requires WellFormed(t) && FirstTime(extra, i)
    ensures var r, time := Apply(t, Request(SET, [key, value] + extra), env), Atoi(extra[i + 1]);
            var deadline := env.now + if extra[i] == "EX" then time * 1000 else time;
            && r.Done?
            && (Get(r.table, key, later) == Some(Text(value)) <==> time == -1 || deadline == 0 || later < deadline)
            && (Get(r.table, key, later) == None <==> time != -1 && deadline != 0 && later >= deadline)
  {
    var args := [key, value] + extra;
    SetLeaves(t, args, env);
    TimeExpiry(args, extra, i, env.now);
  }

  // ----- INCR -----

  lemma {:induction false} IncrLeaves(t: Keys, key: Key, env: Env)
    requires WellFormed(t) && !DecideIncr(GetEntry(t, key)).Undefined?
    ensures var r := Apply(t, Request(INCR, [key]), env);
            r.Done? && GetEntry(r.table, key) == EntryAfter(GetEntry(t, key), key, DecideIncr(GetEntry(t, key)))
  {
    CommitIsFound(t, key, DecideIncr(GetEntry(t, key)), key);
  }

  lemma {:induction false} ZeroIsPrinted(n: int)
    ensures DecInt(n) == "0" <==> n == 0
  {
    Printed();
    AtoiOfDecInt(n);
  }

  /** INCR of a missing key leaves 1, and of a number below the largest int the next one, in its
      printed form and without expiry. */
  lemma {:induction false} IncrCounts(t: Keys, key: Key, n: int, env: Env)
    requires WellFormed(t) && -0x8000_0000 <= n < 0x7FFF_FFFF
    requires var entry := GetEntry(t, key);
             if entry.None? then n == 0 else entry.value.value == Text(DecInt(n))
    ensures var r := Apply(t, Request(INCR, [key]), env);
            r.Done? && GetEntry(r.table, key) == Some(Entry(key, Text(DecInt(n + 1)), 0))
  {
    AtoiOfDecInt(n);
    ZeroIsPrinted(n);
    IncrLeaves(t, key, env);
    assert DecInt(1) == "1";
  }

  /** A text that reads as 0 and is not "0" stays. */
  lemma {:induction false} IncrKeepsText(t: Keys, key: Key, text: string, env: Env)
    requires WellFormed(t) && GetEntry(t, key).Some? && GetEntry(t, key).value.value == Text(text)
    requires Atoi(text) == 0 && text != "0"
    ensures Apply(t, Request(INCR, [key]), env) == Done(t)
  {
    assert t[Bucket(key) := t[Bucket(key)]] == t;
  }

  // ----- lists -----

  function ListAt(t: Keys, key: Key): seq<string>
    requires |t| == TABLE_SIZE
  {
    match GetEntry(t, key)
    case Some(e) => if e.value.List? then e.value.items else []
    case None => []
  }

  /** The key holds a list, or nothing. */
  predicate HoldsList(t: Keys, key: Key)
    requires |t| == TABLE_SIZE
  {
    GetEntry(t, key).Some? ==> GetEntry(t, key).value.value.List?
  }

  /** The keyspace and the lists with their blocked clients agree on a key. */
  predicate SameList(t: Keys, s: Lists.State, key: Key)
    requires |t| == TABLE_SIZE
  {
    HoldsList(t, key) && ListAt(t, key) == Lists.At(s.lists, key)
  }

  lemma {:induction false} ActionLeavesList(t: Keys, key: Key, action: Action, items: seq<string>)
    requires WellFormed(t) && HoldsList(t, key)
    requires (action == Update(List(items)) && GetEntry(t, key).Some?) || action == Create(List(items))
      || (action.Keep? && items == ListAt(t, key))
    ensures var r := Commit(t, key, action).table; HoldsList(r, key) && ListAt(r, key) == items
  {
    CommitIsFound(t, key, action, key);
  }

  function PushRequest(key: string, left: bool, items: seq<string>): Request {
    Request(if left then LPUSH else RPUSH, [key] + items)
  }

  function PushEvent(key: string, left: bool, items: seq<string>, now: int): Lists.Event {
    if left then Lists.LPush(key, items) else Lists.RPush(key, items, now)
  }

  lemma {:induction false} PushDecides(entry: Option<Entry<Value>>, key: string, left: bool, items: seq<string>,
      env: Env)
    requires items != []
    ensures Decide(entry, PushRequest(key, left, items), env) == Pushed(entry, left, items, !left && env.served)
  {
    assert PushRequest(key, left, items).args[1..] == items;
  }

  lemma {:induction false} PushLeaves(t: Keys, key: Key, left: bool, items: seq<string>, env: Env)
    requires WellFormed(t) && HoldsList(t, key) && items != []
    ensures var r := Apply(t, PushRequest(key, left, items), env);
            && r.Done? && HoldsList(r.table, key)
            && ListAt(r.table, key) == AfterPush(ListAt(t, key), left, items, !left && env.served)
  {
    var action := Pushed(GetEntry(t, key), left, items, !left && env.served);
    PushDecides(GetEntry(t, key), key, left, items, env);
    ActionLeavesList(t, key, action, AfterPush(ListAt(t, key), left, items, !left && env.served));
  }

  lemma {:induction false} PushedLists(s: Lists.State, key: string, left: bool, items: seq<string>, now: int,
      served: bool)
    requires items != [] && served == (!left && Lists.Served(s.waiters, key, now, |s.waiters|).Some?)
    ensures Lists.At(Lists.Step(s, PushEvent(key, left, items, now)).lists, key)
         == AfterPush(Lists.At(s.lists, key), left, items, served)
  {
  }

  /** LPUSH and RPUSH on the keyspace change the key's list as they do among the lists with their
      blocked clients, where RPUSH serves a client if there is one to serve. */
  lemma {:induction false} PushIsListStep(t: Keys, s: Lists.State, key: Key, left: bool, items: seq<string>, env: Env)
    requires WellFormed(t) && SameList(t, s, key) && items != []
    requires env.served == Lists.Served(s.waiters, key, env.now, |s.waiters|).Some?
    ensures var r := Apply(t, PushRequest(key, left, items), env);
            r.Done? && SameList(r.table, Lists.Step(s, PushEvent(key, left, items, env.now)), key)
  {
    PushLeaves(t, key, left, items, env);
    PushedLists(s, key, left, items, env.now, !left && env.served);
  }

  lemma {:induction false} LPopLeaves(t: Keys, key: Key, args: seq<string>, env: Env)
    requires WellFormed(t) && HoldsList(t, key) && args != [] && args[0] == key
    ensures var r, l := Apply(t, Request(LPOP, args), env), ListAt(t, key);
            var count := Lists.PopCount(args, |l|);
            && r.Done? && HoldsList(r.table, key)
            && ListAt(r.table, key) == if count.Some? then l[count.value..] else l
  {
    var l := ListAt(t, key);
    var count := Lists.PopCount(args, |l|);
    assert Decide(GetEntry(t, key), Request(LPOP, args), env) == DecideLPop(GetEntry(t, key), args);
    ActionLeavesList(t, key, DecideLPop(GetEntry(t, key), args), if count.Some? then l[count.value..] else l);
  }

  lemma {:induction false} LPoppedLists(s: Lists.State, key: string, args: seq<string>)
    requires args != []
    ensures var l := Lists.At(s.lists, key);
            var count := Lists.PopCount(args, |l|);
            Lists.At(Lists.Step(s, Lists.LPop(key, args)).lists, key) == if count.Some? then l[count.value..] else l
  {
  }

  /** LPOP on the keyspace is LPOP among the lists. */
  lemma {:induction false} LPopIsListStep(t: Keys, s: Lists.State, key: Key, args: seq<string>, env: Env)
    requires WellFormed(t) && SameList(t, s, key) && args != [] && args[0] == key
    ensures var r := Apply(t, Request(LPOP, args), env);
            r.Done? && SameList(r.table, Lists.Step(s, Lists.LPop(key, args)), key)
  {
    LPopLeaves(t, key, args, env);
    LPoppedLists(s, key, args);
  }

  lemma {:induction false} BlpopLeaves(t: Keys, key: Key, args: seq<string>, env: Env)
    requires WellFormed(t) && HoldsList(t, key) && |args| >= 2 && args[0] == key
    ensures var r, l := Apply(t, Request(BLPOP, args), env), ListAt(t, key);
            r.Done? && HoldsList(r.table, key) && ListAt(r.table, key) == if l == [] then l else l[1..]
  {
    var l := ListAt(t, key);
    assert Decide(GetEntry(t, key), Request(BLPOP, args), env) == DecideBlpop(GetEntry(t, key), args);
    ActionLeavesList(t, key, DecideBlpop(GetEntry(t, key), args), if l == [] then l else l[1..]);
  }

  /** BLPOP on the keyspace is BLPOP among the lists, whether it blocks or not. */
  lemma {:induction false} BlpopIsListStep(t: Keys, s: Lists.State, c: nat, key: Key, args: seq<string>, env: Env,
      timeoutAt: int)
    requires WellFormed(t) && SameList(t, s, key) && |args| >= 2 && args[0] == key
    requires Lists.Enabled(s, Lists.Blpop(c, key, env.now, timeoutAt))
    ensures var r := Apply(t, Request(BLPOP, args), env);
            r.Done? && SameList(r.table, Lists.Step(s, Lists.Blpop(c, key, env.now, timeoutAt)), key)
  {
    BlpopLeaves(t, key, args, env);
    Lists.BlpopAnswers(s, c, key, env.now, timeoutAt);
  }

  // ----- sorted sets -----

  /** The key holds a sorted set in canonical form, or nothing. */
  ghost predicate HoldsSet(t: Keys, key: Key)
    requires |t| == TABLE_SIZE
  {
    var entry := GetEntry(t, key);
    (entry.Some? ==> entry.value.value.ZSet?) && SortedSets.Canonical(Members(entry))
  }

  function MembersAt(t: Keys, key: Key): seq<SortedSets.Item>
    requires |t| == TABLE_SIZE
  {
    Members(GetEntry(t, key))
  }

  lemma {:induction false} ActionLeavesSet(t: Keys, key: Key, action: Action, members: seq<SortedSets.Item>)
    requires WellFormed(t) && HoldsSet(t, key) && SortedSets.Canonical(members)
    requires (action == Update(ZSet(members)) && GetEntry(t, key).Some?) || action == Create(ZSet(members))
      || (action.Keep? && members == MembersAt(t, key))
    ensures var r := Commit(t, key, action).table; HoldsSet(r, key) && MembersAt(r, key) == members
  {
    CommitIsFound(t, key, action, key);
  }

  lemma {:induction false} AddingLeaves(t: Keys, key: Key, items: seq<SortedSets.Item>)
    requires WellFormed(t) && HoldsSet(t, key)
    ensures var r := Commit(t, key, AddMembers(GetEntry(t, key), items));
            && r.Done? && HoldsSet(r.table, key)
            && MembersAt(r.table, key) == SortedSets.PutAll(MembersAt(t, key), items)
  {
    var s := MembersAt(t, key);
    SortedSets.CanonicalRepresentsScores(s);
    SortedSets.PutAllRefines(s, SortedSets.Scores(s), items);
    ActionLeavesSet(t, key, AddMembers(GetEntry(t, key), items), SortedSets.PutAll(s, items));
  }

  lemma {:induction false} ZAddDecides(t: Keys, key: Key, args: seq<string>, env: Env)
    requires |t| == TABLE_SIZE && |args| >= 3 && |args| % 2 == 1 && args[0] == key
    ensures Apply(t, Request(ZADD, args), env)
         == Commit(t, key, AddMembers(GetEntry(t, key), SortedSets.PairsOf(env.atof, args, 1)))
  {
    hide Commit, AddMembers;
    assert (|args| - 1) % 2 == 0;
  }

  lemma {:induction false} ZAddLeaves(t: Keys, key: Key, args: seq<string>, env: Env)
    requires WellFormed(t) && HoldsSet(t, key) && |args| >= 3 && |args| % 2 == 1 && args[0] == key
    ensures var r := Apply(t, Request(ZADD, args), env);
            && r.Done? && HoldsSet(r.table, key)
            && MembersAt(r.table, key)
              == SortedSets.PutAll(MembersAt(t, key), SortedSets.PairsOf(env.atof, args, 1))
  {
    hide Apply, Commit;
    ZAddDecides(t, key, args, env);
    AddingLeaves(t, key, SortedSets.PairsOf(env.atof, args, 1));
  }

  /** ZADD key score member ...: the key then holds each named member with the score before its
      last mention, and the others as they were. */
  lemma {:induction false} ZAddOnKey(t: Keys, key: Key, args: seq<string>, env: Env, x: SortedSets.Item)
    requires WellFormed(t) && HoldsSet(t, key) && |args| >= 3 && |args| % 2 == 1 && args[0] == key
    ensures var r := Apply(t, Request(ZADD, args), env);
            && r.Done? && HoldsSet(r.table, key)
            && (forall k: nat | SortedSets.NamedAt(args, k, x.member)
                  && forall j: nat | k < j :: !SortedSets.NamedAt(args, j, x.member) ::
                  x in MembersAt(r.table, key) <==> x.score == env.atof(args[2 * k + 1]))
            && ((forall k: nat :: !SortedSets.NamedAt(args, k, x.member)) ==>
                  (x in MembersAt(r.table, key) <==> x in MembersAt(t, key)))
  {
    ZAddLeaves(t, key, args, env);
    var s := MembersAt(t, key);
    forall k: nat | SortedSets.NamedAt(args, k, x.member)
        && forall j: nat | k < j :: !SortedSets.NamedAt(args, j, x.member)
      ensures x in SortedSets.PutAll(s, SortedSets.PairsOf(env.atof, args, 1)) <==> x.score == env.atof(args[2 * k + 1])
    {
      SortedSets.ZAddBinds(s, env.atof, args, x, k);
    }
    if forall k: nat :: !SortedSets.NamedAt(args, k, x.member) {
      SortedSets.ZAddKeeps(s, env.atof, args, x);
    }
  }

  lemma {:induction false} ZRemDecides(t: Keys, key: Key, args: seq<string>, env: Env)
    requires |t| == TABLE_SIZE && |args| >= 2 && args[0] == key
    ensures Apply(t, Request(ZREM, args), env) == Commit(t, key, DecideZRem(GetEntry(t, key), args))
  {
    hide Commit, DecideZRem;
  }

  /** ZREM key member ...: the key then holds the items of the other members. */
  lemma {:induction false} ZRemOnKey(t: Keys, key: Key, args: seq<string>, env: Env, x: SortedSets.Item)
    requires WellFormed(t) && HoldsSet(t, key) && |args| >= 2 && args[0] == key
    ensures var r := Apply(t, Request(ZREM, args), env);
            && r.Done? && HoldsSet(r.table, key)
            && (x in MembersAt(r.table, key) <==> x in MembersAt(t, key) && x.member !in args[1..])
  {
    hide Apply, Commit;
    var s := MembersAt(t, key);
    var m := SortedSets.Scores(s);
    SortedSets.CanonicalRepresentsScores(s);
    SortedSets.RemovedAllRefines(s, m, args[1..]);
    ZRemDecides(t, key, args, env);
    ZRemLeaves(t, key, args);
  }

  lemma {:induction false} ZRemLeaves(t: Keys, key: Key, args: seq<string>)
    requires WellFormed(t) && HoldsSet(t, key) && |args| >= 2
    requires SortedSets.Canonical(SortedSets.RemovedAll(MembersAt(t, key), args[1..]))
    requires forall x | x in SortedSets.RemovedAll(MembersAt(t, key), args[1..]) :: x in MembersAt(t, key)
    ensures var r := Commit(t, key, DecideZRem(GetEntry(t, key), args));
            && r.Done? && HoldsSet(r.table, key)
            && MembersAt(r.table, key) == SortedSets.RemovedAll(MembersAt(t, key), args[1..])
  {
    var left := SortedSets.RemovedAll(MembersAt(t, key), args[1..]);
    if left != [] {
      assert left[0] in left;
    }
    ActionLeavesSet(t, key, DecideZRem(GetEntry(t, key), args), left);
  }

  // ----- GEOADD -----

  /** The coordinates of place k among the arguments of GEOADD are on the map. */
  predicate OnMap(atof: string -> real, args: seq<string>, k: nat) {
    3 * k + 3 < |args| ==>
      && -180.0 <= atof(args[3 * k + 1]) <= 180.0
      && -85.05112878 <= atof(args[3 * k + 2]) <= 85.05112878
  }

  lemma {:induction false} GeoItemsAre(atof: string -> real, args: seq<string>, i: nat, k: nat)
    requires GeoItems(atof, args, i).Some?
    ensures var items := GeoItems(atof, args, i).value;
            && (k < |items| <==> i + 3 * k + 2 < |args|)
            && (k < |items| ==>
                  && Geo.ValidCoordinate(atof(args[i + 3 * k]), atof(args[i + 3 * k + 1]))
                  && items[k] == SortedSets.Item(
                       Geo.Score(atof(args[i + 3 * k]), atof(args[i + 3 * k + 1])) as real, args[i + 3 * k + 2]))
    decreases k
  {
    if i + 2 < |args| && k > 0 {
      GeoItemsAre(atof, args, i + 3, k - 1);
    }
  }

  lemma {:induction false} GeoItemsIff(atof: string -> real, args: seq<string>, k: nat)
    ensures GeoItems(atof, args, 3 * k + 1).Some? <==> forall j: nat | k <= j :: OnMap(atof, args, j)
    decreases |args| - 3 * k
  {
    if 3 * k + 3 < |args| {
      GeoItemsIff(atof, args, k + 1);
      assert OnMap(atof, args, k) <==> Geo.ValidCoordinate(atof(args[3 * k + 1]), atof(args[3 * k + 2]));
    }
  }

  lemma {:induction false} GeoAddDecides(t: Keys, key: Key, args: seq<string>, env: Env)
    requires |t| == TABLE_SIZE && args != [] && args[0] == key
    ensures Apply(t, Request(GEOADD, args), env) == Commit(t, key, DecideGeoAdd(GetEntry(t, key), args, env.atof))
  {
    hide Commit, DecideGeoAdd;
  }

  lemma {:induction false} GeoAddCommits(t: Keys, key: Key, args: seq<string>, env: Env)
    requires |t| == TABLE_SIZE && |args| >= 4
    ensures var items, entry := GeoItems(env.atof, args, 1), GetEntry(t, key);
            Commit(t, key, DecideGeoAdd(entry, args, env.atof))
              == if items.Some? then Commit(t, key, AddMembers(entry, items.value)) else Done(t)
  {
    hide AddMembers;
    assert t[Bucket(key) := t[Bucket(key)]] == t;
  }

  /** GEOADD changes nothing when a coordinate is off the map; otherwise it is ZADD of its places,
      each with its cell as the score. */
  lemma {:induction false} GeoAddOnKey(t: Keys, key: Key, args: seq<string>, env: Env)
    requires WellFormed(t) && HoldsSet(t, key) && |args| >= 4 && args[0] == key
    ensures var r, onMap := Apply(t, Request(GEOADD, args), env), forall k: nat :: OnMap(env.atof, args, k);
            && r.Done? && (!onMap ==> r == Done(t))
            && (onMap ==>
                  && GeoItems(env.atof, args, 1).Some? && HoldsSet(r.table, key)
                  && MembersAt(r.table, key)
                    == SortedSets.PutAll(MembersAt(t, key), GeoItems(env.atof, args, 1).value))
  {
    hide Apply, Commit;
    GeoAddDecides(t, key, args, env);
    GeoAddCommits(t, key, args, env);
    GeoItemsIff(env.atof, args, 0);
    if GeoItems(env.atof, args, 1).Some? {
      AddingLeaves(t, key, GeoItems(env.atof, args, 1).value);
    }
  }

  // ----- XADD -----

  lemma {:induction false} DashAt(ms: string, num: string)
    requires '-' !in ms
    ensures Dash(ms + ("-" + num)) == |ms|
  {
    var text := ms + ("-" + num);
    if ms != "" {
      assert text[0] == ms[0] && ms[0] in ms && text[1..] == ms[1..] + ("-" + num);
      DashAt(ms[1..], num);
    }
  }

  lemma {:induction false} PartsOf(ms: string, num: string, text: string)
    requires '-' !in ms && text == ms + ("-" + num)
    ensures Dash(text) == |ms| < |text| && text[..|ms|] == ms && text[|ms| + 1..] == num && text != "*"
  {
    DashAt(ms, num);
    assert text[|ms|] == '-';
    assert "*"[0] == '*';
  }

  lemma {:induction false} DecHasNoMark(n: nat)
    ensures '-' !in Dec(n) && Dec(n) != "*" && IsNumber(Dec(n)) && LeadingDigits(Dec(n), 0) == n
  {
    LeadingDigitsOfDec(n);
    assert "*"[0] == '*' && Dec(n)[0] in Dec(n);
  }

  /** The forms of the ID argument, as texts. */
  lemma {:induction false} ParseIdReads(a: nat, b: nat)
    ensures ParseId("*") == Streams.Auto
    ensures ParseId(Dec(a) + ("-" + "*")) == Streams.MsAuto(a)
    ensures ParseId(Dec(a) + ("-" + Dec(b))) == Streams.Explicit(Streams.Id(a, b))
    ensures ParseId("*" + ("-" + Dec(b))) == Streams.StarMs
  {
    DecHasNoMark(a);
    DecHasNoMark(b);
    PartsOf(Dec(a), "*", Dec(a) + ("-" + "*"));
    PartsOf(Dec(a), Dec(b), Dec(a) + ("-" + Dec(b)));
    assert "*"[0] == '*' && |"*"| == 1;
    PartsOf("*", Dec(b), "*" + ("-" + Dec(b)));
  }

  lemma {:induction false} NoDashAt(text: string)
    requires '-' !in text
    ensures Dash(text) == |text|
  {
    if text != "" {
      assert text[0] in text;
      NoDashAt(text[1..]);
    }
  }

  lemma {:induction false} ParseIdWithoutDash(text: string)
    requires '-' !in text && text != "*"
    ensures ParseId(text) == Streams.NoDash
  {
    NoDashAt(text);
  }

  lemma {:induction false} XAddDecides(t: Keys, key: Key, args: seq<string>, env: Env)
    requires |t| == TABLE_SIZE && |args| >= 2 && args[0] == key
    ensures Apply(t, Request(XADD, args), env) == Commit(t, key, DecideXAdd(GetEntry(t, key), args, env.now))
  {
    hide Commit, DecideXAdd;
  }

  lemma {:induction false} NothingCommitted(t: Keys, key: Key)
    requires |t| == TABLE_SIZE
    ensures Commit(t, key, Keep) == Done(t)
  {
    assert t[Bucket(key) := t[Bucket(key)]] == t;
  }

  /** XADD on the keyspace is XADD on the key's stream, an empty one for a missing key. */
  lemma {:induction false} XAddOnKey(t: Keys, key: Key, args: seq<string>, env: Env)
    requires WellFormed(t) && |args| >= 2 && args[0] == key
    requires GetEntry(t, key).Some? ==> GetEntry(t, key).value.value.Stream?
    ensures var r, out := Apply(t, Request(XADD, args), env),
                          Streams.XAdd(StreamOf(GetEntry(t, key)), ParseId(args[1]), args[2..], env.now);
            match out
            case Added(stream, _) =>
              r.Done? && GetEntry(r.table, key).Some? && GetEntry(r.table, key).value.value == Stream(stream)
            case Refused(_) => r == Done(t)
            case Unspecified => r == Crash
  {
    hide Apply, Commit;
    XAddDecides(t, key, args, env);
    NothingCommitted(t, key);
    XAddCommits(t, key, args, env.now);
  }

  lemma {:induction false} XAddCommits(t: Keys, key: Key, args: seq<string>, now: int)
    requires WellFormed(t) && |args| >= 2
    requires GetEntry(t, key).Some? ==> GetEntry(t, key).value.value.Stream?
    ensures var r, out := Commit(t, key, DecideXAdd(GetEntry(t, key), args, now)),
                          Streams.XAdd(StreamOf(GetEntry(t, key)), ParseId(args[1]), args[2..], now);
            match out
            case Added(stream, _) =>
              r.Done? && GetEntry(r.table, key).Some? && GetEntry(r.table, key).value.value == Stream(stream)
            case Refused(_) => r == Commit(t, key, Keep)
            case Unspecified => r == Crash
  {
    var action := DecideXAdd(GetEntry(t, key), args, now);
    if !action.Undefined? {
      CommitIsFound(t, key, action, key);
    }
  }
}
