/** The value of a sorted set: a chain of (score, member) items, what ZADD and ZREM
    do to it, and its canonical form. */
module SortedSets {
  import opened CStrings
  import opened Seqs

  datatype Item = Item(score: real, member: string)

  /** The order in which zset_add walks the chain. */
  predicate Before(a: Item, b: Item) {
    a.score < b.score || (a.score == b.score && Less(a.member, b.member))
  }

  /** The order of a sorted set: the lower score first, and at equal scores the member that comes
      first as bytes. */
  ghost predicate Lower(score: real, member: string, score': real, member': string) {
    score < score' || (score == score' && Precedes(member, member'))
  }

  /** The walk compares in that order. */
  lemma {:induction false} BeforeIffLower(a: Item, b: Item)
    ensures Before(a, b) <==> Lower(a.score, a.member, b.score, b.member)
  {
    LessIffPrecedes(a.member, b.member);
  }

  lemma {:induction false} BeforeIsStrictOrder(a: Item, b: Item, c: Item)
    ensures !Before(a, a)
    ensures Before(a, b) && Before(b, c) ==> Before(a, c)
    ensures a == b || Before(a, b) || Before(b, a)
  {
    LessIrreflexive(a.member);
    if Less(a.member, b.member) && Less(b.member, c.member) {
      LessTransitive(a.member, b.member, c.member);
    }
    LessTotal(a.member, b.member);
  }

  ghost predicate Sorted(s: seq<Item>) {
    forall i, j | 0 <= i < j < |s| :: Before(s[i], s[j])
  }

  ghost predicate UniqueMembers(s: seq<Item>) {
    forall i, j | 0 <= i < j < |s| :: s[i].member != s[j].member
  }

  ghost predicate Canonical(s: seq<Item>) {
    Sorted(s) && UniqueMembers(s)
  }

  // ----- the operations of the chain -----

  /** Where the member first occurs, or the length of the chain. */
  function IndexOf(s: seq<Item>, member: string): (i: nat)
    ensures i <= |s|
    ensures forall j | 0 <= j < i :: s[j].member != member
    ensures i < |s| ==> s[i].member == member
  {
    if s == [] || s[0].member == member then 0 else 1 + IndexOf(s[1..], member)
  }

  predicate Has(s: seq<Item>, member: string) { IndexOf(s, member) < |s| }

  function Removed(s: seq<Item>, member: string): seq<Item> {
    var i := IndexOf(s, member);
    if i < |s| then RemoveAt(s, i) else s
  }

  /** Where zset_add stops: the first item that is not before the new one. */
  function Position(s: seq<Item>, item: Item): (p: nat)
    ensures p <= |s|
    ensures forall j | 0 <= j < p :: Before(s[j], item)
    ensures p < |s| ==> !Before(s[p], item)
  {
    if s == [] || !Before(s[0], item) then 0 else 1 + Position(s[1..], item)
  }

  function Inserted(s: seq<Item>, item: Item): seq<Item> {
    InsertAt(s, Position(s, item), item)
  }

  /** zset_add puts the item between those below it and those that are not. */
  lemma {:induction false} InsertedAfterLower(s: seq<Item>, item: Item)
    ensures var p := Position(s, item);
            && Inserted(s, item) == s[..p] + [item] + s[p..]
            && (forall j | 0 <= j < p :: Lower(s[j].score, s[j].member, item.score, item.member))
            && (p < |s| ==> !Lower(s[p].score, s[p].member, item.score, item.member))
  {
    var p := Position(s, item);
    forall j | 0 <= j < p ensures Lower(s[j].score, s[j].member, item.score, item.member) {
      BeforeIffLower(s[j], item);
    }
    if p < |s| {
      BeforeIffLower(s[p], item);
    }
  }

  /** One (score, member) pair of ZADD: remove, then add. */
  function Put(s: seq<Item>, item: Item): seq<Item> {
    Inserted(Removed(s, item.member), item)
  }

  function PutAll(s: seq<Item>, items: seq<Item>): seq<Item>
    decreases |items|
  {
    if items == [] then s else PutAll(Put(s, items[0]), items[1..])
  }

  function RemovedAll(s: seq<Item>, members: seq<string>): seq<Item>
    decreases |members|
  {
    if members == [] then s else RemovedAll(Removed(s, members[0]), members[1..])
  }

  /** The pairs that handle_zadd and handle_geoadd read from their arguments, from index i on. */
  function PairsOf(atof: string -> real, args: seq<string>, i: nat): seq<Item>
    decreases |args| - i
  {
    if i + 1 < |args| then [Item(atof(args[i]), args[i + 1])] + PairsOf(atof, args, i + 2) else []
  }

  /** The step of handle_zadd's loop over its arguments. */
  lemma {:induction false} PutAllStep(s: seq<Item>, atof: string -> real, args: seq<string>, i: nat)
    ensures i + 1 < |args| ==>
      PutAll(s, PairsOf(atof, args, i)) == PutAll(Put(s, Item(atof(args[i]), args[i + 1])), PairsOf(atof, args, i + 2))
    ensures i + 1 >= |args| ==> PutAll(s, PairsOf(atof, args, i)) == s
  {
    if i + 1 < |args| {
      var pairs := PairsOf(atof, args, i);
      assert pairs[0] == Item(atof(args[i]), args[i + 1]) && pairs[1..] == PairsOf(atof, args, i + 2);
    }
  }

  lemma {:induction false} RemovedAllStep(s: seq<Item>, members: seq<string>, i: nat)
    requires i < |members|
    ensures RemovedAll(s, members[i..]) == RemovedAll(Removed(s, members[i]), members[i + 1..])
  {
    assert members[i..][1..] == members[i + 1..];
  }

  function Names(s: seq<Item>): (r: seq<string>)
    ensures |r| == |s|
    ensures forall i | 0 <= i < |s| :: r[i] == s[i].member
  {
    seq(|s|, i requires 0 <= i < |s| => s[i].member)
  }

  lemma {:induction false} NamesOfSlice(s: seq<Item>, a: nat, b: nat)
    requires a <= b <= |s|
    ensures Names(s)[a..b] == Names(s[a..b])
  {
  }

  // ----- the abstract value: a map from members to scores -----

  function Scores(s: seq<Item>): map<string, real> {
    if s == [] then map[] else Scores(s[1..])[s[0].member := s[0].score]
  }

  lemma {:induction false} ScoresMembership(s: seq<Item>, item: Item)
    requires UniqueMembers(s)
    ensures item in s <==> item.member in Scores(s) && Scores(s)[item.member] == item.score
    ensures item.member in Scores(s) <==> Has(s, item.member)
  {
    if s != [] {
      assert UniqueMembers(s[1..]);
      ScoresMembership(s[1..], item);
      if item in s[1..] {
        var k :| 0 <= k < |s[1..]| && s[1..][k] == item;
        assert s[k + 1] == item;
      }
    }
  }

  /** Two chains in canonical form that bind the same members to the same scores are equal. */
  lemma {:induction false} CanonicalIsUnique(s: seq<Item>, t: seq<Item>)
    requires Canonical(s) && Canonical(t)
    requires forall item :: item in s <==> item in t
    ensures s == t
  {
    if s != [] { assert s[0] in t; }
    if t != [] { assert t[0] in s; }
    if s != [] {
      BeforeIsStrictOrder(s[0], t[0], s[0]);
      assert s[0] == t[0];
      forall item ensures item in s[1..] <==> item in t[1..] {
        TailMembership(s, item);
        TailMembership(t, item);
      }
      CanonicalIsUnique(s[1..], t[1..]);
      assert s == [s[0]] + s[1..] && t == [t[0]] + t[1..];
    }
  }

  lemma {:induction false} TailMembership(s: seq<Item>, item: Item)
    requires UniqueMembers(s) && s != []
    ensures item in s[1..] <==> item in s && item != s[0]
  {
    if item in s && item != s[0] {
      var k :| 0 <= k < |s| && s[k] == item;
      assert s[1..][k - 1] == item;
    }
    if item in s[1..] {
      var k :| 0 <= k < |s[1..]| && s[1..][k] == item;
      assert s[k + 1] == item;
    }
  }

  // ----- every operation keeps the canonical form and acts on the map -----

  lemma {:induction false} DropKeepsCanonical(s: seq<Item>, i: nat)
    requires Canonical(s) && i < |s|
    ensures Canonical(RemoveAt(s, i))
    ensures forall item :: item in RemoveAt(s, i) <==> item in s && item.member != s[i].member
  {
    var r := RemoveAt(s, i);
    forall item | item in s && item.member != s[i].member ensures item in r {
      var k :| 0 <= k < |s| && s[k] == item;
      assert item == if k < i then r[k] else r[k - 1];
    }
  }

  lemma {:induction false} RemovedKeepsCanonical(s: seq<Item>, member: string)
    requires Canonical(s)
    ensures Canonical(Removed(s, member))
    ensures !Has(Removed(s, member), member)
    ensures forall item :: item in Removed(s, member) <==> item in s && item.member != member
    ensures |Removed(s, member)| == |s| - (if Has(s, member) then 1 else 0)
  {
    var r := Removed(s, member);
    if Has(s, member) {
      DropKeepsCanonical(s, IndexOf(s, member));
    }
    assert forall j | 0 <= j < |r| :: r[j] in r;
  }

  lemma {:induction false} LowerThanTheRest(s: seq<Item>, item: Item, k: nat)
    requires Canonical(s) && !Has(s, item.member) && Position(s, item) <= k < |s|
    ensures Before(item, s[k])
  {
    var p := Position(s, item);
    BeforeIsStrictOrder(s[p], item, s[p]);
    BeforeIsStrictOrder(item, s[p], s[k]);
  }

  lemma {:induction false} InsertedIsSorted(s: seq<Item>, item: Item, p: nat, r: seq<Item>)
    requires Canonical(s) && p <= |s| && r == InsertAt(s, p, item)
    requires (forall j | 0 <= j < p :: Before(s[j], item)) && forall k | p <= k < |s| :: Before(item, s[k])
    ensures Sorted(r)
  {
    forall i, j | 0 <= i < j < |r| ensures Before(r[i], r[j]) {
      assert r[i] == if i < p then s[i] else if i == p then item else s[i - 1];
      assert r[j] == if j < p then s[j] else if j == p then item else s[j - 1];
    }
  }

  lemma {:induction false} InsertedItems(s: seq<Item>, item: Item, p: nat, r: seq<Item>)
    requires p <= |s| && r == InsertAt(s, p, item)
    ensures forall x :: x in r <==> x in s || x == item
  {
    forall x | x in s ensures x in r {
      var k :| 0 <= k < |s| && s[k] == x;
      assert x == if k < p then r[k] else r[k + 1];
    }
    assert r[p] == item;
  }

  lemma {:induction false} InsertedIsUnique(s: seq<Item>, item: Item, p: nat, r: seq<Item>)
    requires UniqueMembers(s) && !Has(s, item.member) && p <= |s| && r == InsertAt(s, p, item)
    ensures UniqueMembers(r)
  {
    forall k | 0 <= k < |s| ensures s[k].member != item.member {
    }
    forall i, j | 0 <= i < j < |r| ensures r[i].member != r[j].member {
      assert r[i] == if i < p then s[i] else if i == p then item else s[i - 1];
      assert r[j] == if j < p then s[j] else if j == p then item else s[j - 1];
    }
  }

  lemma {:induction false} InsertedKeepsCanonical(s: seq<Item>, item: Item)
    requires Canonical(s) && !Has(s, item.member)
    ensures Canonical(Inserted(s, item))
    ensures forall x :: x in Inserted(s, item) <==> x in s || x == item
  {
    var p := Position(s, item);
    forall k | p <= k < |s| ensures Before(item, s[k]) {
      LowerThanTheRest(s, item, k);
    }
    InsertedIsSorted(s, item, p, Inserted(s, item));
    InsertedIsUnique(s, item, p, Inserted(s, item));
    InsertedItems(s, item, p, Inserted(s, item));
  }

  lemma {:induction false} PutKeepsCanonical(s: seq<Item>, item: Item)
    requires Canonical(s)
    ensures Canonical(Put(s, item))
    ensures forall x :: x in Put(s, item) <==> x == item || (x in s && x.member != item.member)
    ensures |Put(s, item)| == |s| + (if Has(s, item.member) then 0 else 1)
  {
    RemovedKeepsCanonical(s, item.member);
    InsertedKeepsCanonical(Removed(s, item.member), item);
  }

  // ----- what ZADD binds -----

  /** Item k is the last of the items with this member. */
  ghost predicate LastFor(items: seq<Item>, k: int, member: string) {
    0 <= k < |items| && items[k].member == member && forall j | k < j < |items| :: items[j].member != member
  }

  ghost predicate NoneFor(items: seq<Item>, member: string) {
    forall k | 0 <= k < |items| :: items[k].member != member
  }

  lemma {:induction false} TailNames(items: seq<Item>, member: string, k: nat)
    requires LastFor(items, k, member)
    ensures k > 0 ==> LastFor(items[1..], k - 1, member) && items[1..][k - 1] == items[k]
    ensures k == 0 ==> NoneFor(items[1..], member)
  {
    assert forall j | 0 <= j < |items| - 1 :: items[1..][j] == items[j + 1];
  }

  lemma {:induction false} NoneBinds(s: seq<Item>, items: seq<Item>, x: Item)
    requires Canonical(s) && NoneFor(items, x.member)
    ensures x in PutAll(s, items) <==> x in s
    decreases |items|
  {
    if items != [] {
      PutKeepsCanonical(s, items[0]);
      assert forall j | 0 <= j < |items| - 1 :: items[1..][j] == items[j + 1];
      NoneBinds(Put(s, items[0]), items[1..], x);
    }
  }

  /** Putting items leaves, for each member that they name, the last one. */
  lemma {:induction false} LastBinds(s: seq<Item>, items: seq<Item>, x: Item, k: nat)
    requires Canonical(s) && LastFor(items, k, x.member)
    ensures x in PutAll(s, items) <==> x == items[k]
    decreases |items|
  {
    PutKeepsCanonical(s, items[0]);
    TailNames(items, x.member, k);
    if k > 0 {
      LastBinds(Put(s, items[0]), items[1..], x, k - 1);
    } else {
      NoneBinds(Put(s, items[0]), items[1..], x);
    }
  }

  /** The pairs that ZADD reads: a score, and the member after it. */
  lemma {:induction false} PairsAre(atof: string -> real, args: seq<string>, i: nat, k: nat)
    ensures k < |PairsOf(atof, args, i)| <==> i + 2 * k + 1 < |args|
    ensures k < |PairsOf(atof, args, i)| ==>
      PairsOf(atof, args, i)[k] == Item(atof(args[i + 2 * k]), args[i + 2 * k + 1])
    decreases |args| - i
  {
    if i + 1 < |args| && k > 0 {
      PairsAre(atof, args, i + 2, k - 1);
    }
  }

  /** The member of pair k that ZADD reads. */
  predicate NamedAt(args: seq<string>, k: nat, member: string) {
    2 * k + 2 < |args| && args[2 * k + 2] == member
  }

  lemma {:induction false} NamedPair(atof: string -> real, args: seq<string>, pairs: seq<Item>, k: nat, member: string)
    requires pairs == PairsOf(atof, args, 1)
    ensures NamedAt(args, k, member) <==> k < |pairs| && pairs[k].member == member
    ensures NamedAt(args, k, member) ==> pairs[k].score == atof(args[2 * k + 1])
  {
    PairsAre(atof, args, 1, k);
  }

  /** After ZADD a member that it names has the score that stands before its last mention. */
  lemma {:induction false} ZAddBinds(s: seq<Item>, atof: string -> real, args: seq<string>, x: Item, k: nat)
    requires Canonical(s) && NamedAt(args, k, x.member) && forall j: nat | k < j :: !NamedAt(args, j, x.member)
    ensures x in PutAll(s, PairsOf(atof, args, 1)) <==> x.score == atof(args[2 * k + 1])
  {
    var pairs := PairsOf(atof, args, 1);
    NamedPair(atof, args, pairs, k, x.member);
    forall j | k < j < |pairs| ensures pairs[j].member != x.member {
      NamedPair(atof, args, pairs, j, x.member);
    }
    LastBinds(s, pairs, x, k);
  }

  /** A member that ZADD does not name stays as it was. */
  lemma {:induction false} ZAddKeeps(s: seq<Item>, atof: string -> real, args: seq<string>, x: Item)
    requires Canonical(s) && forall j: nat :: !NamedAt(args, j, x.member)
    ensures x in PutAll(s, PairsOf(atof, args, 1)) <==> x in s
  {
    var pairs := PairsOf(atof, args, 1);
    forall j | 0 <= j < |pairs| ensures pairs[j].member != x.member {
      NamedPair(atof, args, pairs, j, x.member);
    }
    NoneBinds(s, pairs, x);
  }

  // ----- whole histories -----

  datatype Op = ZAdd(items: seq<Item>) | ZRem(members: seq<string>)

  function Step(s: seq<Item>, op: Op): seq<Item> {
    match op
    case ZAdd(items) => PutAll(s, items)
    case ZRem(members) => RemovedAll(s, members)
  }

  function Run(s: seq<Item>, ops: seq<Op>): seq<Item>
    decreases |ops|
  {
    if ops == [] then s else Run(Step(s, ops[0]), ops[1..])
  }

  function PutAllMap(m: map<string, real>, items: seq<Item>): map<string, real>
    decreases |items|
  {
    if items == [] then m else PutAllMap(m[items[0].member := items[0].score], items[1..])
  }

  function StepMap(m: map<string, real>, op: Op): map<string, real> {
    match op
    case ZAdd(items) => PutAllMap(m, items)
    case ZRem(members) => m - (set x | x in members)
  }

  function RunMap(m: map<string, real>, ops: seq<Op>): map<string, real>
    decreases |ops|
  {
    if ops == [] then m else RunMap(StepMap(m, ops[0]), ops[1..])
  }

  /** The chain s stores exactly the bindings of m, in canonical form. */
  ghost predicate Represents(s: seq<Item>, m: map<string, real>) {
    && Canonical(s)
    && forall item :: item in s <==> item.member in m && m[item.member] == item.score
  }

  lemma {:induction false} CanonicalRepresentsScores(s: seq<Item>)
    requires Canonical(s)
    ensures Represents(s, Scores(s))
  {
    forall item ensures item in s <==> item.member in Scores(s) && Scores(s)[item.member] == item.score {
      ScoresMembership(s, item);
    }
  }

  lemma {:induction false} PutAllRefines(s: seq<Item>, m: map<string, real>, items: seq<Item>)
    requires Represents(s, m)
    ensures Represents(PutAll(s, items), PutAllMap(m, items))
    decreases |items|
  {
    if items != [] {
      PutKeepsCanonical(s, items[0]);
      PutAllRefines(Put(s, items[0]), m[items[0].member := items[0].score], items[1..]);
    }
  }

  /** Putting items changes a canonical chain exactly when it changes what its members score. */
  lemma {:induction false} PutAllKeepsIff(s: seq<Item>, items: seq<Item>)
    requires Canonical(s)
    ensures PutAll(s, items) == s <==> PutAllMap(Scores(s), items) == Scores(s)
  {
    var m := Scores(s);
    CanonicalRepresentsScores(s);
    PutAllRefines(s, m, items);
    if PutAllMap(m, items) == m {
      CanonicalIsUnique(PutAll(s, items), s);
    } else if PutAll(s, items) == s {
      SameChainSameMap(s, m, PutAllMap(m, items));
    }
  }

  lemma {:induction false} SameChainSameMap(s: seq<Item>, m: map<string, real>, m': map<string, real>)
    requires Represents(s, m) && Represents(s, m')
    ensures m == m'
  {
    forall x | x in m ensures x in m' && m'[x] == m[x] { assert Item(m[x], x) in s; }
    forall x | x in m' ensures x in m { assert Item(m'[x], x) in s; }
  }

  lemma {:induction false} RemovedAllRefines(s: seq<Item>, m: map<string, real>, members: seq<string>)
    requires Represents(s, m)
    ensures Represents(RemovedAll(s, members), m - (set x | x in members))
    decreases |members|
  {
    if members == [] {
      assert m - (set x | x in members) == m;
    } else {
      RemovedKeepsCanonical(s, members[0]);
      RemovedAllRefines(Removed(s, members[0]), m - {members[0]}, members[1..]);
      assert m - {members[0]} - (set x | x in members[1..]) == m - (set x | x in members);
    }
  }

  /** After any history the chain is in canonical form and stores exactly the map that the
      history computes. */
  lemma {:induction false} RunRefinesMap(s: seq<Item>, m: map<string, real>, ops: seq<Op>)
    requires Represents(s, m)
    ensures Represents(Run(s, ops), RunMap(m, ops))
    decreases |ops|
  {
    if ops != [] {
      match ops[0]
      case ZAdd(items) =>
        PutAllRefines(s, m, items);
        RunRefinesMap(Step(s, ops[0]), StepMap(m, ops[0]), ops[1..]);
      case ZRem(members) =>
        RemovedAllRefines(s, m, members);
        RunRefinesMap(Step(s, ops[0]), StepMap(m, ops[0]), ops[1..]);
    }
  }

  /** In a sorted chain each item is lower than every later one. */
  lemma {:induction false} SortedByScore(s: seq<Item>, i: nat, j: nat)
    requires Sorted(s) && i < j < |s|
    ensures s[i].score <= s[j].score
    ensures s[i].score == s[j].score ==> Precedes(s[i].member, s[j].member)
  {
    BeforeIffLower(s[i], s[j]);
  }

  /** The chain is determined by the abstract map: two histories from the empty set that leave
      the same map leave the same chain, whatever they did in between. */
  lemma {:induction false} HistoryIndependence(ops: seq<Op>, ops': seq<Op>)
    ensures Canonical(Run([], ops))
    ensures var s := Run([], ops);
            forall i, j | 0 <= i < j < |s| ::
              s[i].score <= s[j].score && (s[i].score == s[j].score ==> Precedes(s[i].member, s[j].member))
    ensures RunMap(map[], ops) == RunMap(map[], ops') <==> Run([], ops) == Run([], ops')
  {
    RunRefinesMap([], map[], ops);
    RunRefinesMap([], map[], ops');
    var s, t := Run([], ops), Run([], ops');
    forall i, j | 0 <= i < j < |s|
      ensures s[i].score <= s[j].score && (s[i].score == s[j].score ==> Precedes(s[i].member, s[j].member))
    {
      SortedByScore(s, i, j);
    }
    var m, m' := RunMap(map[], ops), RunMap(map[], ops');
    if m == m' {
      CanonicalIsUnique(s, t);
    }
    if s == t {
      SameChainSameMap(s, m, m');
    }
  }

  // ----- rank and range -----

  /** The members with a smaller score, or an equal score and a name that comes first as bytes. */
  ghost function Below(m: map<string, real>, member: string): set<string>
    requires member in m
  {
    set x | x in m && (m[x] < m[member] || (m[x] == m[member] && Precedes(x, member)))
  }

  ghost function MembersOf(s: seq<Item>): set<string> { set i | 0 <= i < |s| :: s[i].member }

  lemma {:induction false} MembersCount(s: seq<Item>)
    requires UniqueMembers(s)
    ensures |MembersOf(s)| == |s|
  {
    if s != [] {
      var n := |s| - 1;
      MembersCount(s[..n]);
      assert MembersOf(s) == MembersOf(s[..n]) + {s[n].member};
      assert s[n].member !in MembersOf(s[..n]);
    } else {
      assert MembersOf(s) == {};
    }
  }

  lemma {:induction false} BelowIsBefore(s: seq<Item>, m: map<string, real>, member: string, i: nat, x: string)
    requires Represents(s, m) && member in m && i < |s| && s[i] == Item(m[member], member)
    requires x in Below(m, member)
    ensures x in MembersOf(s[..i])
  {
    assert Item(m[x], x) in s;
    var j :| 0 <= j < |s| && s[j] == Item(m[x], x);
    BeforeIffLower(s[j], s[i]);
    BeforeIsStrictOrder(s[j], s[i], s[j]);
    assert s[..i][j].member == x;
  }

  lemma {:induction false} BeforeIsBelow(s: seq<Item>, m: map<string, real>, member: string, i: nat, x: string)
    requires Represents(s, m) && member in m && i < |s| && s[i] == Item(m[member], member)
    requires x in MembersOf(s[..i])
    ensures x in Below(m, member)
  {
    var j :| 0 <= j < i && s[..i][j].member == x;
    assert s[j] in s;
    BeforeIffLower(s[j], s[i]);
  }

  lemma {:induction false} IndexOfMember(s: seq<Item>, m: map<string, real>, member: string) returns (i: nat)
    requires Represents(s, m) && member in m
    ensures i == IndexOf(s, member) < |s| && s[i] == Item(m[member], member)
  {
    var item := Item(m[member], member);
    assert item in s;
    var k :| 0 <= k < |s| && s[k] == item;
    i := IndexOf(s, member);
    assert i == k;
  }

  /** The rank of a member is the number of members below it in (score, member) order, and
      ZRANGE from that rank to that rank returns exactly that member. */
  lemma {:induction false} RankCountsBelow(s: seq<Item>, m: map<string, real>, member: string)
    requires Represents(s, m) && member in m
    ensures IndexOf(s, member) == |Below(m, member)|
    ensures Slice(s, |Below(m, member)|, |Below(m, member)|) == [Item(m[member], member)]
  {
    var i := IndexOfMember(s, m, member);
    assert Below(m, member) == MembersOf(s[..i]) by {
      forall x | x in Below(m, member) ensures x in MembersOf(s[..i]) { BelowIsBefore(s, m, member, i, x); }
      forall x | x in MembersOf(s[..i]) ensures x in Below(m, member) { BeforeIsBelow(s, m, member, i, x); }
    }
    MembersCount(s[..i]);
  }

  /** Index a signed ZRANGE bound stands for: a negative bound counts from the end. */
  function Resolved(bound: int, len: nat): int {
    if bound < 0 then bound + len else bound
  }

  /** What handle_zrange returns: the clamped slice. */
  function Slice<T>(s: seq<T>, start: int, end: int): seq<T> {
    var lo := if Resolved(start, |s|) < 0 then 0 else Resolved(start, |s|);
    var hi := if Resolved(end, |s|) >= |s| then |s| - 1 else Resolved(end, |s|);
    if lo > hi || lo >= |s| then [] else s[lo..hi + 1]
  }

  /** The slice holds exactly the items whose index lies between the two bounds, in chain order,
      where a bound -k stands for the index of the k-th item from the end, with no clamping in
      the statement. */
  lemma {:induction false} SliceHoldsIndicesBetween<T>(s: seq<T>, start: int, end: int)
    ensures var n := |s|;
            Slice(s, start, end)
              == FilterIndices(s, if start < 0 then n + start else start, if end < 0 then n + end else end, n)
  {
    FilterIsSlice(s, Resolved(start, |s|), Resolved(end, |s|), |s|);
  }
}
