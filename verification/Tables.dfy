/** The keyspace of utils.c as values: 1024 buckets, each a chain of entries, and how the
    store functions edit them. */
module Tables {
  import opened Seqs

  datatype Option<+T> = None | Some(value: T)

  const TABLE_SIZE := 1024

  // ----- hash -----

  /** A plain char is signed: bytes from 128 up are negative. */
  function SignedChar(c: char): int {
    if c as int < 128 then c as int else c as int - 256
  }

  /** The % of C, which truncates toward zero. */
  function Remainder(a: int, m: nat): (r: int)
    requires m > 0
    ensures 0 - m < r < m && (a >= 0 ==> 0 <= r)
  {
    if a >= 0 then a % m else 0 - (-a) % m
  }

  function HashFrom(h: int, key: string): int
    decreases |key|
  {
    if key == [] then h else HashFrom(Remainder(h * 31 + SignedChar(key[0]), TABLE_SIZE), key[1..])
  }

  function Hash(key: string): int { HashFrom(0, key) }

  predicate Ascii(key: string) { forall c | c in key :: c as int < 128 }

  lemma {:induction false} HashStaysInTable(h: int, key: string)
    requires -TABLE_SIZE < h < TABLE_SIZE
    ensures -TABLE_SIZE < HashFrom(h, key) < TABLE_SIZE
    ensures h >= 0 && Ascii(key) ==> HashFrom(h, key) >= 0
    decreases |key|
  {
    if key != [] {
      assert key[0] in key && forall c | c in key[1..] :: c in key;
      HashStaysInTable(Remainder(h * 31 + SignedChar(key[0]), TABLE_SIZE), key[1..]);
    }
  }

  /** The key's hash is an index of the table. */
  predicate Indexes(key: string) { 0 <= Hash(key) }

  lemma {:induction false} AsciiIndexes(key: string)
    requires Ascii(key)
    ensures Indexes(key)
  {
    HashStaysInTable(0, key);
  }

  lemma {:induction false} HashOfLonger(h: int, key: string, c: char)
    ensures HashFrom(h, key + [c]) == Remainder(HashFrom(h, key) * 31 + SignedChar(c), TABLE_SIZE)
    decreases |key|
  {
    if key == [] {
      assert [] + [c] == [c] && [c][1..] == [];
    } else {
      assert (key + [c])[1..] == key[1..] + [c];
      HashOfLonger(Remainder(h * 31 + SignedChar(key[0]), TABLE_SIZE), key[1..], c);
    }
  }

  lemma {:induction false} RemainderSign(a: int)
    ensures Remainder(a, TABLE_SIZE) >= 0 <==> a >= 0 || (-a) % TABLE_SIZE == 0
  {
  }

  /** Which keys index the table: those whose last step, from the hash of the rest, is not
      negative or is a multiple of 1024. */
  lemma {:induction false} IndexesIff(key: string, c: char)
    ensures Indexes(key + [c]) <==>
      Hash(key) * 31 + SignedChar(c) >= 0 || (-(Hash(key) * 31 + SignedChar(c))) % 1024 == 0
  {
    HashOfLonger(0, key, c);
    RemainderSign(Hash(key) * 31 + SignedChar(c));
  }

  /** A byte from 128 up alone is outside, and after an 'a' it may be inside. */
  lemma {:induction false} HighBytesMayIndex()
    ensures !Indexes([255 as char]) && Indexes(['a', 255 as char])
  {
    assert ['a', 255 as char] == ['a'] + [255 as char] && [255 as char] == [] + [255 as char];
    assert ['a'] == [] + ['a'];
    HashOfLonger(0, [], 'a');
    IndexesIff(['a'], 255 as char);
    IndexesIff([], 255 as char);
  }

  /** A key that the table can hold; its bucket. */
  type Key = k: string | Indexes(k) witness ""

  function Bucket(key: Key): (b: nat)
    ensures b < TABLE_SIZE
  {
    HashStaysInTable(0, key);
    Hash(key)
  }

  // ----- chains -----

  datatype Entry<V> = Entry(key: string, value: V, expiresAt: int)

  /** Where a key first occurs in a chain, or the length of the chain. */
  function Find<V>(chain: seq<Entry<V>>, key: string): (i: nat)
    ensures i <= |chain|
    ensures forall j | 0 <= j < i :: chain[j].key != key
    ensures i < |chain| ==> chain[i].key == key
  {
    if chain == [] || chain[0].key == key then 0 else 1 + Find(chain[1..], key)
  }

  /** store_set: overwrite the entry of the key in place, or put a new one at the head. */
  function Stored<V>(chain: seq<Entry<V>>, entry: Entry<V>): seq<Entry<V>> {
    var i := Find(chain, entry.key);
    if i < |chain| then chain[i := entry] else InsertAt(chain, 0, entry)
  }

  /** store_set_list, store_set_stream and store_set_zset: reuse the head of the bucket,
      whichever key it holds. */
  function HeadReplaced<V>(chain: seq<Entry<V>>, entry: Entry<V>): seq<Entry<V>> {
    if chain == [] then [entry] else chain[0 := entry]
  }

  ghost predicate UniqueKeys<V>(chain: seq<Entry<V>>) {
    forall i, j | 0 <= i < j < |chain| :: chain[i].key != chain[j].key
  }

  // ----- tables -----

  type Table<V> = seq<seq<Entry<V>>>

  function EmptyTable<V>(): (t: Table<V>)
    ensures WellFormed(t)
  {
    seq(TABLE_SIZE, i => [])
  }

  /** Every entry lies in the bucket of its key, and no chain repeats a key. */
  ghost predicate WellFormed<V>(t: Table<V>) {
    && |t| == TABLE_SIZE
    && (forall b | 0 <= b < TABLE_SIZE :: UniqueKeys(t[b]))
    && (forall b, i | 0 <= b < TABLE_SIZE && 0 <= i < |t[b]| :: Indexes(t[b][i].key) && Hash(t[b][i].key) == b)
  }

  /** store_getEntry */
  function GetEntry<V>(t: Table<V>, key: Key): Option<Entry<V>>
    requires |t| == TABLE_SIZE
  {
    var chain := t[Bucket(key)];
    var i := Find(chain, key);
    if i < |chain| then Some(chain[i]) else None
  }

  predicate Expired<V>(entry: Entry<V>, now: int) {
    entry.expiresAt != 0 && now >= entry.expiresAt
  }

  /** store_get at the given clock */
  function Get<V>(t: Table<V>, key: Key, now: int): Option<V>
    requires |t| == TABLE_SIZE
  {
    match GetEntry(t, key)
    case Some(e) => if Expired(e, now) then None else Some(e.value)
    case None => None
  }

  datatype TimeFlag = EX | PX | NoTimeFlag

  /** The expires_at that store_set computes. */
  function ExpiryOf(flag: TimeFlag, seconds: int, now: int): int {
    if seconds == -1 then 0
    else match flag
      case EX => now + seconds * 1000
      case PX => now + seconds
      case NoTimeFlag => 0
  }

  function Put<V>(t: Table<V>, key: Key, value: V, expiresAt: int): (r: Table<V>)
    requires |t| == TABLE_SIZE
    ensures |r| == TABLE_SIZE
  {
    t[Bucket(key) := Stored(t[Bucket(key)], Entry(key, value, expiresAt))]
  }

  function PutHead<V>(t: Table<V>, key: Key, value: V): (r: Table<V>)
    requires |t| == TABLE_SIZE
    ensures |r| == TABLE_SIZE
  {
    t[Bucket(key) := HeadReplaced(t[Bucket(key)], Entry(key, value, 0))]
  }

  function HeadExpirySet<V>(chain: seq<Entry<V>>, ms: int): seq<Entry<V>> {
    if chain == [] then [] else chain[0 := chain[0].(expiresAt := ms)]
  }

  /** table[hash(key)]->expires_at = ms, as the RDB loader writes it */
  function SetHeadExpiry<V>(t: Table<V>, key: Key, ms: int): (r: Table<V>)
    requires |t| == TABLE_SIZE
    ensures |r| == TABLE_SIZE
  {
    t[Bucket(key) := HeadExpirySet(t[Bucket(key)], ms)]
  }

  // ----- refinement to a map -----

  /** The table binds exactly the keys of m, each to its entry. */
  ghost predicate Represents<V(!new)>(t: Table<V>, m: map<Key, Entry<V>>) {
    && WellFormed(t)
    && (forall key: Key :: GetEntry(t, key) == if key in m then Some(m[key]) else None)
  }

  /** What storing an entry under its key does to a lookup of any key. */
  ghost predicate StoredFor<V(!new)>(r: seq<Entry<V>>, chain: seq<Entry<V>>, entry: Entry<V>, key: string) {
    if key == entry.key then Find(r, key) < |r| && r[Find(r, key)] == entry
    else if Find(chain, key) < |chain| then Find(r, key) < |r| && r[Find(r, key)] == chain[Find(chain, key)]
    else Find(r, key) == |r|
  }

  lemma {:induction false} OverwrittenChain<V(!new)>(chain: seq<Entry<V>>, entry: Entry<V>, key: string)
    requires UniqueKeys(chain) && Find(chain, entry.key) < |chain|
    ensures var r := chain[Find(chain, entry.key) := entry];
            UniqueKeys(r) && (forall e | e in r :: e == entry || e in chain) && StoredFor(r, chain, entry, key)
  {
    var r := chain[Find(chain, entry.key) := entry];
    assert forall k | 0 <= k < |r| :: r[k].key == chain[k].key;
    FindIs(r, key, Find(chain, key));
  }

  lemma {:induction false} ExtendedChain<V(!new)>(chain: seq<Entry<V>>, entry: Entry<V>, key: string)
    requires UniqueKeys(chain) && Find(chain, entry.key) == |chain|
    ensures var r := InsertAt(chain, 0, entry);
            UniqueKeys(r) && (forall e | e in r :: e == entry || e in chain) && StoredFor(r, chain, entry, key)
  {
    FindIs(InsertAt(chain, 0, entry), key, if key == entry.key then 0 else Find(chain, key) + 1);
  }

  lemma {:induction false} StoredKeepsChain<V(!new)>(chain: seq<Entry<V>>, entry: Entry<V>, key: string)
    requires UniqueKeys(chain)
    ensures UniqueKeys(Stored(chain, entry))
    ensures forall e | e in Stored(chain, entry) :: e == entry || e in chain
    ensures StoredFor(Stored(chain, entry), chain, entry, key)
  {
    if Find(chain, entry.key) < |chain| {
      OverwrittenChain(chain, entry, key);
    } else {
      ExtendedChain(chain, entry, key);
    }
  }

  lemma {:induction false} FindIs<V>(chain: seq<Entry<V>>, key: string, i: nat)
    requires i <= |chain| && (i < |chain| ==> chain[i].key == key)
    requires forall j | 0 <= j < i :: chain[j].key != key
    ensures Find(chain, key) == i
  {
  }

  lemma {:induction false} PutKeepsWellFormed<V(!new)>(t: Table<V>, key: Key, value: V, expiresAt: int)
    requires WellFormed(t)
    ensures WellFormed(Put(t, key, value, expiresAt))
  {
    var b := Bucket(key);
    var chain: seq<Entry<V>> := Put(t, key, value, expiresAt)[b];
    StoredKeepsChain(t[b], Entry(key, value, expiresAt), key);
    forall i | 0 <= i < |chain| ensures Indexes(chain[i].key) && Hash(chain[i].key) == b {
      assert chain[i] in chain;
    }
  }

  lemma {:induction false} PutRefinesMap<V(!new)>(t: Table<V>, m: map<Key, Entry<V>>, key: Key, value: V,
      expiresAt: int)
    requires Represents(t, m)
    ensures Represents(Put(t, key, value, expiresAt), m[key := Entry(key, value, expiresAt)])
  {
    var b, entry := Bucket(key), Entry(key, value, expiresAt);
    PutKeepsWellFormed(t, key, value, expiresAt);
    forall k: Key
      ensures GetEntry(Put(t, key, value, expiresAt), k) == if k == key then Some(entry) else GetEntry(t, k)
    {
      StoredKeepsChain(t[b], entry, k);
    }
  }

  /** One store_set. */
  datatype SetCall<V> = SetCall(key: Key, value: V, flag: TimeFlag, seconds: int, now: int)

  function Run<V>(t: Table<V>, calls: seq<SetCall<V>>): Table<V>
    requires |t| == TABLE_SIZE
    decreases |calls|
  {
    if calls == [] then t
    else
      var c := calls[0];
      Run(Put(t, c.key, c.value, ExpiryOf(c.flag, c.seconds, c.now)), calls[1..])
  }

  /** The last call on each key decides: a map is all that a run leaves behind. */
  function RunMap<V>(m: map<Key, Entry<V>>, calls: seq<SetCall<V>>): map<Key, Entry<V>>
    decreases |calls|
  {
    if calls == [] then m
    else
      var c := calls[0];
      RunMap(m[c.key := Entry(c.key, c.value, ExpiryOf(c.flag, c.seconds, c.now))], calls[1..])
  }

  lemma {:induction false} RunRefinesMap<V(!new)>(t: Table<V>, m: map<Key, Entry<V>>, calls: seq<SetCall<V>>)
    requires Represents(t, m)
    ensures Represents(Run(t, calls), RunMap(m, calls))
    decreases |calls|
  {
    if calls != [] {
      var c := calls[0];
      var e := ExpiryOf(c.flag, c.seconds, c.now);
      PutRefinesMap(t, m, c.key, c.value, e);
      RunRefinesMap(Put(t, c.key, c.value, e), m[c.key := Entry(c.key, c.value, e)], calls[1..]);
    }
  }

  /** The table after any run of store_set from start-up: entries in their buckets, no key
      twice in a chain, store_getEntry is the plain map, and store_get is the plain map
      without the bindings that have expired at the given clock. */
  lemma {:induction false} TableRefinement<V(!new)>(calls: seq<SetCall<V>>, key: Key, now: int)
    ensures var t, m := Run<V>(EmptyTable(), calls), RunMap<V>(map[], calls);
            && WellFormed(t)
            && (GetEntry(t, key) == if key in m then Some(m[key]) else None)
            && (Get(t, key, now) == if key in m && !Expired(m[key], now) then Some(m[key].value) else None)
  {
    var t: Table<V> := EmptyTable();
    assert Represents(t, map[]);
    RunRefinesMap(t, map[], calls);
  }

  /** Storing a list, stream or sorted set under a new key acts as a map update exactly when
      the bucket is empty; otherwise the key that headed the bucket is lost. */
  lemma {:induction false} PutHeadRefinesMapIffBucketEmpty<V(!new)>(t: Table<V>, m: map<Key, Entry<V>>, key: Key,
      value: V)
    requires Represents(t, m) && key !in m
    ensures Represents(PutHead(t, key, value), m[key := Entry(key, value, 0)]) <==> t[Bucket(key)] == []
    ensures t[Bucket(key)] != [] ==>
      var lost := t[Bucket(key)][0].key; lost in m && GetEntry(PutHead(t, key, value), lost) == None
  {
    var b, entry := Bucket(key), Entry(key, value, 0);
    var r: Table<V> := PutHead(t, key, value);
    if t[b] == [] {
      assert Stored(t[b], entry) == [entry];
      PutRefinesMap(t, m, key, value, 0);
      assert r == Put(t, key, value, 0);
    } else {
      var lost: Key := t[b][0].key;
      FindIs(t[b], lost, 0);
      assert GetEntry(t, lost).Some?;
      assert lost != key;
      var chain: seq<Entry<V>> := r[b];
      assert forall i | 0 <= i < |chain| :: chain[i].key != lost;
      assert GetEntry(r, lost) == None;
      assert lost in m[key := entry];
    }
  }
}
