/** Whole RDB files: what a load leaves, and when that is what the file means. */
module RdbFiles {
  import opened CStrings
  import opened Tables
  import opened Rdb

  ghost predicate AllFit(records: seq<Record>) { forall r | r in records :: r.Fits() }

  lemma {:induction false} LoadSkipsHeader(header: seq<Byte>, body: seq<Byte>, t: Table<string>)
    requires |header| == 9 && |t| == TABLE_SIZE
    ensures Load(header + body, t) == LoadFrom(body, 0, t, 0)
  {
    assert (header + body)[9..] == body;
  }

  /** A load at start-up: nine bytes of any header, the records, and anything after the end marker. */
  lemma {:induction false} LoadsWhatIsRead(header: seq<Byte>, records: seq<Record>, tail: seq<Byte>)
    requires |header| == 9 && AllFit(records) && DistinctFrom(map[], KeysOf(records, false))
    ensures LoadsAs(Load(header + FileBody(records, tail), EmptyTable()), Bindings(map[], records, false),
                    |KeysOf(records, false)|)
  {
    assert Represents(EmptyTable<string>(), map[]);
    LoadSkipsHeader(header, FileBody(records, tail), EmptyTable());
    LoadInvertsEncode(records, tail, 0, EmptyTable(), map[], 0);
  }

  // ----- no key but those that are read -----

  ghost predicate Has(t: Table<string>, key: Key) { |t| == TABLE_SIZE && GetEntry(t, key).Some? }

  /** The keys of a chain, whatever becomes of the values and the expiry of its head. */
  lemma {:induction false} FindByKeys(a: seq<Entry<string>>, b: seq<Entry<string>>, key: string)
    requires |a| == |b| && forall i | 0 <= i < |a| :: a[i].key == b[i].key
    ensures Find(a, key) == Find(b, key)
  {
    if a != [] {
      assert forall i | 0 <= i < |a[1..]| :: a[1..][i].key == a[i + 1].key && b[1..][i].key == b[i + 1].key;
      FindByKeys(a[1..], b[1..], key);
    }
  }

  lemma {:induction false} FindAfterStored(chain: seq<Entry<string>>, entry: Entry<string>, key: string)
    ensures var r := Tables.Stored(chain, entry);
            Find(r, key) < |r| <==> key == entry.key || Find(chain, key) < |chain|
  {
    var i, r := Find(chain, entry.key), Tables.Stored(chain, entry);
    if i < |chain| {
      FindByKeys(r, chain, key);
    } else {
      assert r[1..] == chain;
    }
  }

  lemma {:induction false} StoreAddsOneKey(t: Table<string>, key: Key, val: string, expiry: int, other: Key)
    requires |t| == TABLE_SIZE
    ensures Has(StoreRecord(t, key, val, expiry), other) <==> other == key || Has(t, other)
  {
    var chain: seq<Entry<string>> := t[Bucket(key)];
    var stored: seq<Entry<string>> := Tables.Stored(chain, Entry(key, val, 0));
    assert Put(t, key, val, 0)[Bucket(key)] == stored;
    if Bucket(other) == Bucket(key) {
      FindAfterStored(chain, Entry(key, val, 0), other);
      FindByKeys(HeadExpirySet(stored, expiry), stored, other);
    }
  }

  /** A load ends, and leaves no key but those that it has read, even if it reads one twice. */
  lemma {:induction false} LoadAddsKeys(records: seq<Record>, tail: seq<Byte>, carried: int, t: Table<string>,
      count: nat, key: Key)
    requires AllFit(records) && |t| == TABLE_SIZE
    ensures LoadFrom(FileBody(records, tail), carried, t, count).Loaded?
    ensures Has(LoadFrom(FileBody(records, tail), carried, t, count).table, key) ==>
            key in KeysOf(records, false) || Has(t, key)
    decreases |records|
  {
    FileBodyUnfolds(records, tail);
    if records == [] {
      LoadEnd(tail, carried, t, count);
    } else {
      var r := records[0];
      assert r in records && forall u | u in records[1..] :: u in records;
      BindingsUnfold(map[], records, false);
      if r.StringRecord? {
        var first: Key, val, x := r.key.Text(false), r.val.Text(false), ExpiryWith(r, carried);
        LoadStringRecord(FileBody(records, tail), r, FileBody(records[1..], tail), first, carried, t, count);
        StoreAddsOneKey(t, first, val, x, key);
        LoadAddsKeys(records[1..], tail, -1, StoreRecord(t, first, val, x), count + 1, key);
      } else {
        LoadHeaderRecord(records, tail, carried, t, count);
        LoadAddsKeys(records[1..], tail, carried, t, count, key);
      }
    }
  }

  // ----- what is meant and what is read -----

  /** The keys and values of string records read as they are meant: none holds a NUL, or is a
      negative number in 8 or 16 bits. */
  ghost predicate AllReadAsMeant(records: seq<Record>) {
    forall r | r in records && r.StringRecord? :: r.key.ReadsAsMeant() && r.val.ReadsAsMeant()
  }

  lemma {:induction false} BeforeNulIs(s: string)
    ensures '\0' !in BeforeNul(s)
    ensures BeforeNul(s) == s <==> '\0' !in s
  {
    if s != "" && s[0] != '\0' {
      BeforeNulIs(s[1..]);
      assert BeforeNul(s)[1..] == BeforeNul(s[1..]);
      assert forall c | c in s :: c == s[0] || c in s[1..];
    }
  }

  lemma {:induction false} NoNulInNumbers(n: int)
    ensures '\0' !in DecInt(n)
  {
  }

  lemma {:induction false} TextsAgreeIff(t: EncodedText)
    requires t.Fits()
    ensures t.Text(true) == t.Text(false) <==> t.ReadsAsMeant()
  {
    match t
    case Plain(_, text) => BeforeNulIs(text);
    case Integer(form, n) =>
      AtoiOfDecInt(n);
      AtoiOfDecInt(AsRead(form, n));
  }

  /** What a misread string means reads from no string that means something else and holds no NUL. */
  lemma {:induction false} TextsCollide(t: EncodedText, u: EncodedText)
    requires t.Fits() && u.Fits() && !t.ReadsAsMeant() && u.Text(false) == t.Text(true)
    requires u.Plain? ==> '\0' !in u.text
    ensures u.Text(true) == t.Text(true)
  {
    match u
    case Plain(_, text) => BeforeNulIs(text);
    case Integer(form, n) =>
      NoNulInNumbers(AsRead(form, n));
      if t.Integer? {
        AtoiOfDecInt(t.n);
        AtoiOfDecInt(AsRead(form, n));
      }
  }

  lemma {:induction false} NoNulIsRead(t: EncodedText)
    ensures '\0' !in t.Text(false)
  {
    match t
    case Plain(_, text) => BeforeNulIs(text);
    case Integer(form, n) => NoNulInNumbers(AsRead(form, n));
  }

  lemma {:induction false} KeyIsListed(records: seq<Record>, meant: bool, key: string)
    ensures key in KeysOf(records, meant) <==> exists r :: r in records && r.StringRecord? && r.key.Text(meant) == key
  {
    if records != [] {
      KeyIsListed(records[1..], meant, key);
      assert forall r :: r in records <==> r == records[0] || r in records[1..];
    }
  }

  lemma {:induction false} DistinctRest(m: map<string, Entry<string>>, keys: seq<string>, entry: Entry<string>)
    requires keys != [] && DistinctFrom(m, keys)
    ensures keys[0] !in m && keys[0] !in keys[1..] && DistinctFrom(m[keys[0] := entry], keys[1..])
  {
    assert forall i | 0 <= i < |keys[1..]| :: keys[1..][i] == keys[i + 1];
  }

  lemma {:induction false} BindingsKeep(m: map<string, Entry<string>>, records: seq<Record>, meant: bool, key: string)
    requires key !in KeysOf(records, meant)
    ensures key in Bindings(m, records, meant) <==> key in m
    ensures key in m ==> Bindings(m, records, meant)[key] == m[key]
    decreases |records|
  {
    if records != [] {
      BindingsUnfold(m, records, meant);
      if records[0].StringRecord? {
        var first := records[0].key.Text(meant);
        assert first in KeysOf(records, meant);
        BindingsKeep(m[first := EntryOf(records[0], meant)], records[1..], meant, key);
      } else {
        BindingsKeep(m, records[1..], meant, key);
      }
    }
  }

  lemma {:induction false} BindingOf(m: map<string, Entry<string>>, records: seq<Record>, meant: bool, r: Record)
    requires DistinctFrom(m, KeysOf(records, meant)) && r in records && r.StringRecord?
    ensures r.key.Text(meant) in Bindings(m, records, meant)
    ensures Bindings(m, records, meant)[r.key.Text(meant)] == EntryOf(r, meant)
    decreases |records|
  {
    BindingsUnfold(m, records, meant);
    if records[0].StringRecord? {
      var first := records[0].key.Text(meant);
      var m' := m[first := EntryOf(records[0], meant)];
      DistinctRest(m, KeysOf(records, meant), EntryOf(records[0], meant));
      if r == records[0] {
        BindingsKeep(m', records[1..], meant, first);
      } else {
        BindingOf(m', records[1..], meant, r);
      }
    } else {
      BindingOf(m, records[1..], meant, r);
    }
  }

  lemma {:induction false} OneRecordAKey(m: map<string, Entry<string>>, records: seq<Record>, meant: bool, r: Record,
      u: Record)
    requires DistinctFrom(m, KeysOf(records, meant)) && r.StringRecord? && u.StringRecord?
    requires r in records && u in records && r.key.Text(meant) == u.key.Text(meant)
    ensures r == u
    decreases |records|
  {
    BindingsUnfold(m, records, meant);
    if records[0].StringRecord? {
      var first, entry := records[0].key.Text(meant), EntryOf(records[0], meant);
      DistinctRest(m, KeysOf(records, meant), entry);
      KeyIsListed(records[1..], meant, first);
      if r != records[0] && u != records[0] {
        OneRecordAKey(m[first := entry], records[1..], meant, r, u);
      } else {
        assert first !in KeysOf(records[1..], meant);
      }
    } else {
      OneRecordAKey(m, records[1..], meant, r, u);
    }
  }

  /** Records whose keys read as they are meant have the same keys either way. */
  lemma {:induction false} SameKeys(records: seq<Record>)
    requires AllFit(records) && forall r | r in records && r.StringRecord? :: r.key.ReadsAsMeant()
    ensures KeysOf(records, true) == KeysOf(records, false)
  {
    if records != [] {
      assert records[0] in records && forall r | r in records[1..] :: r in records;
      SameKeys(records[1..]);
      if records[0].StringRecord? {
        TextsAgreeIff(records[0].key);
      }
    }
  }

  lemma {:induction false} SameBindings(m: map<string, Entry<string>>, records: seq<Record>)
    requires AllFit(records) && AllReadAsMeant(records)
    ensures Bindings(m, records, true) == Bindings(m, records, false)
    decreases |records|
  {
    if records != [] {
      BindingsUnfold(m, records, true);
      BindingsUnfold(m, records, false);
      assert records[0] in records && forall r | r in records[1..] :: r in records;
      if records[0].StringRecord? {
        TextsAgreeIff(records[0].key);
        TextsAgreeIff(records[0].val);
        SameBindings(m[records[0].key.Text(true) := EntryOf(records[0], true)], records[1..]);
      } else {
        SameBindings(m, records[1..]);
      }
    }
  }

  ghost predicate HoldsNul(t: EncodedText) { t.Plain? && '\0' in t.text }

  /** What a misread key means is read from no record, unless another key holds a NUL. */
  lemma {:induction false} MisreadKeyIsNotRead(records: seq<Record>, r: Record)
    requires AllFit(records) && DistinctFrom(map[], KeysOf(records, true))
    requires r in records && r.StringRecord? && !r.key.ReadsAsMeant()
    requires HoldsNul(r.key) || forall u | u in records && u.StringRecord? :: !HoldsNul(u.key)
    ensures r.key.Text(true) !in KeysOf(records, false)
  {
    var key := r.key.Text(true);
    KeyIsListed(records, false, key);
    if key in KeysOf(records, false) {
      var u :| u in records && u.StringRecord? && u.key.Text(false) == key;
      NoNulIsRead(u.key);
      TextsCollide(r.key, u.key);
      TextsAgreeIff(r.key);
      OneRecordAKey(map[], records, true, r, u);
    }
  }

  lemma {:induction false} HeldKey(t: Table<string>, m: map<string, Entry<string>>, key: string)
    requires Holds(t, m) && key in m
    ensures Indexes(key) && Has(t, key)
  {
    var k: Key := key;
    assert GetEntry(t, k) == Some(m[k]);
  }

  /** If some key is misread, the load leaves a meant key out. */
  lemma {:induction false} MisreadKeyIsMissing(header: seq<Byte>, records: seq<Record>, tail: seq<Byte>, r: Record)
    requires |header| == 9 && AllFit(records) && DistinctFrom(map[], KeysOf(records, true))
    requires r in records && r.StringRecord? && !r.key.ReadsAsMeant()
    requires HoldsNul(r.key) || forall u | u in records && u.StringRecord? :: !HoldsNul(u.key)
    ensures var o := Load(header + FileBody(records, tail), EmptyTable());
            o.Loaded? && !Holds(o.table, Bindings(map[], records, true))
  {
    var o := Load(header + FileBody(records, tail), EmptyTable());
    LoadSkipsHeader(header, FileBody(records, tail), EmptyTable());
    LoadAddsKeys(records, tail, 0, EmptyTable(), 0, "");
    var meant := Bindings(map[], records, true);
    if Holds(o.table, meant) {
      BindingOf(map[], records, true, r);
      HeldKey(o.table, meant, r.key.Text(true));
      MisreadKeyIsNotRead(records, r);
      LoadAddsKeys(records, tail, 0, EmptyTable(), 0, r.key.Text(true));
    }
  }

  /** A table represents one map only. */
  lemma {:induction false} HoldsOne(t: Table<string>, m: map<string, Entry<string>>, m': map<string, Entry<string>>)
    requires Holds(t, m) && Holds(t, m')
    ensures m == m'
  {
    forall key: string ensures key in m <==> key in m'
      ensures key in m ==> m[key] == m'[key]
    {
      if Indexes(key) {
        var k: Key := key;
        assert GetEntry(t, k) == if k in m then Some(m[k]) else None;
      }
    }
  }

  /** With keys that read as they are meant, the load leaves what is meant exactly when the values
      do too. */
  lemma {:induction false} ValuesDecide(header: seq<Byte>, records: seq<Record>, tail: seq<Byte>)
    requires |header| == 9 && AllFit(records) && DistinctFrom(map[], KeysOf(records, true))
    requires forall r | r in records && r.StringRecord? :: r.key.ReadsAsMeant()
    ensures var o := Load(header + FileBody(records, tail), EmptyTable());
            o.Loaded? && (Holds(o.table, Bindings(map[], records, true)) <==> AllReadAsMeant(records))
  {
    var o := Load(header + FileBody(records, tail), EmptyTable());
    var meant, read := Bindings(map[], records, true), Bindings(map[], records, false);
    SameKeys(records);
    LoadsWhatIsRead(header, records, tail);
    if AllReadAsMeant(records) {
      SameBindings(map[], records);
    } else if Holds(o.table, meant) {
      HoldsOne(o.table, meant, read);
      var r :| r in records && r.StringRecord? && !r.val.ReadsAsMeant();
      BindingOf(map[], records, true, r);
      BindingOf(map[], records, false, r);
      TextsAgreeIff(r.key);
      TextsAgreeIff(r.val);
    }
  }

  /** Loading a file whose records mean distinct keys leaves the keyspace that the file means
      exactly when no key or value of its string records holds a NUL byte or is a negative number
      in 8 or 16 bits. */
  lemma {:induction false} LoadIsMeantIff(header: seq<Byte>, records: seq<Record>, tail: seq<Byte>)
    requires |header| == 9 && AllFit(records) && DistinctFrom(map[], KeysOf(records, true))
    ensures var o := Load(header + FileBody(records, tail), EmptyTable());
            o.Loaded? && (Holds(o.table, Bindings(map[], records, true)) <==> AllReadAsMeant(records))
  {
    if forall r | r in records && r.StringRecord? :: r.key.ReadsAsMeant() {
      ValuesDecide(header, records, tail);
    } else if r :| r in records && r.StringRecord? && HoldsNul(r.key) {
      MisreadKeyIsMissing(header, records, tail, r);
    } else {
      var r :| r in records && r.StringRecord? && !r.key.ReadsAsMeant();
      MisreadKeyIsMissing(header, records, tail, r);
    }
  }
}
