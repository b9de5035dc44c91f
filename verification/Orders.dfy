/** Two commands in two orders: one server carries out b and then a, and elsewhere, at other times
    and with nobody blocked, their records are carried out as a and then b. When do they end alike? */
module Orders {
  import opened Seqs
  import opened Commands
  import opened Resp
  import opened Tables
  import opened Effects
  import opened Keyspace

  /** The two ends: b, then a, in their own surroundings; the records of a, then of b. */
  function Here(t: Keys, a: Issued, b: Issued): Effect
    requires |t| == TABLE_SIZE
  {
    match Apply(t, b.request, b.env)
    case Crash => Crash
    case Done(u) => Apply(u, a.request, a.env)
  }

  function There(t: Keys, a: Request, b: Request, forA: Env, forB: Env): Effect
    requires |t| == TABLE_SIZE
  {
    match CarriedOut(t, a, forA)
    case Crash => Crash
    case Done(u) => CarriedOut(u, b, forB)
  }

  // ----- different buckets -----

  /** The commands do not touch keys of one bucket. */
  predicate Apart(a: Request, b: Request) {
    Touches(a) && Touches(b) && KeyGiven(a) && KeyGiven(b) ==> Bucket(a.args[0]) != Bucket(b.args[0])
  }

  /** What a command does to its bucket is decided by the bucket. */
  lemma {:induction false} ApplyInBucket(t: Keys, u: Keys, req: Request, env: Env)
    requires |t| == |u| == TABLE_SIZE && Touches(req) && KeyGiven(req)
    requires t[Bucket(req.args[0])] == u[Bucket(req.args[0])]
    ensures Apply(t, req, env).Done? <==> Apply(u, req, env).Done?
    ensures Apply(t, req, env).Done? ==>
      var k := Bucket(req.args[0]);
      && Apply(u, req, env).table == u[k := Apply(t, req, env).table[k]]
      && Apply(t, req, env).table == t[k := Apply(t, req, env).table[k]]
  {
  }

  lemma {:induction false} CarriedOutInBucket(t: Keys, u: Keys, req: Request, env: Env)
    requires |t| == |u| == TABLE_SIZE && Touches(req) && KeyGiven(req)
    requires t[Bucket(req.args[0])] == u[Bucket(req.args[0])] && CarriedOut(t, req, env).Done?
    ensures CarriedOut(u, req, env).Done?
    ensures var k := Bucket(req.args[0]);
            && CarriedOut(u, req, env).table == u[k := CarriedOut(t, req, env).table[k]]
            && CarriedOut(t, req, env).table == t[k := CarriedOut(t, req, env).table[k]]
  {
    if Unrecorded(req.cmd) {
      var k := Bucket(req.args[0]);
      assert u[k := u[k]] == u && t[k := t[k]] == t;
    } else {
      ApplyInBucket(t, u, req, env);
    }
  }

  lemma {:induction false} Untouched(t: Keys, req: Request, env: Env)
    requires |t| == TABLE_SIZE && !Touches(req)
    ensures Apply(t, req, env) == Done(t) && CarriedOut(t, req, env) == Done(t)
  {
  }

  lemma {:induction false} TwoPlaces<X>(t: seq<X>, i: nat, j: nat, x: X, y: X, x': X, y': X)
    requires i < |t| && j < |t| && i != j
    ensures t[j := y][i := x] == t[i := x'][j := y'] <==> x == x' && y == y'
  {
    var l, r := t[j := y][i := x], t[i := x'][j := y'];
    assert l[i] == x && l[j] == y && r[i] == x' && r[j] == y';
    if x == x' && y == y' {
      assert forall k | 0 <= k < |t| :: l[k] == r[k];
    }
  }

  lemma {:induction false} OnePlace<X>(t: seq<X>, i: nat, x: X, y: X)
    requires i < |t|
    ensures t[i := x] == t[i := y] <==> x == y
  {
    assert t[i := x][i] == x && t[i := y][i] == y;
  }

  lemma {:induction false} ApartBuckets(t: Keys, a: Issued, b: Issued, forA: Env, forB: Env)
    requires |t| == TABLE_SIZE && Touches(a.request) && Touches(b.request) && Apart(a.request, b.request)
    requires Here(t, a, b).Done? && !forA.served && !forB.served
    ensures There(t, a.request, b.request, forA, forB).Done?
    ensures Here(t, a, b) == There(t, a.request, b.request, forA, forB)
       <==> Repeats(t, a.request, a.env, forA) && Repeats(t, b.request, b.env, forB)
  {
    var i, j := Bucket(a.request.args[0]), Bucket(b.request.args[0]);
    var u := Apply(t, b.request, b.env).table;
    ApplyIsLocal(t, b.request, b.env, i);
    ApplyInBucket(t, t, b.request, b.env);
    ApplyInBucket(t, u, a.request, a.env);
    RepeatsIff(t, a.request, a.env, forA);
    RepeatsIff(t, b.request, b.env, forB);
    CarriedOutInBucket(t, t, a.request, forA);
    var v := CarriedOut(t, a.request, forA).table;
    CarriedOutInBucket(t, v, b.request, forB);
    var x, y := Apply(t, a.request, a.env).table[i], u[j];
    var x', y' := v[i], CarriedOut(t, b.request, forB).table[j];
    TwoPlaces(t, i, j, x, y, x', y');
    OnePlace(t, i, x, x');
    OnePlace(t, j, y, y');
  }

  /** Commands that are apart end alike exactly when both repeat on the table that they start from:
      their order makes no difference. */
  lemma {:induction false} ApartIff(t: Keys, a: Issued, b: Issued, forA: Env, forB: Env)
    requires |t| == TABLE_SIZE && Apart(a.request, b.request)
    requires Here(t, a, b).Done? && !forA.served && !forB.served
    ensures There(t, a.request, b.request, forA, forB).Done?
    ensures Here(t, a, b) == There(t, a.request, b.request, forA, forB)
       <==> Repeats(t, a.request, a.env, forA) && Repeats(t, b.request, b.env, forB)
  {
    if !Touches(b.request) {
      Untouched(t, b.request, b.env);
      RepeatsIff(t, a.request, a.env, forA);
      Untouched(CarriedOut(t, a.request, forA).table, b.request, forB);
    } else if !Touches(a.request) {
      Untouched(Apply(t, b.request, b.env).table, a.request, a.env);
      Untouched(t, a.request, forA);
      RepeatsIff(t, b.request, b.env, forB);
    } else {
      ApartBuckets(t, a, b, forA, forB);
    }
  }

  // ----- the same key -----

  /** The chain with this entry under the key: in its place, in front, or in place of the head. */
  function Settled(chain: seq<Entry<Value>>, key: string, x: Entry<Value>, create: bool): seq<Entry<Value>> {
    var i := Find(chain, key);
    if i < |chain| then chain[i := x]
    else if create then HeadReplaced(chain, x)
    else InsertAt(chain, 0, x)
  }

  /** The chain that ends with this entry under the key, if any. */
  function Ended(chain: seq<Entry<Value>>, key: string, x: Option<Entry<Value>>, create: bool): seq<Entry<Value>> {
    if x.None? then chain else Settled(chain, key, x.value, create)
  }

  lemma {:induction false} SettledOnce(chain: seq<Entry<Value>>, key: string, x: Entry<Value>, y: Entry<Value>,
      create: bool)
    ensures Settled(chain, key, x, create) == Settled(chain, key, y, create) <==> x == y
  {
    var i := Find(chain, key);
    var j := if i < |chain| then i else 0;
    assert Settled(chain, key, x, create)[j] == x && Settled(chain, key, y, create)[j] == y;
  }

  lemma {:induction false} SettledTwice(chain: seq<Entry<Value>>, key: string, x: Entry<Value>, y: Entry<Value>,
      create: bool, again: bool)
    requires x.key == key
    ensures EntryIn(Settled(chain, key, x, create), key) == Some(x)
    ensures Settled(Settled(chain, key, x, create), key, y, again) == Settled(chain, key, y, create)
  {
    var i, s := Find(chain, key), Settled(chain, key, x, create);
    var j := if i < |chain| then i else 0;
    assert s[j] == x;
    FindIs(s, key, j);
  }

  /** An action on a chain; a new object comes under a missing key only. */
  lemma {:induction false} OneEdit(chain: seq<Entry<Value>>, key: string, action: Action)
    requires action.Create? ==> EntryIn(chain, key).None?
    ensures var x := EntryAfter(EntryIn(chain, key), key, action);
            Edited(chain, key, action) == Ended(chain, key, x, action.Create?)
  {
    var i := Find(chain, key);
    if i < |chain| {
      assert chain[i := chain[i]] == chain;
    }
  }

  /** Two actions create the object of a missing key. */
  predicate Creates(entry: Option<Entry<Value>>, key: string, first: Action, second: Action) {
    first.Create? || (EntryAfter(entry, key, first).None? && second.Create?)
  }

  lemma {:induction false} TwoEdits(chain: seq<Entry<Value>>, key: string, first: Action, second: Action)
    requires var entry := EntryIn(chain, key);
             && (entry.Some? ==> entry.value.key == key)
             && (first.Create? ==> entry.None?) && (second.Create? ==> EntryAfter(entry, key, first).None?)
    ensures var entry := EntryIn(chain, key);
            var one := EntryAfter(entry, key, first);
            var two := EntryAfter(one, key, second);
            && EntryIn(Edited(chain, key, first), key) == one
            && Edited(Edited(chain, key, first), key, second)
               == Ended(chain, key, two, Creates(entry, key, first, second))
  {
    var entry := EntryIn(chain, key);
    var one := EntryAfter(entry, key, first);
    OneEdit(chain, key, first);
    if one.Some? {
      SettledTwice(chain, key, one.value, one.value, first.Create?, false);
      OneEdit(Edited(chain, key, first), key, second);
      SettledTwice(chain, key, one.value, EntryAfter(one, key, second).value, first.Create?, second.Create?);
    } else {
      OneEdit(chain, key, second);
    }
  }

  /** Two commands on one key, carried out as records in the order a, b, end with the entry that the
      order b, a left: a condition on the entry alone. */
  predicate SameEnd(entry: Option<Entry<Value>>, a: Issued, b: Issued, forA: Env, forB: Env)
    requires a.request.args != [] && b.request.args != []
  {
    var key := a.request.args[0];
    var one := EntryAfter(entry, key, Decide(entry, b.request, b.env));
    var end := EntryAfter(one, key, Decide(one, a.request, a.env));
    var first := Decide(entry, a.request, forA);
    var other := EntryAfter(entry, key, first);
    var second := Decide(other, b.request, forB);
    !first.Undefined? && !second.Undefined? && EntryAfter(other, key, second) == end
  }

  /** A new object cannot be made of a text: an order that stores a text first fails. */
  lemma {:induction false} NoObjectFromText(entry: Option<Entry<Value>>, req: Request, env: Env, text: Entry<Value>,
      again: Env)
    requires req.args != [] && !Unrecorded(req.cmd) && text.value.Text? && Decide(None, req, env).Create?
    ensures Decide(Some(text), req, again).Undefined?
  {
  }

  lemma {:induction false} StoresText(entry: Option<Entry<Value>>, req: Request, env: Env)
    requires req.args != [] && Decide(entry, req, env).Store?
    ensures Decide(entry, req, env).value.Text? && (req.cmd.SET? || req.cmd.INCR?)
  {
  }

  /** On a missing key, a command decides to keep, to store a text, or to create an object, and
      always the same of the three. */
  lemma {:induction false} OnMissing(req: Request, env: Env, again: Env)
    requires req.args != [] && !Unrecorded(req.cmd) && !again.served && !Decide(None, req, env).Undefined?
    ensures var x, y := Decide(None, req, env), Decide(None, req, again);
            && (x.Keep? || x.Store? || x.Create?)
            && (x.Keep? <==> y.Keep?) && (x.Store? <==> y.Store?) && (x.Create? <==> y.Create?)
  {
    DecisionTwice(None, req, env, again);
  }

  /** Both orders create the object of a missing key, or neither does. */
  lemma {:induction false} CreateAlike(key: string, a: Issued, b: Issued, forA: Env, forB: Env)
    requires a.request.args != [] && b.request.args != [] && !Unrecorded(a.request.cmd) && !Unrecorded(b.request.cmd)
    requires !forA.served && !forB.served
    requires var first := Decide(None, b.request, b.env);
             !first.Undefined? && !Decide(EntryAfter(None, key, first), a.request, a.env).Undefined?
    requires var first := Decide(None, a.request, forA);
             !first.Undefined? && !Decide(EntryAfter(None, key, first), b.request, forB).Undefined?
    ensures var first, second := Decide(None, b.request, b.env), Decide(None, a.request, forA);
            Creates(None, key, first, Decide(EntryAfter(None, key, first), a.request, a.env))
            == Creates(None, key, second, Decide(EntryAfter(None, key, second), b.request, forB))
  {
    var first, second := Decide(None, b.request, b.env), Decide(None, a.request, forA);
    OnMissing(b.request, b.env, forB);
    OnMissing(a.request, forA, forA);
    if first.Keep? {
      OnMissing(a.request, a.env, forA);
    } else if first.Store? {
      StoresText(None, b.request, b.env);
      if second.Create? {
        NoObjectFromText(None, a.request, forA, Entry(key, first.value, first.expiresAt), a.env);
      }
    } else if second.Store? {
      StoresText(None, a.request, forA);
      NoObjectFromText(None, b.request, b.env, Entry(key, second.value, second.expiresAt), forB);
    }
  }

  lemma {:induction false} ApplyIsEdit(t: Keys, key: Key, req: Request, env: Env)
    requires |t| == TABLE_SIZE && Touches(req) && req.args != [] && req.args[0] == key
    ensures var chain := t[Bucket(key)];
            var action := Decide(EntryIn(chain, key), req, env);
            && GetEntry(t, key) == EntryIn(chain, key) && (action.Create? ==> EntryIn(chain, key).None?)
            && Apply(t, req, env)
               == if action.Undefined? then Crash else Done(t[Bucket(key) := Edited(chain, key, action)])
  {
    CreatesNew(GetEntry(t, key), req, env);
  }

  /** What two commands on one key leave, in the order first, second. */
  lemma {:induction false} TwoOnKey(t: Keys, key: Key, first: Issued, second: Issued)
    requires |t| == TABLE_SIZE && Touches(first.request) && Touches(second.request)
    requires first.request.args != [] && first.request.args[0] == key
    requires second.request.args != [] && second.request.args[0] == key
    ensures var chain := t[Bucket(key)];
            var entry := EntryIn(chain, key);
            var x := Decide(entry, first.request, first.env);
            var y := Decide(EntryAfter(entry, key, x), second.request, second.env);
            var end := EntryAfter(EntryAfter(entry, key, x), key, y);
            Here(t, second, first) == if x.Undefined? || y.Undefined? then Crash else
              Done(t[Bucket(key) := Ended(chain, key, end, Creates(entry, key, x, y))])
  {
    var b := Bucket(key);
    var chain := t[b];
    var x := Decide(EntryIn(chain, key), first.request, first.env);
    ApplyIsEdit(t, key, first.request, first.env);
    if !x.Undefined? {
      var u := t[b := Edited(chain, key, x)];
      ApplyIsEdit(u, key, second.request, second.env);
      OneEntry(chain, key, x);
      var y := Decide(EntryAfter(EntryIn(chain, key), key, x), second.request, second.env);
      if !y.Undefined? {
        TwoEdits(chain, key, x, y);
        assert u[b := Edited(u[b], key, y)] == t[b := Edited(u[b], key, y)];
      }
    }
  }

  lemma {:induction false} OneEntry(chain: seq<Entry<Value>>, key: string, action: Action)
    requires action.Create? ==> EntryIn(chain, key).None?
    ensures EntryIn(Edited(chain, key, action), key) == EntryAfter(EntryIn(chain, key), key, action)
  {
    var x := EntryAfter(EntryIn(chain, key), key, action);
    OneEdit(chain, key, action);
    if x.Some? {
      SettledTwice(chain, key, x.value, x.value, action.Create?, false);
    }
  }

  lemma {:induction false} SettledIsNew(chain: seq<Entry<Value>>, key: string, x: Entry<Value>, create: bool)
    requires EntryIn(chain, key).None? && x.key == key
    ensures Settled(chain, key, x, create) != chain
  {
    SettledTwice(chain, key, x, x, create, false);
  }

  lemma {:induction false} EndedAlike(chain: seq<Entry<Value>>, key: string, x: Option<Entry<Value>>, c: bool,
      y: Option<Entry<Value>>, d: bool)
    requires (x.Some? ==> x.value.key == key) && (y.Some? ==> y.value.key == key)
    requires if EntryIn(chain, key).Some? then x.Some? && y.Some? else c == d
    ensures Ended(chain, key, x, c) == Ended(chain, key, y, d) <==> x == y
  {
    if x.Some? && y.Some? {
      SettledOnce(chain, key, x.value, y.value, d);
    } else if x.Some? {
      SettledIsNew(chain, key, x.value, c);
    } else if y.Some? {
      SettledIsNew(chain, key, y.value, d);
    }
  }

  lemma {:induction false} EntryKeeps(entry: Option<Entry<Value>>, key: string, action: Action)
    requires entry.Some? ==> entry.value.key == key
    ensures var x := EntryAfter(entry, key, action);
            (x.Some? ==> x.value.key == key) && (entry.Some? ==> x.Some?)
  {
  }

  /** Two recorded commands on one key, whose orders may matter: carrying out their records as a, b
      leaves what b, a left exactly when neither fails and they end with the same entry. */
  lemma {:induction false} SameKeyIff(t: Keys, key: Key, a: Issued, b: Issued, forA: Env, forB: Env)
    requires |t| == TABLE_SIZE && Touches(a.request) && Touches(b.request)
    requires a.request.args != [] && a.request.args[0] == key && b.request.args != [] && b.request.args[0] == key
    requires !Unrecorded(a.request.cmd) && !Unrecorded(b.request.cmd) && !forA.served && !forB.served
    requires Here(t, a, b).Done?
    ensures There(t, a.request, b.request, forA, forB) == Here(t, a, b)
       <==> SameEnd(GetEntry(t, key), a, b, forA, forB)
  {
    var k := Bucket(key);
    var chain := t[k];
    var entry := EntryIn(chain, key);
    TwoOnKey(t, key, b, a);
    TwoOnKey(t, key, Issued(a.request, forA), Issued(b.request, forB));
    assert There(t, a.request, b.request, forA, forB) == Here(t, Issued(b.request, forB), Issued(a.request, forA));
    var p := Decide(entry, b.request, b.env);
    var q := Decide(EntryAfter(entry, key, p), a.request, a.env);
    var p' := Decide(entry, a.request, forA);
    var q' := Decide(EntryAfter(entry, key, p'), b.request, forB);
    if !p'.Undefined? && !q'.Undefined? {
      if entry.None? {
        CreateAlike(key, a, b, forA, forB);
      }
      EntryKeeps(entry, key, p);
      EntryKeeps(EntryAfter(entry, key, p), key, q);
      EntryKeeps(entry, key, p');
      EntryKeeps(EntryAfter(entry, key, p'), key, q');
      var x := EntryAfter(EntryAfter(entry, key, p), key, q);
      var y := EntryAfter(EntryAfter(entry, key, p'), key, q');
      var c, d := Creates(entry, key, p, q), Creates(entry, key, p', q');
      EndedAlike(chain, key, x, c, y, d);
      OnePlace(t, k, Ended(chain, key, x, c), Ended(chain, key, y, d));
    }
  }

  // ----- pairs of commands -----

  /** Two SETs without expiry: exactly when they set the same text. */
  lemma {:induction false} SetsEndAlike(entry: Option<Entry<Value>>, key: string, v: string, w: string, env: Env,
      forA: Env, forB: Env)
    ensures SameEnd(entry, Issued(Request(SET, [key, v]), env), Issued(Request(SET, [key, w]), env), forA, forB)
       <==> v == w
  {
  }

  /** Two RPUSHes on a list or a missing key, with nobody blocked: exactly when the two orders of
      their elements are the same list. */
  lemma {:induction false} PushesEndAlike(entry: Option<Entry<Value>>, key: string, v: string, w: string, env: Env,
      forA: Env, forB: Env)
    requires entry.Some? ==> entry.value.value.List?
    requires !env.served && !forA.served && !forB.served
    ensures SameEnd(entry, Issued(Request(RPUSH, [key, v]), env), Issued(Request(RPUSH, [key, w]), env), forA, forB)
       <==> v == w
  {
    var l := if entry.Some? then entry.value.value.items else [];
    assert [key, v][1..] == [v] && [key, w][1..] == [w];
    assert (l + [v] + [w])[|l|] == v && (l + [w] + [v])[|l|] == w;
  }

  /** Two INCRs: always. */
  lemma {:induction false} IncrsEndAlike(entry: Option<Entry<Value>>, key: string, env: Env, forA: Env, forB: Env)
    requires !Decide(entry, Request(INCR, [key]), env).Undefined?
    requires var one := EntryAfter(entry, key, Decide(entry, Request(INCR, [key]), env));
             !Decide(one, Request(INCR, [key]), env).Undefined?
    ensures SameEnd(entry, Issued(Request(INCR, [key]), env), Issued(Request(INCR, [key]), env), forA, forB)
  {
  }
}
