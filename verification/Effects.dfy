/** When a command changes the keyspace, and when carrying it out again elsewhere, at another
    time, leaves what it left: each as a condition on the command, the table and the clock. */
module Effects {
  import opened CStrings
  import opened Commands
  import opened Resp
  import opened Tables
  import opened Keyspace
  import Lists
  import SortedSets
  import Streams

  // ----- actions -----

  /** The action changes the chain of a key that has this entry. */
  predicate Alters(entry: Option<Entry<Value>>, key: string, action: Action) {
    match action
    case Store(value, expiresAt) => entry != Some(Entry(key, value, expiresAt))
    case Create(_) => true
    case Update(value) => entry.Some? && entry.value.value != value
    case _ => false
  }

  function EntryIn(chain: seq<Entry<Value>>, key: string): Option<Entry<Value>> {
    var i := Find(chain, key);
    if i < |chain| then Some(chain[i]) else None
  }

  /** What the action leaves under its key. */
  function EntryAfter(entry: Option<Entry<Value>>, key: string, action: Action): Option<Entry<Value>> {
    match action
    case Store(value, expiresAt) => Some(Entry(key, value, expiresAt))
    case Create(value) => Some(Entry(key, value, 0))
    case Update(value) => if entry.Some? then Some(entry.value.(value := value)) else None
    case _ => entry
  }

  lemma {:induction false} StoreAlters(chain: seq<Entry<Value>>, e: Entry<Value>)
    ensures Tables.Stored(chain, e) == chain <==> EntryIn(chain, e.key) == Some(e)
  {
    var i := Find(chain, e.key);
    if i < |chain| {
      assert chain[i := e][i] == e;
    }
  }

  lemma {:induction false} EditAlters(chain: seq<Entry<Value>>, key: string, action: Action)
    requires action.Create? ==> EntryIn(chain, key).None?
    ensures Edited(chain, key, action) != chain <==> Alters(EntryIn(chain, key), key, action)
  {
    match action
    case Store(value, expiresAt) => StoreAlters(chain, Entry(key, value, expiresAt));
    case Create(value) => CreateChangesChain(chain, key, value);
    case Update(value) =>
      var i := Find(chain, key);
      if i < |chain| {
        assert chain[i := chain[i].(value := value)][i].value == value;
      }
    case _ =>
  }

  lemma {:induction false} CommitAlters(t: Keys, key: Key, action: Action)
    requires |t| == TABLE_SIZE && Commit(t, key, action).Done?
    requires action.Create? ==> GetEntry(t, key).None?
    ensures Commit(t, key, action).table != t <==> Alters(GetEntry(t, key), key, action)
  {
    var b := Bucket(key);
    EditAlters(t[b], key, action);
    assert t[b := t[b]] == t;
    assert t[b := Edited(t[b], key, action)][b] == Edited(t[b], key, action);
  }

  // ----- commands -----

  function Members(entry: Option<Entry<Value>>): seq<SortedSets.Item> {
    if entry.Some? && entry.value.value.ZSet? then entry.value.value.members else []
  }

  function StreamOf(entry: Option<Entry<Value>>): Streams.Stream {
    if entry.Some? && entry.value.value.Stream? then entry.value.value.stream else Streams.EMPTY
  }

  /** The expiry that a SET computes at the given clock. */
  function SetExpiry(args: seq<string>, now: int): int
    requires |args| >= 2
  {
    if |args| <= 3 then 0 else ExpiryOf(SetFlags(args, 2).0, SetFlags(args, 2).1, now)
  }

  /** What a command needs in order to change the keyspace, command by command. */
  predicate EffectiveOn(entry: Option<Entry<Value>>, req: Request, env: Env)
    requires req.args != []
  {
    match req.cmd
    case SET => |req.args| >= 2 && entry != Some(Entry(req.args[0], Text(req.args[1]), SetExpiry(req.args, env.now)))
    case INCR =>
      || entry.None? || !entry.value.value.Text?
      || Atoi(entry.value.value.text) != 0 || entry.value.value.text == "0"
    case LPUSH => |req.args| >= 2
    case RPUSH => |req.args| >= 2
    case LPOP => PopsSomething(entry, req.args)
    case BLPOP => |req.args| >= 2 && entry.Some? && (entry.value.value.List? ==> entry.value.value.items != [])
    case GEOSEARCH => |req.args| >= 7 && entry.None?
    case ZADD =>
      |req.args| >= 3 && (|req.args| - 1) % 2 == 0
      && (entry.None? || SortedSets.PutAll(Members(entry), SortedSets.PairsOf(env.atof, req.args, 1)) != Members(entry))
    case GEOADD =>
      |req.args| >= 4 && GeoItems(env.atof, req.args, 1).Some?
      && (entry.None? || SortedSets.PutAll(Members(entry), GeoItems(env.atof, req.args, 1).value) != Members(entry))
    case ZREM => |req.args| >= 2 && HasAny(Members(entry), req.args[1..])
    case XADD => |req.args| >= 2 && Streams.XAdd(StreamOf(entry), ParseId(req.args[1]), req.args[2..], env.now).Added?
    case _ => false
  }

  /** LPOP meets a list with an element, and its count is not zero or out of range. */
  predicate PopsSomething(entry: Option<Entry<Value>>, args: seq<string>)
    requires args != []
  {
    && entry.Some? && entry.value.value.List? && entry.value.value.items != []
    && (|args| == 2 ==> Atoi(args[1]) > 0)
  }

  predicate Effective(t: Keys, req: Request, env: Env)
    requires |t| == TABLE_SIZE
  {
    KeyGiven(req) && EffectiveOn(GetEntry(t, req.args[0]), req, env)
  }

  /** The decision of the command, where the C has one. */
  ghost predicate Decides(entry: Option<Entry<Value>>, req: Request, env: Env)
    requires req.args != []
  {
    && (req.cmd.RPUSH? ==> !env.served)
    && !Decide(entry, req, env).Undefined?
    && (entry.Some? ==> entry.value.key == req.args[0])
  }

  lemma {:induction false} TextCommandsAlter(entry: Option<Entry<Value>>, req: Request, env: Env)
    requires req.args != [] && Decides(entry, req, env) && (req.cmd.SET? || req.cmd.INCR?)
    ensures Alters(entry, req.args[0], Decide(entry, req, env)) <==> EffectiveOn(entry, req, env)
  {
    if req.cmd.INCR? && entry.Some? {
      AtoiOfDecInt(Atoi(entry.value.value.text) + 1);
    }
  }

  lemma {:induction false} PushesAlter(entry: Option<Entry<Value>>, req: Request, env: Env)
    requires req.args != [] && Decides(entry, req, env) && (req.cmd.LPUSH? || req.cmd.RPUSH?)
    ensures Alters(entry, req.args[0], Decide(entry, req, env)) <==> EffectiveOn(entry, req, env)
  {
    if entry.Some? && entry.value.value.List? {
      LengthsTell(entry.value.value.items, req.args[1..]);
    }
  }

  lemma {:induction false} PopsAlter(entry: Option<Entry<Value>>, req: Request, env: Env)
    requires req.args != [] && Decides(entry, req, env) && (req.cmd.LPOP? || req.cmd.BLPOP?)
    ensures Alters(entry, req.args[0], Decide(entry, req, env)) <==> EffectiveOn(entry, req, env)
  {
    if entry.Some? && entry.value.value.List? {
      LengthsTell(entry.value.value.items, []);
    }
  }

  /** A list that has grown or shrunk has changed. */
  lemma {:induction false} LengthsTell(l: seq<string>, items: seq<string>)
    ensures items != [] ==> Lists.Reversed(items) + l != l && l + items != l
    ensures forall n | 0 < n <= |l| :: l[n..] != l
    ensures l[0..] == l
  {
    assert |Lists.Reversed(items) + l| == |Lists.Reversed(items)| + |l|;
  }

  predicate HasAny(s: seq<SortedSets.Item>, names: seq<string>) {
    exists name :: name in names && SortedSets.Has(s, name)
  }

  lemma {:induction false} HasAnyFirst(s: seq<SortedSets.Item>, names: seq<string>)
    requires names != []
    ensures HasAny(s, names) <==> SortedSets.Has(s, names[0]) || HasAny(s, names[1..])
  {
    assert forall name :: name in names <==> name == names[0] || name in names[1..];
  }

  lemma {:induction false} RemovingShortens(s: seq<SortedSets.Item>, names: seq<string>)
    ensures |SortedSets.RemovedAll(s, names)| <= |s|
    decreases |names|
  {
    if names != [] {
      RemovingShortens(SortedSets.Removed(s, names[0]), names[1..]);
    }
  }

  lemma {:induction false} RemovingAlters(s: seq<SortedSets.Item>, names: seq<string>)
    ensures SortedSets.RemovedAll(s, names) != s <==> HasAny(s, names)
    decreases |names|
  {
    if names != [] {
      var rest := SortedSets.Removed(s, names[0]);
      HasAnyFirst(s, names);
      if SortedSets.Has(s, names[0]) {
        RemovingShortens(rest, names[1..]);
        assert |rest| == |s| - 1;
      } else {
        assert rest == s;
        RemovingAlters(s, names[1..]);
      }
    }
  }

  lemma {:induction false} ZAddAlters(entry: Option<Entry<Value>>, req: Request, env: Env)
    requires req.args != [] && Decides(entry, req, env) && req.cmd.ZADD?
    ensures Alters(entry, req.args[0], Decide(entry, req, env)) <==> EffectiveOn(entry, req, env)
  {
  }

  lemma {:induction false} GeoCommandsAlter(entry: Option<Entry<Value>>, req: Request, env: Env)
    requires req.args != [] && Decides(entry, req, env) && (req.cmd.GEOADD? || req.cmd.GEOSEARCH?)
    ensures Alters(entry, req.args[0], Decide(entry, req, env)) <==> EffectiveOn(entry, req, env)
  {
  }

  lemma {:induction false} ZRemDecisionAlters(entry: Option<Entry<Value>>, args: seq<string>, key: string)
    requires |args| >= 2 && !DecideZRem(entry, args).Undefined?
    ensures Alters(entry, key, DecideZRem(entry, args)) <==> HasAny(Members(entry), args[1..])
  {
    var members := Members(entry);
    RemovingAlters(members, args[1..]);
    if entry.None? {
      assert forall name :: !SortedSets.Has(members, name);
    } else {
      assert DecideZRem(entry, args) == Update(ZSet(SortedSets.RemovedAll(members, args[1..])));
    }
  }

  lemma {:induction false} ZRemAlters(entry: Option<Entry<Value>>, req: Request, env: Env)
    requires req.args != [] && Decides(entry, req, env) && req.cmd.ZREM?
    ensures Alters(entry, req.args[0], Decide(entry, req, env)) <==> EffectiveOn(entry, req, env)
  {
    assert Decide(entry, req, env) == DecideZRem(entry, req.args);
    if |req.args| >= 2 {
      ZRemDecisionAlters(entry, req.args, req.args[0]);
    }
  }

  lemma {:induction false} StreamCommandAlters(entry: Option<Entry<Value>>, req: Request, env: Env)
    requires req.args != [] && Decides(entry, req, env) && req.cmd.XADD?
    ensures Alters(entry, req.args[0], Decide(entry, req, env)) <==> EffectiveOn(entry, req, env)
  {
    if |req.args| >= 2 {
      XAddGrows(StreamOf(entry), ParseId(req.args[1]), req.args[2..], env.now);
    }
  }

  lemma {:induction false} XAddGrows(s: Streams.Stream, id: Streams.IdText, fields: seq<string>, now: int)
    ensures var r := Streams.XAdd(s, id, fields, now); r.Added? ==> r.stream != s
  {
    var r := Streams.XAdd(s, id, fields, now);
    if r.Added? {
      assert |r.stream.items| == |s.items| + 1;
    }
  }

  lemma {:induction false} DecisionAlters(entry: Option<Entry<Value>>, req: Request, env: Env)
    requires req.args != [] && Decides(entry, req, env)
    ensures Alters(entry, req.args[0], Decide(entry, req, env)) <==> EffectiveOn(entry, req, env)
  {
    match req.cmd
    case SET | INCR => TextCommandsAlter(entry, req, env);
    case LPUSH | RPUSH => PushesAlter(entry, req, env);
    case LPOP | BLPOP => PopsAlter(entry, req, env);
    case ZADD => ZAddAlters(entry, req, env);
    case ZREM => ZRemAlters(entry, req, env);
    case GEOADD | GEOSEARCH => GeoCommandsAlter(entry, req, env);
    case XADD => StreamCommandAlters(entry, req, env);
    case _ =>
  }

  lemma {:induction false} CreatesNew(entry: Option<Entry<Value>>, req: Request, env: Env)
    requires req.args != []
    ensures Decide(entry, req, env).Create? ==> entry.None?
  {
  }

  /** A command changes the keyspace exactly when it is effective, whatever the command. */
  lemma {:induction false} EffectiveIff(t: Keys, req: Request, env: Env)
    requires |t| == TABLE_SIZE && Apply(t, req, env).Done? && (req.cmd.RPUSH? ==> !env.served)
    ensures Apply(t, req, env).table != t <==> Effective(t, req, env)
  {
    if Touches(req) {
      var key: Key := req.args[0];
      var entry := GetEntry(t, key);
      CreatesNew(entry, req, env);
      CommitAlters(t, key, Decide(entry, req, env));
      DecisionAlters(entry, req, env);
    }
  }

  // ----- carrying a command out again -----

  /** The commands that are neither logged nor sent so that they can be carried out again: BLPOP
      and GEOSEARCH not at all, the others not under their own names. */
  predicate Unrecorded(cmd: Cmd) {
    cmd.BLPOP? || cmd.GEOSEARCH? || cmd.ZADD? || cmd.ZREM? || cmd.GEOADD?
  }

  /** What becomes of a table on which the command's record is carried out. */
  function CarriedOut(t: Keys, req: Request, again: Env): (r: Effect)
    requires |t| == TABLE_SIZE
    ensures r.Done? ==> |r.table| == TABLE_SIZE
  {
    if Unrecorded(req.cmd) then Done(t) else Apply(t, req, again)
  }

  /** A SET with an EX or PX that counts from the clock. */
  predicate Timed(args: seq<string>) {
    |args| > 3 && !SetFlags(args, 2).0.NoTimeFlag? && SetFlags(args, 2).1 != -1
  }

  /** Two clocks give the stream the same next ID. */
  predicate SameId(s: Streams.Stream, id: Streams.IdText, now: int, again: int) {
    || now == again
    || (!id.Auto? && !id.StarMs?)
    || (s.items != [] && (id.StarMs? || (now <= s.lastMs && again <= s.lastMs)))
  }

  /** Carrying the command's record out again leaves what the command left: it has an effect only
      if it is recorded under its own name, it served no blocked client, and the clock does not
      enter into it. */
  predicate RepeatsOn(entry: Option<Entry<Value>>, req: Request, env: Env, again: Env)
    requires req.args != []
  {
    match req.cmd
    case SET => |req.args| < 2 || !Timed(req.args) || env.now == again.now
    case RPUSH => |req.args| < 2 || !env.served
    case XADD => |req.args| < 2 || SameId(StreamOf(entry), ParseId(req.args[1]), env.now, again.now)
    case _ => Unrecorded(req.cmd) ==> !EffectiveOn(entry, req, env)
  }

  predicate Repeats(t: Keys, req: Request, env: Env, again: Env)
    requires |t| == TABLE_SIZE
  {
    Touches(req) && KeyGiven(req) ==> RepeatsOn(GetEntry(t, req.args[0]), req, env, again)
  }

  /** The decisions of one command at two times have the same form. */
  ghost predicate SameForm(entry: Option<Entry<Value>>, a: Action, b: Action) {
    match a
    case Store(_, _) => b.Store?
    case Create(_) => b.Create? && entry.None?
    case Update(_) => b.Update? && entry.Some?
    case _ => a == b
  }

  lemma {:induction false} StoreTwice(chain: seq<Entry<Value>>, a: Entry<Value>, b: Entry<Value>)
    requires a.key == b.key && Tables.Stored(chain, a) == Tables.Stored(chain, b)
    ensures a == b
  {
    var i := Find(chain, a.key);
    if i < |chain| {
      assert chain[i := a][i] == a && chain[i := b][i] == b;
    }
  }

  lemma {:induction false} EditTwice(chain: seq<Entry<Value>>, key: string, a: Action, b: Action)
    requires SameForm(EntryIn(chain, key), a, b)
    ensures Edited(chain, key, a) == Edited(chain, key, b) <==> a == b
  {
    if Edited(chain, key, a) == Edited(chain, key, b) {
      match a
      case Store(value, expiresAt) => StoreTwice(chain, Entry(key, value, expiresAt), Entry(key, b.value, b.expiresAt));
      case Create(value) =>
        assert HeadReplaced(chain, Entry(key, value, 0))[0] == HeadReplaced(chain, Entry(key, b.value, 0))[0];
      case Update(value) =>
        var i := Find(chain, key);
        assert chain[i := chain[i].(value := value)][i].value == value;
        assert chain[i := chain[i].(value := b.value)][i].value == b.value;
      case _ =>
    }
  }

  lemma {:induction false} CommitTwice(t: Keys, key: Key, a: Action, b: Action)
    requires |t| == TABLE_SIZE && !a.Undefined? && !b.Undefined? && SameForm(GetEntry(t, key), a, b)
    ensures Commit(t, key, a) == Commit(t, key, b) <==> a == b
  {
    var chain := t[Bucket(key)];
    EditTwice(chain, key, a, b);
    if Commit(t, key, a) == Commit(t, key, b) {
      assert t[Bucket(key) := Edited(chain, key, a)][Bucket(key)] == Edited(chain, key, a);
      assert t[Bucket(key) := Edited(chain, key, b)][Bucket(key)] == Edited(chain, key, b);
    }
  }

  lemma {:induction false} SetTwice(entry: Option<Entry<Value>>, req: Request, env: Env, again: Env)
    requires req.args != [] && req.cmd.SET?
    ensures var a, b := Decide(entry, req, env), Decide(entry, req, again);
            SameForm(entry, a, b) && !b.Undefined? && (a == b <==> RepeatsOn(entry, req, env, again))
  {
  }

  lemma {:induction false} IdsTwice(s: Streams.Stream, id: Streams.IdText, fields: seq<string>, now: int, again: int)
    ensures var a, b := Streams.XAdd(s, id, fields, now), Streams.XAdd(s, id, fields, again);
            && a.Added? == b.Added? && a.Refused? == b.Refused?
            && (a.Added? ==> (a.stream == b.stream <==> SameId(s, id, now, again)))
            && (!a.Added? && (id.Auto? || id.StarMs?) ==> SameId(s, id, now, again))
  {
    var a, b := Streams.XAdd(s, id, fields, now), Streams.XAdd(s, id, fields, again);
    if a.Added? {
      assert a.stream.lastMs == a.id.ms && b.stream.lastMs == b.id.ms;
    }
  }

  lemma {:induction false} XAddTwice(entry: Option<Entry<Value>>, req: Request, env: Env, again: Env)
    requires req.args != [] && req.cmd.XADD? && !Decide(entry, req, env).Undefined?
    ensures var a, b := Decide(entry, req, env), Decide(entry, req, again);
            SameForm(entry, a, b) && !b.Undefined? && (a == b <==> RepeatsOn(entry, req, env, again))
  {
    if |req.args| >= 2 {
      IdsTwice(StreamOf(entry), ParseId(req.args[1]), req.args[2..], env.now, again.now);
    }
  }

  lemma {:induction false} RPushTwice(entry: Option<Entry<Value>>, req: Request, env: Env, again: Env)
    requires req.args != [] && req.cmd.RPUSH? && !again.served && !Decide(entry, req, env).Undefined?
    ensures var a, b := Decide(entry, req, env), Decide(entry, req, again);
            SameForm(entry, a, b) && !b.Undefined? && (a == b <==> RepeatsOn(entry, req, env, again))
  {
    if |req.args| >= 2 && env.served && (entry.Some? ==> entry.value.value.List?) {
      var l := if entry.Some? then entry.value.value.items else [];
      assert |AfterPush(l, false, req.args[1..], true)| + 1 == |AfterPush(l, false, req.args[1..], false)|;
    }
  }

  /** The decision of the other commands that are carried out again does not depend on what is
      around them. */
  lemma {:induction false} OthersTwice(entry: Option<Entry<Value>>, req: Request, env: Env, again: Env)
    requires req.args != [] && !Unrecorded(req.cmd) && !req.cmd.SET? && !req.cmd.XADD? && !req.cmd.RPUSH?
    ensures Decide(entry, req, env) == Decide(entry, req, again)
  {
  }

  lemma {:induction false} DecisionTwice(entry: Option<Entry<Value>>, req: Request, env: Env, again: Env)
    requires req.args != [] && !Unrecorded(req.cmd) && !again.served && !Decide(entry, req, env).Undefined?
    ensures var a, b := Decide(entry, req, env), Decide(entry, req, again);
            SameForm(entry, a, b) && !b.Undefined? && (a == b <==> RepeatsOn(entry, req, env, again))
  {
    match req.cmd
    case SET => SetTwice(entry, req, env, again);
    case XADD => XAddTwice(entry, req, env, again);
    case RPUSH => RPushTwice(entry, req, env, again);
    case _ => OthersTwice(entry, req, env, again); FormOfOthers(entry, req, env);
  }

  lemma {:induction false} FormOfOthers(entry: Option<Entry<Value>>, req: Request, env: Env)
    requires req.args != []
    ensures SameForm(entry, Decide(entry, req, env), Decide(entry, req, env))
  {
  }

  /** Carrying the record of a command out again, where nobody is blocked, never fails, and leaves
      what the command itself left exactly when the command repeats. */
  lemma {:induction false} RepeatsIff(t: Keys, req: Request, env: Env, again: Env)
    requires |t| == TABLE_SIZE && Apply(t, req, env).Done? && !again.served
    ensures CarriedOut(t, req, again).Done?
    ensures CarriedOut(t, req, again) == Apply(t, req, env) <==> Repeats(t, req, env, again)
  {
    if Touches(req) {
      var key: Key := req.args[0];
      var entry := GetEntry(t, key);
      if Unrecorded(req.cmd) {
        EffectiveIff(t, req, env);
      } else {
        DecisionTwice(entry, req, env, again);
        CommitTwice(t, key, Decide(entry, req, env), Decide(entry, req, again));
      }
    }
  }
}
