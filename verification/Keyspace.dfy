/** What the data commands do to the keyspace: each looks up the entry of its key, decides, and
    edits that key's bucket. */
module Keyspace {
  import opened Seqs
  import opened CStrings
  import opened Commands
  import opened Resp
  import opened Tables
  import Lists
  import SortedSets
  import Streams
  import Geo

  datatype Value =
    | Text(text: string)
    | List(items: seq<string>)
    | ZSet(members: seq<SortedSets.Item>)
    | Stream(stream: Streams.Stream)

  type Keys = Table<Value>

  /** What a command meets from outside: the clock, whether an RPUSH finds a blocked client to
      serve, and how the C library reads a score. */
  datatype Env = Env(now: int, served: bool, atof: string -> real)

  // ----- decisions -----

  /** What a command does with its key: nothing; store_set; a new object under a new key, which
      takes over the head of the bucket; or a change of the stored object in place. Undefined:
      the C reads a value as another type, or beyond what was given. */
  datatype Action =
    | Keep
    | Store(value: Value, expiresAt: int)
    | Create(value: Value)
    | Update(value: Value)
    | Undefined

  /** handle_set_flags: the first EX or PX among the arguments from index i on. */
  function SetFlags(args: seq<string>, i: nat): (TimeFlag, int)
    decreases |args| - i
  {
    if i + 1 >= |args| then (NoTimeFlag, -1)
    else if args[i] == "EX" then (EX, Atoi(args[i + 1]))
    else if args[i] == "PX" then (PX, Atoi(args[i + 1]))
    else SetFlags(args, i + 1)
  }

  function DecideSet(args: seq<string>, now: int): Action {
    if |args| < 2 then Keep
    else
      var (flag, seconds) := if |args| <= 3 then (NoTimeFlag, -1) else SetFlags(args, 2);
      Store(Text(args[1]), ExpiryOf(flag, seconds, now))
  }

  /** handle_incr, with the 32-bit int that atoi and the increment can hold. */
  function DecideIncr(entry: Option<Entry<Value>>): Action {
    match entry
    case None => Store(Text("1"), 0)
    case Some(e) =>
      if !e.value.Text? then Undefined
      else
        var n := Atoi(e.value.text);
        if n == 0 && e.value.text != "0" then Keep
        else if -0x8000_0000 <= n < 0x7FFF_FFFF then Store(Text(DecInt(n + 1)), 0)
        else Undefined
  }

  /** handle_lpush and handle_rpush: the new list, or a change of the old one. */
  function Pushed(entry: Option<Entry<Value>>, left: bool, items: seq<string>, served: bool): Action {
    match entry
    case None => Create(List(AfterPush([], left, items, served)))
    case Some(e) =>
      if e.value.List? then Update(List(AfterPush(e.value.items, left, items, served))) else Undefined
  }

  function AfterPush(l: seq<string>, left: bool, items: seq<string>, served: bool): seq<string> {
    if left then Lists.Reversed(items) + l
    else if served && l + items != [] then (l + items)[1..]
    else l + items
  }

  function DecideLPop(entry: Option<Entry<Value>>, args: seq<string>): Action
    requires args != []
  {
    match entry
    case None => Keep
    case Some(e) =>
      if !e.value.List? then Undefined
      else
        match Lists.PopCount(args, |e.value.items|)
        case None => Keep
        case Some(count) => Update(List(e.value.items[count..]))
  }

  /** handle_blpop: an immediate pop, or a block that leaves the table as it is. */
  function DecideBlpop(entry: Option<Entry<Value>>, args: seq<string>): Action {
    if |args| < 2 || entry.None? then Keep
    else if !entry.value.value.List? then Undefined
    else if entry.value.value.items == [] then Keep
    else Update(List(entry.value.value.items[1..]))
  }

  function AddMembers(entry: Option<Entry<Value>>, items: seq<SortedSets.Item>): Action {
    match entry
    case None => Create(ZSet(SortedSets.PutAll([], items)))
    case Some(e) => if e.value.ZSet? then Update(ZSet(SortedSets.PutAll(e.value.members, items))) else Undefined
  }

  function DecideZAdd(entry: Option<Entry<Value>>, args: seq<string>, atof: string -> real): Action {
    if |args| < 3 || (|args| - 1) % 2 != 0 then Keep
    else AddMembers(entry, SortedSets.PairsOf(atof, args, 1))
  }

  function DecideZRem(entry: Option<Entry<Value>>, args: seq<string>): Action {
    if |args| < 2 || entry.None? then Keep
    else if entry.value.value.ZSet? then Update(ZSet(SortedSets.RemovedAll(entry.value.value.members, args[1..])))
    else Undefined
  }

  /** The (score, member) items that handle_geoadd passes on, or None at an invalid coordinate. */
  function GeoItems(atof: string -> real, args: seq<string>, i: nat): Option<seq<SortedSets.Item>>
    decreases |args| - i
  {
    if i + 2 >= |args| then Some([])
    else if !Geo.ValidCoordinate(atof(args[i]), atof(args[i + 1])) then None
    else
      match GeoItems(atof, args, i + 3)
      case None => None
      case Some(more) =>
        Some([SortedSets.Item(Geo.Score(atof(args[i]), atof(args[i + 1])) as real, args[i + 2])] + more)
  }

  function DecideGeoAdd(entry: Option<Entry<Value>>, args: seq<string>, atof: string -> real): Action {
    if |args| < 4 then Keep
    else
      match GeoItems(atof, args, 1)
      case None => Keep
      case Some(items) => AddMembers(entry, items)
  }

  /** handle_geosearch creates an empty set under a missing key. */
  function DecideGeoSearch(entry: Option<Entry<Value>>, args: seq<string>): Action {
    if |args| < 7 then Keep
    else if entry.None? then Create(ZSet([]))
    else if entry.value.value.ZSet? then Keep
    else Undefined
  }

  /** The ID argument of XADD. Parts that are not plain decimal numbers are Malformed. */
  function ParseId(text: string): Streams.IdText {
    if text == "*" then Streams.Auto
    else
      var d := Dash(text);
      if d == |text| then Streams.NoDash
      else
        var ms, num := text[..d], text[d + 1..];
        if ms == "*" && IsNumber(num) then Streams.StarMs
        else if !IsNumber(ms) then Streams.Malformed
        else if num == "*" then Streams.MsAuto(LeadingDigits(ms, 0))
        else if IsNumber(num) then Streams.Explicit(Streams.Id(LeadingDigits(ms, 0), LeadingDigits(num, 0)))
        else Streams.Malformed
  }

  function Dash(text: string): (d: nat)
    ensures d <= |text|
  {
    if text == "" || text[0] == '-' then 0 else 1 + Dash(text[1..])
  }

  predicate IsNumber(s: string) { s != "" && AllDigits(s) }

  function DecideXAdd(entry: Option<Entry<Value>>, args: seq<string>, now: int): Action {
    if |args| < 2 then Keep
    else
      match entry
      case None =>
        var r := Streams.XAdd(Streams.EMPTY, ParseId(args[1]), args[2..], now);
        if r.Added? then Create(Stream(r.stream)) else Undefined
      case Some(e) =>
        if !e.value.Stream? then Undefined
        else
          var r := Streams.XAdd(e.value.stream, ParseId(args[1]), args[2..], now);
          if r.Added? then Update(Stream(r.stream)) else if r.Refused? then Keep else Undefined
  }

  /** The commands whose dispatch uses args[0] as a key and can change or notify it. */
  predicate Keyed(cmd: Cmd) {
    match cmd
    case SET | DEL | INCR | DECR | APPEND => true
    case LPUSH | RPUSH | LPOP | RPOP | BLPOP => true
    case HSET | HDEL => true
    case ZADD | ZRANK | ZREM | GEOADD | GEOSEARCH => true
    case XADD => true
    case _ => false
  }

  function Decide(entry: Option<Entry<Value>>, req: Request, env: Env): Action
    requires req.args != []
  {
    match req.cmd
    case SET => DecideSet(req.args, env.now)
    case INCR => DecideIncr(entry)
    case LPUSH => if |req.args| < 2 then Keep else Pushed(entry, true, req.args[1..], false)
    case RPUSH => if |req.args| < 2 then Keep else Pushed(entry, false, req.args[1..], env.served)
    case LPOP => DecideLPop(entry, req.args)
    case BLPOP => DecideBlpop(entry, req.args)
    case ZADD => DecideZAdd(entry, req.args, env.atof)
    case ZREM => DecideZRem(entry, req.args)
    case GEOADD => DecideGeoAdd(entry, req.args, env.atof)
    case GEOSEARCH => DecideGeoSearch(entry, req.args)
    case XADD => DecideXAdd(entry, req.args, env.now)
    case _ => Keep
  }

  // ----- carrying a decision out -----

  function Changed(chain: seq<Entry<Value>>, key: string, value: Value): seq<Entry<Value>> {
    var i := Find(chain, key);
    if i < |chain| then chain[i := chain[i].(value := value)] else chain
  }

  function Edited(chain: seq<Entry<Value>>, key: string, action: Action): seq<Entry<Value>> {
    match action
    case Store(value, expiresAt) => Tables.Stored(chain, Entry(key, value, expiresAt))
    case Create(value) => HeadReplaced(chain, Entry(key, value, 0))
    case Update(value) => Changed(chain, key, value)
    case _ => chain
  }

  datatype Effect = Done(table: Keys) | Crash

  function Commit(t: Keys, key: Key, action: Action): (r: Effect)
    requires |t| == TABLE_SIZE
    ensures r.Done? ==> |r.table| == TABLE_SIZE
  {
    if action.Undefined? then Crash
    else Done(t[Bucket(key) := Edited(t[Bucket(key)], key, action)])
  }

  /** BLPOP and GEOSEARCH return at once when arguments are missing, and nothing is notified. */
  predicate TooShort(req: Request) {
    (req.cmd.BLPOP? && |req.args| < 2) || (req.cmd.GEOSEARCH? && |req.args| < 7)
  }

  predicate Touches(req: Request) { Keyed(req.cmd) && !TooShort(req) }

  predicate KeyGiven(req: Request) { req.args != [] && Indexes(req.args[0]) }

  /** One data command on the keyspace. */
  function Apply(t: Keys, req: Request, env: Env): (r: Effect)
    requires |t| == TABLE_SIZE
    ensures r.Done? ==> |r.table| == TABLE_SIZE
  {
    if !Touches(req) then Done(t)
    else if !KeyGiven(req) then Crash
    else Commit(t, req.args[0], Decide(GetEntry(t, req.args[0]), req, env))
  }

  // ----- locality and notification -----

  /** A command changes no bucket but its key's. */
  lemma {:induction false} ApplyIsLocal(t: Keys, req: Request, env: Env, b: nat)
    requires |t| == TABLE_SIZE && b < TABLE_SIZE && Apply(t, req, env).Done?
    requires Touches(req) ==> b != Bucket(req.args[0])
    ensures Apply(t, req, env).table[b] == t[b]
  {
  }

  /** The commands after which the dispatch calls notify_watchers on args[0]. */
  predicate Notifies(cmd: Cmd) {
    match cmd
    case SET | DEL | INCR | DECR | APPEND => true
    case LPUSH | RPUSH | LPOP | RPOP => true
    case HSET | HDEL => true
    case ZADD | ZRANK | ZREM | GEOADD => true
    case XADD => true
    case _ => false
  }

  /** The two cases in which a command changes its bucket and tells nobody: a BLPOP that finds
      an element, and a GEOSEARCH of a missing key. */
  predicate ChangesSilently(t: Keys, req: Request)
    requires |t| == TABLE_SIZE
  {
    && KeyGiven(req)
    && var entry := GetEntry(t, req.args[0]);
       || (req.cmd.BLPOP? && |req.args| >= 2 && entry.Some? && entry.value.value.List? && entry.value.value.items != [])
       || (req.cmd.GEOSEARCH? && |req.args| >= 7 && entry.None?)
  }

  lemma {:induction false} UpdateChangesChain(chain: seq<Entry<Value>>, key: string, value: Value)
    requires Find(chain, key) < |chain| && chain[Find(chain, key)].value != value
    ensures Changed(chain, key, value) != chain
  {
    assert Changed(chain, key, value)[Find(chain, key)].value == value;
  }

  lemma {:induction false} CreateChangesChain(chain: seq<Entry<Value>>, key: string, value: Value)
    requires Find(chain, key) == |chain|
    ensures HeadReplaced(chain, Entry(key, value, 0)) != chain
  {
    assert HeadReplaced(chain, Entry(key, value, 0))[0].key == key;
  }

  /** A command changes the keyspace without notifying exactly in these two cases. */
  lemma {:induction false} UnnotifiedChange(t: Keys, req: Request, env: Env)
    requires |t| == TABLE_SIZE && Apply(t, req, env).Done?
    ensures Apply(t, req, env).table != t && !Notifies(req.cmd) <==> ChangesSilently(t, req)
  {
    if Touches(req) && !Notifies(req.cmd) {
      var key: Key := req.args[0];
      var chain: seq<Entry<Value>> := t[Bucket(key)];
      var action := Decide(GetEntry(t, key), req, env);
      if ChangesSilently(t, req) {
        if req.cmd.BLPOP? {
          UpdateChangesChain(chain, key, action.value);
        } else {
          CreateChangesChain(chain, key, action.value);
        }
        assert Apply(t, req, env).table[Bucket(key)] != t[Bucket(key)];
      } else {
        assert action == Keep;
        assert Apply(t, req, env).table == t;
      }
    }
  }

  // ----- runs of data commands -----

  datatype Issued = Issued(request: Request, env: Env)

  function ApplyAll(t: Keys, cmds: seq<Issued>): (r: Effect)
    requires |t| == TABLE_SIZE
    ensures r.Done? ==> |r.table| == TABLE_SIZE
    decreases |cmds|
  {
    if cmds == [] then Done(t)
    else
      var r := Apply(t, cmds[0].request, cmds[0].env);
      if r.Done? then ApplyAll(r.table, cmds[1..]) else Crash
  }

  lemma {:induction false} ApplyAllSplits(t: Keys, a: seq<Issued>, b: seq<Issued>)
    requires |t| == TABLE_SIZE
    ensures ApplyAll(t, a + b) == if ApplyAll(t, a).Done? then ApplyAll(ApplyAll(t, a).table, b) else Crash
    decreases |a|
  {
    if a == [] {
      assert a + b == b;
    } else {
      assert (a + b)[1..] == a[1..] + b;
      var r := Apply(t, a[0].request, a[0].env);
      if r.Done? {
        ApplyAllSplits(r.table, a[1..], b);
      }
    }
  }

  /** The logged requests of a history, in order. */
  function LoggedOf(h: seq<Issued>): seq<Request> {
    if h == [] then []
    else (if Logged(h[0].request.cmd) then [h[0].request] else []) + LoggedOf(h[1..])
  }

  lemma {:induction false} LoggedOfBoth(a: seq<Issued>, b: seq<Issued>)
    ensures LoggedOf(a + b) == LoggedOf(a) + LoggedOf(b)
  {
    if a == [] {
      assert a + b == b && [] + LoggedOf(b) == LoggedOf(b);
    } else {
      assert (a + b)[1..] == a[1..] + b;
      LoggedOfBoth(a[1..], b);
      ConcatAssociates(if Logged(a[0].request.cmd) then [a[0].request] else [], LoggedOf(a[1..]), LoggedOf(b));
    }
  }

  /** A command whose effect does not depend on the clock, on blocked clients, or on how scores
      are read: the commands that replay and replication can repeat elsewhere. */
  predicate Repeatable(req: Request) {
    match req.cmd
    case SET => |req.args| <= 3 || SetFlags(req.args, 2).0.NoTimeFlag?
    case XADD => |req.args| >= 2 ==> !ParseId(req.args[1]).Auto? && !ParseId(req.args[1]).StarMs?
    case ZADD | GEOADD => false
    case _ => true
  }

  /** A repeatable command has the same effect in any two surroundings without blocked clients. */
  lemma {:induction false} RepeatableApplies(t: Keys, req: Request, e: Env, e': Env)
    requires |t| == TABLE_SIZE && Repeatable(req) && !e.served && !e'.served
    ensures Apply(t, req, e) == Apply(t, req, e')
  {
    if Touches(req) && KeyGiven(req) {
      assert Decide(GetEntry(t, req.args[0]), req, e) == Decide(GetEntry(t, req.args[0]), req, e');
    }
  }
}
