/** Streams as values: XADD with its ID generation against an arbitrary clock, the XREAD
    filter, and blocked readers (handler.c, utils.c). */
module Streams {
  import opened Seqs
  import opened Tables

  datatype Id = Id(ms: int, num: int)

  /** isBigger(a, b) */
  predicate Before(a: Id, b: Id) {
    a.ms < b.ms || (a.ms == b.ms && a.num < b.num)
  }

  /** The ID argument of XADD: "*", "5-*", "5-3", "5", "*-3", or anything else. */
  datatype IdText = Auto | MsAuto(ms: nat) | Explicit(id: Id) | NoDash | StarMs | Malformed

  datatype Item = Item(id: Id, fields: seq<string>)

  datatype Stream = Stream(items: seq<Item>, lastMs: int, lastSeq: int, length: nat)

  const EMPTY := Stream([], 0, 0, 0)

  datatype Error = InvalidId | MustExceedZero | NotAboveTop

  /** Unspecified: the C reads a number that was never parsed. */
  datatype Outcome = Added(stream: Stream, id: Id) | Refused(error: Error) | Unspecified

  function LastId(s: Stream): Id
    requires s.items != []
  {
    s.items[|s.items| - 1].id
  }

  /** validate_stream_id, which is consulted only when the stream has a tail. */
  function Validate(text: IdText, tail: Id): Option<Error> {
    match text
    case Auto => None
    case MsAuto(_) => None
    case NoDash => Some(InvalidId)
    case StarMs => Some(InvalidId)
    case Malformed => Some(InvalidId)
    case Explicit(id) =>
      if id == Id(0, 0) then Some(MustExceedZero)
      else if !Before(tail, id) then Some(NotAboveTop)
      else None
  }

  /** generateId for an ID that contains a star. */
  function Generate(s: Stream, text: IdText, now: int): Id
    requires text.Auto? || text.MsAuto? || text.StarMs?
  {
    match text
    case MsAuto(ms) =>
      if ms == s.lastMs then Id(ms, s.lastSeq + 1) else Id(ms, if ms == 0 then 1 else 0)
    case _ =>
      if s.items == [] then Id(now, if now == 0 then 1 else 0)
      else if now > s.lastMs then Id(now, 0)
      else Id(s.lastMs, s.lastSeq + 1)
  }

  function Append(s: Stream, id: Id, fields: seq<string>): Stream {
    Stream(s.items + [Item(id, fields)], id.ms, id.num, s.length + 1)
  }

  /** handle_set_stream: the first entry of a stream is not validated at all. */
  function XAdd(s: Stream, text: IdText, fields: seq<string>, now: int): Outcome {
    var error := if s.items == [] then None else Validate(text, LastId(s));
    if error.Some? then Refused(error.value)
    else
      match text
      case Malformed => Unspecified
      case NoDash => Unspecified
      case Explicit(id) => Added(Append(s, id, fields), id)
      case _ => var id := Generate(s, text, now); Added(Append(s, id, fields), id)
  }

  // ----- which IDs XADD takes, in plain numbers -----

  /** last_ms and last_seq are the tail's ID, and 0-0 while there is none. */
  predicate TailMatches(s: Stream) {
    if s.items == [] then s.lastMs == 0 && s.lastSeq == 0
    else s.items[|s.items| - 1].id.ms == s.lastMs && s.items[|s.items| - 1].id.num == s.lastSeq
  }

  predicate Above(ms: int, num: int, lastMs: int, lastSeq: int) {
    ms > lastMs || (ms == lastMs && num > lastSeq)
  }

  /** An empty stream takes any ID that can be read. Otherwise an explicit one must be above the
      last, and above 0-0; of the forms with a star, "ms-*" and "*" are taken. */
  predicate Takes(text: IdText, empty: bool, lastMs: int, lastSeq: int) {
    match text
    case Auto => true
    case MsAuto(_) => true
    case Explicit(id) => empty || (Above(id.ms, id.num, lastMs, lastSeq) && (id.ms != 0 || id.num != 0))
    case StarMs => empty
    case NoDash => false
    case Malformed => false
  }

  /** Number n is free at a millisecond: above the last one there, and 0-0 never is. */
  predicate Unused(ms: int, n: int, lastMs: int, lastSeq: int) {
    if ms == lastMs then n > lastSeq else n >= 0 && (ms != 0 || n != 0)
  }

  /** An ID that "*" may stand for at this clock. */
  predicate Candidate(ms: int, n: int, lastMs: int, lastSeq: int, now: int) {
    ms >= now && n >= 0 && Above(ms, n, lastMs, lastSeq)
  }

  /** The ID of the new entry: the explicit one; for "ms-*" the least that is free at that
      millisecond; for "*" the least above the last one that the clock allows. */
  ghost predicate Chosen(text: IdText, lastMs: int, lastSeq: int, now: int, id: Id) {
    match text
    case Explicit(given) => id == given
    case MsAuto(ms) => id.ms == ms && forall n :: Unused(ms, n, lastMs, lastSeq) <==> id.num <= n
    case _ =>
      now >= 0 && lastSeq >= 0 ==>
        && Candidate(id.ms, id.num, lastMs, lastSeq, now)
        && forall m, n | Candidate(m, n, lastMs, lastSeq, now) :: id.ms < m || (id.ms == m && id.num <= n)
  }

  /** Which XADDs are taken, and the error of each of the others; a text without two numbers on an
      empty stream has no specified outcome. */
  lemma {:induction false} XAddTakesIff(s: Stream, text: IdText, fields: seq<string>, now: int)
    requires TailMatches(s)
    ensures var r, empty := XAdd(s, text, fields, now), s.items == [];
            && (r.Added? <==> Takes(text, empty, s.lastMs, s.lastSeq))
            && (r.Unspecified? <==> empty && (text.NoDash? || text.Malformed?))
            && (r == Refused(InvalidId) <==> !empty && (text.NoDash? || text.StarMs? || text.Malformed?))
            && (r == Refused(MustExceedZero) <==> !empty && text == Explicit(Id(0, 0)))
            && (r == Refused(NotAboveTop) <==>
                  && !empty && text.Explicit? && text != Explicit(Id(0, 0))
                  && !Above(text.id.ms, text.id.num, s.lastMs, s.lastSeq))
  {
  }

  /** The ID that an XADD gives its entry, which goes to the end of the stream. */
  lemma {:induction false} XAddChooses(s: Stream, text: IdText, fields: seq<string>, now: int)
    requires TailMatches(s) && XAdd(s, text, fields, now).Added?
    ensures var r := XAdd(s, text, fields, now);
            && Chosen(text, s.lastMs, s.lastSeq, now, r.id)
            && r.stream.items == s.items + [Item(r.id, fields)]
            && r.stream.length == s.length + 1 && TailMatches(r.stream)
  {
  }

  // ----- the stream invariant -----

  ghost predicate Increasing(items: seq<Item>) {
    forall i, j | 0 <= i < j < |items| :: Before(items[i].id, items[j].id)
  }

  /** IDs strictly increase along the chain, last_ms and last_seq are the tail's ID, and length
      counts the entries. */
  ghost predicate Valid(s: Stream) {
    && Increasing(s.items)
    && (s.items != [] ==> LastId(s) == Id(s.lastMs, s.lastSeq))
    && s.length == |s.items|
  }

  /** "ms-*" below the last millisecond: the one form that gets past validation unordered. */
  predicate StepsBack(s: Stream, text: IdText) {
    text.MsAuto? && s.items != [] && text.ms < s.lastMs
  }

  lemma {:induction false} AppendKeepsValid(s: Stream, id: Id, fields: seq<string>)
    requires Valid(s)
    ensures Valid(Append(s, id, fields)) <==> s.items == [] || Before(LastId(s), id)
  {
    var r := Append(s, id, fields);
    var n := |s.items|;
    assert forall i | 0 <= i < n :: r.items[i] == s.items[i];
    if n > 0 {
      assert r.items[n - 1].id == LastId(s) && r.items[n].id == id;
    }
  }

  /** An accepted XADD keeps the stream invariant exactly when its ID is not "ms-*" with ms
      below the last millisecond, whatever the clock shows. */
  lemma {:induction false} XAddKeepsValidIff(s: Stream, text: IdText, fields: seq<string>, now: int)
    requires Valid(s) && XAdd(s, text, fields, now).Added?
    ensures Valid(XAdd(s, text, fields, now).stream) <==> !StepsBack(s, text)
  {
    AppendKeepsValid(s, XAdd(s, text, fields, now).id, fields);
  }

  /** One XADD attempt. */
  datatype Call = Call(text: IdText, fields: seq<string>, now: int)

  function After(s: Stream, c: Call): Stream {
    var r := XAdd(s, c.text, c.fields, c.now);
    if r.Added? then r.stream else s
  }

  function AfterAll(s: Stream, calls: seq<Call>): Stream
    decreases |calls|
  {
    if calls == [] then s else AfterAll(After(s, calls[0]), calls[1..])
  }

  /** No call of the run steps back below the last millisecond of the stream it meets. */
  predicate NeverStepsBack(s: Stream, calls: seq<Call>)
    decreases |calls|
  {
    calls == [] || (!StepsBack(s, calls[0].text) && NeverStepsBack(After(s, calls[0]), calls[1..]))
  }

  /** The invariant over whole runs, for any clock readings, also ones that go backwards; what
      is in the stream already is never changed. */
  lemma {:induction false} RunKeepsValid(s: Stream, calls: seq<Call>)
    requires Valid(s) && NeverStepsBack(s, calls)
    ensures Valid(AfterAll(s, calls)) && s.items <= AfterAll(s, calls).items
    ensures var items := AfterAll(s, calls).items;
            forall i, j | 0 <= i < j < |items| ::
              Above(items[j].id.ms, items[j].id.num, items[i].id.ms, items[i].id.num)
    decreases |calls|
  {
    if calls != [] {
      var c := calls[0];
      if XAdd(s, c.text, c.fields, c.now).Added? {
        XAddKeepsValidIff(s, c.text, c.fields, c.now);
      }
      RunKeepsValid(After(s, c), calls[1..]);
    }
    ValidIsOrdered(AfterAll(s, calls).items);
  }

  lemma {:induction false} ValidIsOrdered(items: seq<Item>)
    requires Increasing(items)
    ensures forall i, j | 0 <= i < j < |items| ::
      Above(items[j].id.ms, items[j].id.num, items[i].id.ms, items[i].id.num)
  {
  }

  lemma {:induction false} TailAlways(s: Stream, calls: seq<Call>)
    requires TailMatches(s)
    ensures TailMatches(AfterAll(s, calls))
    decreases |calls|
  {
    if calls != [] {
      TailAlways(After(s, calls[0]), calls[1..]);
    }
  }

  /** XADD after any run of XADDs, also ones that stepped back: exactly which IDs it takes, what
      it answers to the others, and the ID it gives the new entry. */
  lemma {:induction false} XAddAnswers(calls: seq<Call>, text: IdText, fields: seq<string>, now: int)
    ensures var s := AfterAll(EMPTY, calls);
            var r, empty := XAdd(s, text, fields, now), s.items == [];
            && (r.Added? <==> Takes(text, empty, s.lastMs, s.lastSeq))
            && (r.Added? ==> Chosen(text, s.lastMs, s.lastSeq, now, r.id))
            && (r.Added? ==> r.stream.items == s.items + [Item(r.id, fields)])
            && (!empty ==> s.items[|s.items| - 1].id == Id(s.lastMs, s.lastSeq))
            && (r.Unspecified? <==> empty && (text.NoDash? || text.Malformed?))
            && (r == Refused(InvalidId) <==> !empty && (text.NoDash? || text.StarMs? || text.Malformed?))
            && (r == Refused(MustExceedZero) <==> !empty && text == Explicit(Id(0, 0)))
            && (r == Refused(NotAboveTop) <==>
                  && !empty && text.Explicit? && text != Explicit(Id(0, 0))
                  && !Above(text.id.ms, text.id.num, s.lastMs, s.lastSeq))
  {
    TailAlways(EMPTY, calls);
    var s := AfterAll(EMPTY, calls);
    XAddTakesIff(s, text, fields, now);
    if XAdd(s, text, fields, now).Added? {
      XAddChooses(s, text, fields, now);
    }
  }

  // ----- XREAD -----

  /** The filter of streamEntry_XREAD_toString: after the cursor, up to the tail. */
  predicate Selected(item: Item, from: Id, tail: Id) {
    Before(from, item.id) && !Before(tail, item.id)
  }

  function Filter(items: seq<Item>, from: Id, tail: Id): seq<Item> {
    if items == [] then []
    else (if Selected(items[0], from, tail) then [items[0]] else []) + Filter(items[1..], from, tail)
  }

  /** The walk has got what it has met, and still has the rest to filter. */
  lemma {:induction false} FilterStep(got: seq<Item>, items: seq<Item>, i: nat, from: Id, tail: Id)
    requires i < |items|
    ensures got + Filter(items[i..], from, tail)
         == (if Selected(items[i], from, tail) then got + [items[i]] else got) + Filter(items[i + 1..], from, tail)
  {
    assert items[i..][1..] == items[i + 1..];
    ConcatAssociates(got, [items[i]], Filter(items[i + 1..], from, tail));
  }

  /** What XREAD from a cursor returns. */
  function Read(s: Stream, from: Id): seq<Item> {
    if s.items == [] then [] else Filter(s.items, from, LastId(s))
  }

  /** How many entries lie at or below the cursor. */
  function Seen(items: seq<Item>, from: Id): (n: nat)
    ensures n <= |items|
    ensures forall i | 0 <= i < n :: !Before(from, items[i].id)
    ensures n < |items| ==> Before(from, items[n].id)
  {
    if items == [] || Before(from, items[0].id) then 0 else 1 + Seen(items[1..], from)
  }

  lemma {:induction false} FilterIsSuffix(items: seq<Item>, from: Id, tail: Id)
    requires Increasing(items) && forall i | 0 <= i < |items| :: !Before(tail, items[i].id)
    ensures Filter(items, from, tail) == items[Seen(items, from)..]
  {
    if items != [] {
      FilterIsSuffix(items[1..], from, tail);
      if Before(from, items[0].id) {
        assert Seen(items[1..], from) == 0 by {
          if |items| > 1 { assert Before(items[0].id, items[1].id); }
        }
      }
    }
  }

  /** XREAD returns exactly the entries above the cursor: a suffix of the stream. */
  lemma {:induction false} ReadIsSuffix(s: Stream, from: Id)
    requires Valid(s)
    ensures Read(s, from) == s.items[Seen(s.items, from)..]
    ensures var items, n := s.items, Seen(s.items, from);
            && (forall i | 0 <= i < n :: !Above(items[i].id.ms, items[i].id.num, from.ms, from.num))
            && (forall i | n <= i < |items| :: Above(items[i].id.ms, items[i].id.num, from.ms, from.num))
  {
    if s.items != [] {
      FilterIsSuffix(s.items, from, LastId(s));
    }
  }

  /** The filter, entry by entry. */
  lemma {:induction false} FilterHolds(items: seq<Item>, from: Id, tail: Id, x: Item)
    ensures x in Filter(items, from, tail) <==>
      && x in items && Above(x.id.ms, x.id.num, from.ms, from.num)
      && !Above(x.id.ms, x.id.num, tail.ms, tail.num)
  {
    if items != [] {
      FilterHolds(items[1..], from, tail, x);
    }
  }

  /** The ID of an entry is above the last one: a later entry stepped back. */
  predicate AboveLast(s: Stream, x: Item)
    requires s.items != []
  {
    Above(x.id.ms, x.id.num, LastId(s).ms, LastId(s).num)
  }

  /** On any stream, also one with steps back: XREAD returns every entry above its cursor exactly
      when none of them is above the last entry too. */
  lemma {:induction false} ReadIsCompleteIff(s: Stream, from: Id)
    requires s.items != []
    ensures (forall x | x in s.items && Above(x.id.ms, x.id.num, from.ms, from.num) :: x in Read(s, from))
       <==> (forall x | x in s.items && Above(x.id.ms, x.id.num, from.ms, from.num) :: !AboveLast(s, x))
  {
    forall x | x in s.items && Above(x.id.ms, x.id.num, from.ms, from.num)
      ensures x in Read(s, from) <==> !AboveLast(s, x)
    {
      FilterHolds(s.items, from, LastId(s), x);
    }
  }

  /** XADD 5-0 and XADD 3-*: then XREAD from 4-0 does not return 5-0. */
  lemma {:induction false} StepBackHides(now: int)
    ensures var s := After(After(EMPTY, Call(Explicit(Id(5, 0)), [], now)), Call(MsAuto(3), [], now));
            Item(Id(5, 0), []) in s.items && Read(s, Id(4, 0)) == []
  {
    var five := Stream([Item(Id(5, 0), [])], 5, 0, 1);
    assert After(EMPTY, Call(Explicit(Id(5, 0)), [], now)) == five;
    var s := After(five, Call(MsAuto(3), [], now));
    assert s.items == [Item(Id(5, 0), []), Item(Id(3, 0), [])];
    assert s.items[0] == Item(Id(5, 0), []) && s.items[1..] == [Item(Id(3, 0), [])] && s.items[1..][1..] == [];
    assert Filter(s.items[1..], Id(4, 0), Id(3, 0)) == [];
  }

  lemma {:induction false} SeenIs(items: seq<Item>, from: Id, n: nat)
    requires Increasing(items) && n <= |items|
    requires n > 0 ==> !Before(from, items[n - 1].id)
    requires n < |items| ==> Before(from, items[n].id)
    ensures Seen(items, from) == n
  {
    if n > 0 {
      assert n == 1 || Before(items[0].id, items[n - 1].id);
      SeenIs(items[1..], from, n - 1);
    }
  }

  // ----- exactly-once reading -----

  /** A reader and the stream it follows: XADD calls by anyone, reads by this reader. */
  datatype Follow = Follow(stream: Stream, cursor: Id, received: seq<Item>)

  datatype FollowEvent = Add(call: Call) | ReadOn

  function FollowStep(f: Follow, e: FollowEvent): Follow {
    match e
    case Add(c) => f.(stream := After(f.stream, c))
    case ReadOn =>
      var got := Read(f.stream, f.cursor);
      if got == [] then f else f.(cursor := got[|got| - 1].id, received := f.received + got)
  }

  function FollowAll(f: Follow, events: seq<FollowEvent>): Follow
    decreases |events|
  {
    if events == [] then f else FollowAll(FollowStep(f, events[0]), events[1..])
  }

  predicate FollowOrdered(f: Follow, events: seq<FollowEvent>)
    decreases |events|
  {
    events == [] ||
    (&& (events[0].Add? ==> !StepsBack(f.stream, events[0].call.text))
     && FollowOrdered(FollowStep(f, events[0]), events[1..]))
  }

  /** The items from a to b are what has been received, start lies below item a, and the cursor
      is the last received ID, or still the start. */
  ghost predicate Between(items: seq<Item>, received: seq<Item>, start: Id, cursor: Id, a: nat, b: nat) {
    && a <= b <= |items| && received == items[a..b]
    && (cursor == start || (a < b && cursor == items[b - 1].id))
  }

  /** The reader has received exactly the entries between its start and its cursor. */
  ghost predicate CaughtUp(f: Follow, start: Id) {
    var items := f.stream.items;
    Valid(f.stream) && Between(items, f.received, start, f.cursor, Seen(items, start), Seen(items, f.cursor))
  }

  lemma {:induction false} SeenGrows(items: seq<Item>, item: Item, from: Id)
    ensures Seen(items + [item], from)
         == if Seen(items, from) == |items| && !Before(from, item.id) then |items| + 1 else Seen(items, from)
  {
    if items == [] {
      assert (items + [item])[1..] == [];
    } else {
      assert (items + [item])[1..] == items[1..] + [item];
      SeenGrows(items[1..], item, from);
    }
  }

  lemma {:induction false} AppendKeepsBetween(items: seq<Item>, item: Item, received: seq<Item>, start: Id, cursor: Id)
    requires Increasing(items + [item])
    requires Between(items, received, start, cursor, Seen(items, start), Seen(items, cursor))
    ensures var r := items + [item]; Between(r, received, start, cursor, Seen(r, start), Seen(r, cursor))
  {
    var b, r := Seen(items, cursor), items + [item];
    SeenGrows(items, item, start);
    SeenGrows(items, item, cursor);
    if cursor != start {
      assert r[b - 1] == items[b - 1] && r[|items|] == item;
      assert Before(r[b - 1].id, r[|items|].id);
    }
  }

  lemma {:induction false} AddKeepsCaughtUp(f: Follow, c: Call, start: Id)
    requires CaughtUp(f, start) && !StepsBack(f.stream, c.text)
    ensures CaughtUp(FollowStep(f, Add(c)), start)
  {
    var r := XAdd(f.stream, c.text, c.fields, c.now);
    if r.Added? {
      XAddKeepsValidIff(f.stream, c.text, c.fields, c.now);
      AppendKeepsBetween(f.stream.items, Item(r.id, c.fields), f.received, start, f.cursor);
    }
  }

  lemma {:induction false} CatchUp(items: seq<Item>, received: seq<Item>, start: Id, cursor: Id, a: nat, b: nat)
    requires Between(items, received, start, cursor, a, b) && b < |items|
    ensures Between(items, received + items[b..], start, items[|items| - 1].id, a, |items|)
  {
    SlicesJoin(items, a, b);
  }

  lemma {:induction false} ReadKeepsCaughtUp(f: Follow, start: Id)
    requires CaughtUp(f, start)
    ensures CaughtUp(FollowStep(f, ReadOn), start)
  {
    var items := f.stream.items;
    var a, b := Seen(items, start), Seen(items, f.cursor);
    ReadIsSuffix(f.stream, f.cursor);
    if b < |items| {
      var last := items[|items| - 1].id;
      assert items[b..][|items| - b - 1].id == last;
      SeenIs(items, last, |items|);
      CatchUp(items, f.received, start, f.cursor, a, b);
    }
  }

  lemma {:induction false} CaughtUpReads(f: Follow, start: Id)
    requires CaughtUp(f, start)
    ensures f.received + Read(f.stream, f.cursor) == Read(f.stream, start)
  {
    var items := f.stream.items;
    var a, b := Seen(items, start), Seen(items, f.cursor);
    ReadIsSuffix(f.stream, f.cursor);
    ReadIsSuffix(f.stream, start);
    SlicesJoin(items, a, b);
  }

  /** Exactly once: over any interleaving of XADDs that do not step back and reads from the last
      delivered ID, what the reader has received, followed by what the next read will return,
      is every entry above its start, each once and in stream order. */
  lemma {:induction false} ExactlyOnce(f: Follow, events: seq<FollowEvent>, start: Id)
    requires CaughtUp(f, start) && FollowOrdered(f, events)
    ensures var g := FollowAll(f, events);
            CaughtUp(g, start) && g.received + Read(g.stream, g.cursor) == Read(g.stream, start)
    decreases |events|
  {
    if events == [] {
      CaughtUpReads(f, start);
    } else {
      if events[0].Add? {
        AddKeepsCaughtUp(f, events[0].call, start);
      } else {
        ReadKeepsCaughtUp(f, start);
      }
      ExactlyOnce(FollowStep(f, events[0]), events[1..], start);
    }
  }

  // ----- blocked readers -----

  /** A client: free, or blocked on a key until an entry above min_id arrives. */
  datatype Client = Free | Blocked(key: string, minId: Id)

  datatype Server = Server(streams: map<string, Stream>, clients: seq<Client>, sent: seq<seq<seq<Item>>>)

  datatype Event =
    | Write(key: string, call: Call)
    | BlockFromTail(client: nat, key: string)
    | BlockFrom(client: nat, key: string, minId: Id)
    | Timeout(client: nat)

  function StreamAt(s: Server, key: string): Stream {
    if key in s.streams then s.streams[key] else EMPTY
  }

  /** A blocked client sends nothing; "$" is given a meaning by the C on a non-empty stream
      only; an XADD must not leave the specified behaviour. */
  predicate Enabled(s: Server, e: Event) {
    |s.sent| == |s.clients| &&
    match e
    case Write(key, c) => !XAdd(StreamAt(s, key), c.text, c.fields, c.now).Unspecified?
    case BlockFromTail(c, key) => c < |s.clients| && s.clients[c].Free? && StreamAt(s, key).items != []
    case BlockFrom(c, key, _) => c < |s.clients| && s.clients[c].Free?
    case Timeout(c) => c < |s.clients| && s.clients[c].Blocked?
  }

  /** try_deliver_stream_data for one client after an XADD on the key. */
  function Wake(c: Client, key: string, stream: Stream): Client {
    if c.Blocked? && c.key == key && Read(stream, c.minId) != [] then Free else c
  }

  /** The messages that the same call sends. */
  function Delivery(c: Client, key: string, stream: Stream): seq<seq<Item>> {
    if c.Blocked? && c.key == key && Read(stream, c.minId) != [] then [Read(stream, c.minId)] else []
  }

  function WakeAll(s: Server, key: string): (r: Server)
    requires |s.sent| == |s.clients|
    ensures |r.clients| == |s.clients| == |r.sent| && r.streams == s.streams
    ensures forall i | 0 <= i < |s.clients| :: r.clients[i] == Wake(s.clients[i], key, StreamAt(s, key))
    ensures forall i | 0 <= i < |s.clients| :: r.sent[i] == s.sent[i] + Delivery(s.clients[i], key, StreamAt(s, key))
  {
    var stream, n := StreamAt(s, key), |s.clients|;
    s.(clients := seq(n, i requires 0 <= i < n => Wake(s.clients[i], key, stream)),
       sent := seq(n, i requires 0 <= i < n => s.sent[i] + Delivery(s.clients[i], key, stream)))
  }

  function Block(s: Server, client: nat, key: string, minId: Id): Server
    requires client < |s.clients|
  {
    s.(clients := s.clients[client := Blocked(key, minId)])
  }

  function Step(s: Server, e: Event): Server
    requires Enabled(s, e)
  {
    match e
    case Write(key, c) =>
      var r := XAdd(StreamAt(s, key), c.text, c.fields, c.now);
      if r.Added? then WakeAll(s.(streams := s.streams[key := r.stream]), key) else s
    case BlockFromTail(c, key) => Block(s, c, key, LastId(StreamAt(s, key)))
    case BlockFrom(c, key, minId) => Block(s, c, key, minId)
    case Timeout(c) => s.(clients := s.clients[c := Free])
  }

  /** The stream holds no entry above the ID. */
  ghost predicate NoneAbove(s: Stream, minId: Id) {
    forall k | 0 <= k < |s.items| :: !Before(minId, s.items[k].id)
  }

  /** No client is blocked while its stream holds an entry above its min_id. */
  ghost predicate NobodyMissed(s: Server) {
    forall i | 0 <= i < |s.clients| && s.clients[i].Blocked? ::
      NoneAbove(StreamAt(s, s.clients[i].key), s.clients[i].minId)
  }

  /** The min_id of a client that the event blocks. */
  function StartOf(s: Server, e: Event): Id
    requires Enabled(s, e) && (e.BlockFromTail? || e.BlockFrom?)
  {
    if e.BlockFrom? then e.minId else LastId(StreamAt(s, e.key))
  }

  lemma {:induction false} NoneAboveReadsNothing(items: seq<Item>, from: Id, tail: Id)
    requires forall k | 0 <= k < |items| :: !Before(from, items[k].id)
    ensures Filter(items, from, tail) == []
  {
    if items != [] {
      assert forall k | 0 <= k < |items[1..]| :: items[1..][k] == items[k + 1];
      NoneAboveReadsNothing(items[1..], from, tail);
    }
  }

  lemma {:induction false} FilterOneMore(items: seq<Item>, item: Item, from: Id, tail: Id)
    ensures Filter(items + [item], from, tail)
         == Filter(items, from, tail) + if Selected(item, from, tail) then [item] else []
  {
    var r := items + [item];
    if items == [] {
      assert r[1..] == [];
    } else {
      assert r[1..] == items[1..] + [item];
      FilterOneMore(items[1..], item, from, tail);
    }
  }

  /** Above all that a stream holds there is only what the next XADD brings, even if the XADD
      steps back. */
  lemma {:induction false} ReadAfterAppend(stream: Stream, id: Id, fields: seq<string>, minId: Id)
    requires NoneAbove(stream, minId)
    ensures Read(Append(stream, id, fields), minId) == if Before(minId, id) then [Item(id, fields)] else []
  {
    NoneAboveReadsNothing(stream.items, minId, id);
    FilterOneMore(stream.items, Item(id, fields), minId, id);
  }

  lemma {:induction false} WriteWakes(s: Server, key: string, c: Call, i: nat)
    requires Enabled(s, Write(key, c)) && i < |s.clients|
    requires XAdd(StreamAt(s, key), c.text, c.fields, c.now).Added?
    ensures var stream, r := XAdd(StreamAt(s, key), c.text, c.fields, c.now).stream, Step(s, Write(key, c));
            && r.clients[i] == Wake(s.clients[i], key, stream)
            && r.sent[i] == s.sent[i] + Delivery(s.clients[i], key, stream)
  {
    var stream := XAdd(StreamAt(s, key), c.text, c.fields, c.now).stream;
    assert StreamAt(s.(streams := s.streams[key := stream]), key) == stream;
  }

  /** The XADD that first brings an entry above a blocked client's min_id wakes it, and sends it
      exactly that entry; an XADD of an entry at or below the min_id leaves it blocked. */
  lemma {:induction false} WakesWithNewEntry(s: Server, key: string, c: Call, i: nat)
    requires Enabled(s, Write(key, c)) && NobodyMissed(s)
    requires i < |s.clients| && s.clients[i].Blocked? && s.clients[i].key == key
    requires XAdd(StreamAt(s, key), c.text, c.fields, c.now).Added?
    ensures var id, r := XAdd(StreamAt(s, key), c.text, c.fields, c.now).id, Step(s, Write(key, c));
            if Above(id.ms, id.num, s.clients[i].minId.ms, s.clients[i].minId.num)
            then r.clients[i] == Free && r.sent[i] == s.sent[i] + [[Item(id, c.fields)]]
            else r.clients[i] == s.clients[i] && r.sent[i] == s.sent[i]
  {
    var stream := StreamAt(s, key);
    var id := XAdd(stream, c.text, c.fields, c.now).id;
    ReadAfterAppend(stream, id, c.fields, s.clients[i].minId);
    WriteWakes(s, key, c, i);
  }

  lemma {:induction false} WriteMissesNobody(s: Server, key: string, c: Call)
    requires Enabled(s, Write(key, c)) && NobodyMissed(s)
    ensures NobodyMissed(Step(s, Write(key, c)))
  {
    var r := Step(s, Write(key, c));
    if XAdd(StreamAt(s, key), c.text, c.fields, c.now).Added? {
      forall i | 0 <= i < |r.clients| && r.clients[i].Blocked?
        ensures NoneAbove(StreamAt(r, r.clients[i].key), r.clients[i].minId)
      {
        WriteWakes(s, key, c, i);
        if s.clients[i].key == key {
          WakesWithNewEntry(s, key, c, i);
        }
      }
    }
  }

  /** A step leaves a client blocked below an entry exactly when it blocks one there: no XADD
      does, not even one that steps back. */
  lemma {:induction false} StepMissesIff(s: Server, e: Event)
    requires Enabled(s, e) && NobodyMissed(s)
    ensures NobodyMissed(Step(s, e))
       <==> (e.BlockFromTail? || e.BlockFrom? ==> NoneAbove(StreamAt(s, e.key), StartOf(s, e)))
  {
    var r := Step(s, e);
    if e.Write? {
      WriteMissesNobody(s, e.key, e.call);
    } else if e.Timeout? {
      assert forall i | 0 <= i < |r.clients| && r.clients[i].Blocked? :: r.clients[i] == s.clients[i];
    } else {
      assert r.clients[e.client] == Blocked(e.key, StartOf(s, e));
    }
  }

  // ----- no lost wakeup -----

  /** Every stream keeps the stream invariant. */
  ghost predicate AllValid(s: Server) {
    forall key | key in s.streams :: Valid(s.streams[key])
  }

  predicate Ordered(s: Server, e: Event) {
    e.Write? ==> !StepsBack(StreamAt(s, e.key), e.call.text)
  }

  lemma {:induction false} StepKeepsAllValid(s: Server, e: Event)
    requires Enabled(s, e) && AllValid(s) && Ordered(s, e)
    ensures AllValid(Step(s, e))
  {
    if e.Write? {
      var stream, c := StreamAt(s, e.key), e.call;
      if XAdd(stream, c.text, c.fields, c.now).Added? {
        XAddKeepsValidIff(stream, c.text, c.fields, c.now);
      }
    }
  }

  lemma {:induction false} NoneAboveTail(s: Stream)
    requires Valid(s) && s.items != []
    ensures NoneAbove(s, LastId(s))
  {
  }

  ghost predicate IsRun(states: seq<Server>, events: seq<Event>) {
    && |states| == |events| + 1
    && forall i | 0 <= i < |events| :: Enabled(states[i], events[i]) && states[i + 1] == Step(states[i], events[i])
  }

  /** No XADD of the run steps back. */
  ghost predicate IsOrdered(states: seq<Server>, events: seq<Event>)
    requires IsRun(states, events)
  {
    forall i | 0 <= i < |events| :: Ordered(states[i], events[i])
  }

  /** No XREAD BLOCK of the run names an ID below an entry that its stream holds. */
  ghost predicate BlocksAbove(states: seq<Server>, events: seq<Event>)
    requires IsRun(states, events)
  {
    forall i | 0 <= i < |events| && events[i].BlockFrom? ::
      NoneAbove(StreamAt(states[i], events[i].key), events[i].minId)
  }

  lemma {:induction false} OrderedRunKeepsAllValid(states: seq<Server>, events: seq<Event>, n: nat)
    requires IsRun(states, events) && AllValid(states[0]) && IsOrdered(states, events) && n <= |events|
    ensures AllValid(states[n])
  {
    if n > 0 {
      OrderedRunKeepsAllValid(states, events, n - 1);
      StepKeepsAllValid(states[n - 1], events[n - 1]);
    }
  }

  lemma {:induction false} NobodyMissedAt(states: seq<Server>, events: seq<Event>, n: nat)
    requires IsRun(states, events) && NobodyMissed(states[0]) && AllValid(states[0])
    requires IsOrdered(states, events) && BlocksAbove(states, events) && n <= |events|
    ensures NobodyMissed(states[n])
  {
    if n > 0 {
      var s, e := states[n - 1], events[n - 1];
      NobodyMissedAt(states, events, n - 1);
      OrderedRunKeepsAllValid(states, events, n - 1);
      StepMissesIff(s, e);
      if e.BlockFromTail? {
        NoneAboveTail(StreamAt(s, e.key));
      }
    }
  }

  /** No lost wakeup, over whole runs in which no XADD steps back: between commands no client is
      ever blocked while its stream holds an entry above its min_id, exactly when no XREAD BLOCK
      named an ID below an entry that its stream held. */
  lemma {:induction false} NoLostWakeup(states: seq<Server>, events: seq<Event>)
    requires IsRun(states, events) && NobodyMissed(states[0]) && AllValid(states[0]) && IsOrdered(states, events)
    ensures (forall n | 0 <= n <= |events| :: NobodyMissed(states[n])) <==> BlocksAbove(states, events)
  {
    if BlocksAbove(states, events) {
      forall n | 0 <= n <= |events| ensures NobodyMissed(states[n]) {
        NobodyMissedAt(states, events, n);
      }
    }
    if forall n | 0 <= n <= |events| :: NobodyMissed(states[n]) {
      forall i | 0 <= i < |events| && events[i].BlockFrom?
        ensures NoneAbove(StreamAt(states[i], events[i].key), events[i].minId)
      {
        assert NobodyMissed(states[i]) && NobodyMissed(states[i + 1]);
        StepMissesIff(states[i], events[i]);
      }
    }
  }

  /** After a step back even "$" blocks below an entry: XADD 5-0, XADD 3-*, XREAD BLOCK $. */
  lemma {:induction false} TailMissesAfterStepBack(key: string, now: int)
    ensures var s0 := Server(map[], [Free], [[]]);
            var e1, e2 := Write(key, Call(Explicit(Id(5, 0)), [], now)), Write(key, Call(MsAuto(3), [], now));
            && Enabled(s0, e1) && Enabled(Step(s0, e1), e2)
            && var s := Step(Step(s0, e1), e2);
               NobodyMissed(s) && Enabled(s, BlockFromTail(0, key)) && !NobodyMissed(Step(s, BlockFromTail(0, key)))
  {
    var s0 := Server(map[], [Free], [[]]);
    var e1, e2 := Write(key, Call(Explicit(Id(5, 0)), [], now)), Write(key, Call(MsAuto(3), [], now));
    var five := Stream([Item(Id(5, 0), [])], 5, 0, 1);
    var s1 := Step(s0, e1);
    assert StreamAt(s1, key) == five;
    var s := Step(s1, e2);
    var both := StreamAt(s, key);
    assert both.items == [Item(Id(5, 0), []), Item(Id(3, 0), [])];
    assert s.clients[0] == Free;
    StepMissesIff(s, BlockFromTail(0, key));
    assert Before(LastId(both), both.items[0].id);
  }
}
