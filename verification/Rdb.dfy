/** The RDB loader of rdb_handler.c (string records), and an encoder that says what an RDB
    file is meant to hold. */
module Rdb {
  import opened Seqs
  import opened CStrings
  import opened Tables

  type Byte = b: int | 0 <= b < 256

  // ----- reading -----

  /** What fread of n bytes leaves: the bytes, or None at a short file, which is used up. */
  datatype Taken = Taken(bytes: Option<seq<Byte>>, rest: seq<Byte>)

  function Take(file: seq<Byte>, n: nat): Taken {
    if n <= |file| then Taken(Some(file[..n]), file[n..]) else Taken(None, [])
  }

  function BigEndian(bytes: seq<Byte>): nat {
    if bytes == [] then 0 else BigEndian(bytes[..|bytes| - 1]) * 256 + bytes[|bytes| - 1]
  }

  function LittleEndian(bytes: seq<Byte>): nat {
    if bytes == [] then 0 else bytes[0] + 256 * LittleEndian(bytes[1..])
  }

  function Signed(n: nat, range: nat): int { if n < range / 2 then n else n - range }

  /** rdb_read_length: -1 is an error; encoded marks the integer-string forms. */
  datatype Length = Length(len: int, encoded: bool, rest: seq<Byte>)

  function ReadLength(file: seq<Byte>): (r: Length)
    ensures |r.rest| <= |file|
  {
    if file == [] then Length(-1, false, [])
    else
      var b: int, rest := file[0], file[1..];
      if b / 64 == 0 then Length(b % 64, false, rest)
      else if b / 64 == 1 then
        if rest == [] then Length(-1, false, []) else Length((b % 64) * 256 + rest[0] as int, false, rest[1..])
      else if b / 64 == 2 then
        var t := Take(rest, 4);
        if t.bytes.None? then Length(-1, false, [])
        else Length(Signed(BigEndian(t.bytes.value), 0x1_0000_0000), false, t.rest)
      else Length(b % 64, true, rest)
  }

  /** The C string in a byte buffer: everything before the first NUL. */
  function CText(bytes: seq<Byte>): string {
    if bytes == [] || bytes[0] == 0 then "" else [bytes[0] as char] + CText(bytes[1..])
  }

  /** rdb_read_string: None stands for NULL. */
  datatype Text = Text(text: Option<string>, rest: seq<Byte>)

  function ReadString(file: seq<Byte>): (r: Text)
    ensures |r.rest| <= |file|
  {
    var l := ReadLength(file);
    if l.len < 0 then Text(None, l.rest)
    else if l.encoded then
      var nbytes := if l.len == 0 then 1 else if l.len == 1 then 2 else 4;
      var t := Take(l.rest, nbytes);
      if t.bytes.None? then Text(None, t.rest)
      else Text(Some(DecInt(Signed(LittleEndian(t.bytes.value), 0x1_0000_0000))), t.rest)
    else
      var t := Take(l.rest, l.len);
      if t.bytes.None? then Text(None, t.rest) else Text(Some(CText(t.bytes.value)), t.rest)
  }

  // ----- load_rdb_into_table -----

  /** What one turn of the loading loop reads: a header record, a string record with the expiry
      that holds for it, or a key whose value is cut short; or the loop ends; or the program
      leaves what this model describes (a stream record, a key that does not index the table). */
  datatype Item =
    | Header(rest: seq<Byte>)
    | Stored(rest: seq<Byte>, key: Key, val: string, expiry: int)
    | KeyOnly(rest: seq<Byte>)
    | End
    | Outside

  /** The key and value after the type byte. */
  function ReadValue(valueType: Byte, file: seq<Byte>, expiry: int): (r: Item)
    ensures !r.End? && !r.Outside? ==> |r.rest| <= |file|
  {
    var k := ReadString(file);
    if k.text.None? then End
    else if valueType == 19 || !Indexes(k.text.value) then Outside
    else if valueType != 0 then End
    else
      var v := ReadString(k.rest);
      if v.text.None? then KeyOnly(v.rest) else Stored(v.rest, k.text.value, v.text.value, expiry)
  }

  /** The expiry of n bytes, then the type byte, key and value: seconds in four bytes,
      signed milliseconds in eight. */
  function ReadExpiring(n: nat, file: seq<Byte>): (r: Item)
    ensures !r.End? && !r.Outside? ==> |r.rest| <= |file|
  {
    var e := Take(file, n);
    if e.bytes.None? || e.rest == [] then End
    else
      var v := LittleEndian(e.bytes.value);
      ReadValue(e.rest[0], e.rest[1..], if n == 4 then v * 1000 else Signed(v, 0x1_0000_0000_0000_0000))
  }

  function ReadItem(file: seq<Byte>, expiry: int): (r: Item)
    requires file != []
    ensures !r.End? && !r.Outside? ==> |r.rest| < |file|
  {
    var op, rest := file[0], file[1..];
    if op == 0xFF then End
    else if op == 0xFA then Header(ReadString(ReadString(rest).rest).rest)
    else if op == 0xFE then Header(ReadLength(rest).rest)
    else if op == 0xFB then Header(ReadLength(ReadLength(rest).rest).rest)
    else if op == 0xFD then ReadExpiring(4, rest)
    else if op == 0xFC then ReadExpiring(8, rest)
    else ReadValue(op, rest, expiry)
  }

  /** Storing a string record; an expiry of -1 is no expiry. */
  function StoreRecord(t: Table<string>, key: Key, val: string, expiry: int): (r: Table<string>)
    requires |t| == TABLE_SIZE
    ensures |r| == TABLE_SIZE
  {
    var stored := Put(t, key, val, 0);
    if expiry != -1 then SetHeadExpiry(stored, key, expiry) else stored
  }

  datatype Outcome = Loaded(table: Table<string>, count: nat) | OutsideModel

  /** The loop; the expiry is carried from record to record and reset by each key. */
  function LoadFrom(file: seq<Byte>, expiry: int, t: Table<string>, count: nat): Outcome
    requires |t| == TABLE_SIZE
    decreases |file|
  {
    if file == [] then Loaded(t, count)
    else
      match ReadItem(file, expiry)
      case End => Loaded(t, count)
      case Outside => OutsideModel
      case Header(rest) => LoadFrom(rest, expiry, t, count)
      case KeyOnly(rest) => LoadFrom(rest, -1, t, count)
      case Stored(rest, key, val, e) => LoadFrom(rest, -1, StoreRecord(t, key, val, e), count + 1)
  }

  /** The whole file: the nine header bytes are skipped, and the first expiry is 0. */
  function Load(file: seq<Byte>, t: Table<string>): Outcome
    requires |t| == TABLE_SIZE
  {
    LoadFrom(Take(file, 9).rest, 0, t, 0)
  }

  // ----- the format -----

  /** The forms of a length, and the integer forms of a string (RDB stores these signed). */
  datatype Form = Len6 | Len14 | Len32 | Int8 | Int16 | Int32

  predicate LengthFits(form: Form, n: nat) {
    match form
    case Len6 => n < 64
    case Len14 => n < 16384
    case Len32 => n < 0x8000_0000
    case _ => false
  }

  function EncodeLength(form: Form, n: nat): seq<Byte>
    requires LengthFits(form, n)
  {
    match form
    case Len6 => [n]
    case Len14 => [64 + n / 256, n % 256]
    case Len32 => [128, n / 0x100_0000, n / 0x1_0000 % 256, n / 256 % 256, n % 256]
  }

  /** The range of an integer form. */
  predicate IntegerFits(form: Form, n: int) {
    match form
    case Int8 => -128 <= n < 128
    case Int16 => -32768 <= n < 32768
    case Int32 => -0x8000_0000 <= n < 0x8000_0000
    case _ => false
  }

  function Unsigned(n: int, range: nat): int { if n < 0 then n + range else n }

  /** The number that the loader makes of an integer form: 8 and 16 bits have no sign. */
  function AsRead(form: Form, n: int): int {
    match form
    case Int8 => Unsigned(n, 256)
    case Int16 => Unsigned(n, 65536)
    case _ => n
  }

  /** Two's complement, low byte first. */
  function EncodeInteger(form: Form, n: int): seq<Byte>
    requires IntegerFits(form, n)
  {
    match form
    case Int8 => [192, Unsigned(n, 256)]
    case Int16 =>
      var u := Unsigned(n, 65536);
      [193, u % 256, u / 256]
    case Int32 =>
      var u := Unsigned(n, 0x1_0000_0000);
      [194, u % 256, u / 256 % 256, u / 0x1_0000 % 256, u / 0x100_0000]
  }

  predicate IsByteText(s: string) { forall c | c in s :: c as int < 256 }

  function Bytes(s: string): (r: seq<Byte>)
    requires IsByteText(s)
    ensures |r| == |s|
  {
    if s == [] then []
    else
      assert s[0] in s && forall c | c in s[1..] :: c in s;
      [s[0] as int] + Bytes(s[1..])
  }

  function BeforeNul(s: string): string {
    if s == "" || s[0] == '\0' then "" else [s[0]] + BeforeNul(s[1..])
  }

  datatype EncodedText = Plain(form: Form, text: string) | Integer(form: Form, n: int)
  {
    predicate Fits() {
      match this
      case Plain(form, text) => LengthFits(form, |text|) && IsByteText(text)
      case Integer(form, n) => IntegerFits(form, n)
    }

    /** The text that the string stands for in the format, where integers are signed and a NUL is
        a byte as any other, or the text that the loader reads. */
    function Text(meant: bool): string {
      match this
      case Plain(_, text) => if meant then text else BeforeNul(text)
      case Integer(form, n) => DecInt(if meant then n else AsRead(form, n))
    }

    /** The loader reads what the string stands for. */
    predicate ReadsAsMeant() {
      match this
      case Plain(_, text) => '\0' !in text
      case Integer(form, n) => n >= 0 || form.Int32?
    }

    function Encode(): seq<Byte>
      requires Fits()
    {
      match this
      case Plain(form, text) => EncodeLength(form, |text|) + Bytes(text)
      case Integer(form, n) => EncodeInteger(form, n)
    }
  }

  datatype Expiry = Never | Seconds(s: nat) | Millis(ms: nat)
  {
    predicate Fits() {
      match this
      case Never => true
      case Seconds(s) => s < 0x1_0000_0000
      case Millis(ms) => ms < 0x8000_0000_0000_0000
    }

    function At(): int {
      match this
      case Never => 0
      case Seconds(s) => s * 1000
      case Millis(ms) => ms
    }

    function Encode(): seq<Byte>
      requires Fits()
    {
      match this
      case Never => []
      case Seconds(s) => [0xFD] + LittleEndianBytes(s, 4)
      case Millis(ms) => [0xFC] + LittleEndianBytes(ms, 8)
    }
  }

  function LittleEndianBytes(n: nat, width: nat): (r: seq<Byte>)
    ensures |r| == width
  {
    if width == 0 then [] else [n % 256] + LittleEndianBytes(n / 256, width - 1)
  }

  datatype Record =
    | Aux(name: EncodedText, text: EncodedText)
    | SelectDb(form: Form, n: nat)
    | ResizeDb(form: Form, n: nat, form': Form, n': nat)
    | StringRecord(key: EncodedText, val: EncodedText, expiry: Expiry)
  {
    predicate Fits() {
      match this
      case Aux(name, text) => name.Fits() && text.Fits()
      case SelectDb(form, n) => LengthFits(form, n)
      case ResizeDb(form, n, form', n') => LengthFits(form, n) && LengthFits(form', n')
      case StringRecord(key, val, expiry) =>
        && key.Fits() && val.Fits() && expiry.Fits()
        && Indexes(key.Text(false))
    }

    function Encode(): seq<Byte>
      requires Fits()
    {
      match this
      case Aux(name, text) => [0xFA] + (name.Encode() + text.Encode())
      case SelectDb(form, n) => [0xFE] + EncodeLength(form, n)
      case ResizeDb(form, n, form', n') => [0xFB] + (EncodeLength(form, n) + EncodeLength(form', n'))
      case StringRecord(key, val, expiry) => expiry.Encode() + ([0] + (key.Encode() + val.Encode()))
    }
  }

  function EncodeAll(records: seq<Record>): seq<Byte>
    requires forall r | r in records :: r.Fits()
  {
    if records == [] then [] else records[0].Encode() + EncodeAll(records[1..])
  }

  /** What a string record binds its key to: as the format means it, or as the loader reads it. */
  function EntryOf(r: Record, meant: bool): Entry<string>
    requires r.StringRecord?
  {
    Entry(r.key.Text(meant), r.val.Text(meant), r.expiry.At())
  }

  /** Each key of the records bound to its own value and its own expiry. */
  function Bindings(m: map<string, Entry<string>>, records: seq<Record>, meant: bool): map<string, Entry<string>>
    decreases |records|
  {
    if records == [] then m
    else if records[0].StringRecord? then
      Bindings(m[records[0].key.Text(meant) := EntryOf(records[0], meant)], records[1..], meant)
    else Bindings(m, records[1..], meant)
  }

  function KeysOf(records: seq<Record>, meant: bool): seq<string> {
    if records == [] then []
    else (if records[0].StringRecord? then [records[0].key.Text(meant)] else []) + KeysOf(records[1..], meant)
  }

  predicate DistinctFrom(m: map<string, Entry<string>>, keys: seq<string>) {
    && (forall i | 0 <= i < |keys| :: keys[i] !in m)
    && (forall i, j | 0 <= i < j < |keys| :: keys[i] != keys[j])
  }

  // ----- reading inverts writing -----

  lemma {:induction false} ReadEncodedLength(form: Form, n: nat, tail: seq<Byte>)
    requires LengthFits(form, n)
    ensures ReadLength(EncodeLength(form, n) + tail) == Length(n, false, tail)
  {
    var file := EncodeLength(form, n) + tail;
    match form
    case Len6 => assert file[1..] == tail;
    case Len14 => assert file[1..][1..] == tail;
    case Len32 =>
      var rest := file[1..];
      assert rest[..4] == EncodeLength(form, n)[1..] && rest[4..] == tail;
      FourBytes(n);
      BigEndianOfFour(rest[0], rest[1], rest[2], rest[3]);
      assert rest[..4] == [rest[0], rest[1], rest[2], rest[3]];
  }

  lemma {:induction false} FourBytes(n: nat)
    requires n < 0x1_0000_0000
    ensures n == ((n / 0x100_0000 * 256 + n / 0x1_0000 % 256) * 256 + n / 256 % 256) * 256 + n % 256
  {
    assert n / 0x1_0000 == n / 256 / 256 && n / 0x100_0000 == n / 256 / 256 / 256;
  }

  lemma {:induction false} BigEndianOfFour(a: Byte, b: Byte, c: Byte, d: Byte)
    ensures BigEndian([a, b, c, d]) == ((a * 256 + b) * 256 + c) * 256 + d
  {
    assert [a][..0] == [] && BigEndian([a]) == a;
    assert [a, b][..1] == [a] && BigEndian([a, b]) == a * 256 + b;
    assert [a, b, c][..2] == [a, b] && BigEndian([a, b, c]) == (a * 256 + b) * 256 + c;
    assert [a, b, c, d][..3] == [a, b, c];
  }

  lemma {:induction false} LittleEndianInverts(n: nat, width: nat, range: nat)
    requires range == Range(width) && n < range
    ensures LittleEndian(LittleEndianBytes(n, width)) == n
  {
    if width > 0 {
      LittleEndianInverts(n / 256, width - 1, range / 256);
      assert LittleEndianBytes(n, width)[1..] == LittleEndianBytes(n / 256, width - 1);
    }
  }

  /** 256 to the power width */
  function Range(width: nat): nat { if width == 0 then 1 else 256 * Range(width - 1) }

  lemma {:induction false} CTextOfBytes(s: string)
    requires IsByteText(s)
    ensures CText(Bytes(s)) == BeforeNul(s)
  {
    if s != [] {
      assert s[0] in s && forall c | c in s[1..] :: c in s;
      CTextOfBytes(s[1..]);
      assert Bytes(s)[1..] == Bytes(s[1..]);
    }
  }

  lemma {:induction false} ReadEncodedText(t: EncodedText, tail: seq<Byte>)
    requires t.Fits()
    ensures ReadString(t.Encode() + tail) == Text(Some(t.Text(false)), tail)
  {
    match t
    case Plain(form, text) =>
      assert t.Encode() + tail == EncodeLength(form, |text|) + (Bytes(text) + tail);
      ReadEncodedLength(form, |text|, Bytes(text) + tail);
      assert (Bytes(text) + tail)[..|text|] == Bytes(text) && (Bytes(text) + tail)[|text|..] == tail;
      CTextOfBytes(text);
    case Integer(form, n) => ReadEncodedInteger(form, n, tail);
  }

  lemma {:induction false} IntegerBytes(form: Form, n: int)
    requires IntegerFits(form, n)
    ensures var bytes := EncodeInteger(form, n);
            && bytes[0] == (if form.Int8? then 192 else if form.Int16? then 193 else 194)
            && |bytes| == (if form.Int8? then 2 else if form.Int16? then 3 else 5)
            && LittleEndian(bytes[1..])
               == Unsigned(n, if form.Int8? then 256 else if form.Int16? then 65536 else 0x1_0000_0000)
  {
    FourBytes(Unsigned(n, if form.Int8? then 256 else if form.Int16? then 65536 else 0x1_0000_0000));
    LittleEndianOfFour(EncodeInteger(form, n)[1..]);
  }

  lemma {:induction false} ReadInteger(bytes: seq<Byte>, tail: seq<Byte>)
    requires bytes != [] && 192 <= bytes[0] <= 194
    requires |bytes| == (if bytes[0] == 192 then 2 else if bytes[0] == 193 then 3 else 5)
    ensures ReadString(bytes + tail) == Text(Some(DecInt(Signed(LittleEndian(bytes[1..]), 0x1_0000_0000))), tail)
  {
    var rest := (bytes + tail)[1..];
    assert rest[..|bytes| - 1] == bytes[1..] && rest[|bytes| - 1..] == tail;
  }

  /** The loader reads an integer string as its number exactly when the number is not negative
      or the form has 32 bits: the 8 and 16 bit forms are read without their sign. */
  lemma {:induction false} ReadEncodedInteger(form: Form, n: int, tail: seq<Byte>)
    requires IntegerFits(form, n)
    ensures ReadString(EncodeInteger(form, n) + tail) == Text(Some(DecInt(AsRead(form, n))), tail)
    ensures DecInt(AsRead(form, n)) == DecInt(n) <==> n >= 0 || form.Int32?
  {
    var bytes := EncodeInteger(form, n);
    IntegerBytes(form, n);
    ReadInteger(bytes, tail);
    AtoiOfDecInt(n);
    AtoiOfDecInt(Signed(LittleEndian(bytes[1..]), 0x1_0000_0000));
  }

  lemma {:induction false} LittleEndianOfFour(bytes: seq<Byte>)
    requires 1 <= |bytes| <= 4
    ensures |bytes| == 1 ==> LittleEndian(bytes) == bytes[0]
    ensures |bytes| == 2 ==> LittleEndian(bytes) == bytes[0] as int + 256 * bytes[1] as int
    ensures |bytes| == 4 ==>
      LittleEndian(bytes)
        == bytes[0] as int + 256 * bytes[1] as int + 65536 * bytes[2] as int + 16777216 * bytes[3] as int
  {
    LittleEndianStep(bytes);
    if |bytes| > 1 {
      LittleEndianStep(bytes[1..]);
    }
    if |bytes| == 4 {
      assert bytes[1..][1..] == [bytes[2], bytes[3]] && [bytes[2], bytes[3]][1..] == [bytes[3]];
      LittleEndianStep([bytes[2], bytes[3]]);
      LittleEndianStep([bytes[3]]);
    }
  }

  lemma {:induction false} LittleEndianStep(bytes: seq<Byte>)
    requires bytes != []
    ensures LittleEndian(bytes) == bytes[0] as int + 256 * LittleEndian(bytes[1..])
    ensures |bytes| == 1 ==> LittleEndian(bytes[1..]) == 0
  {
  }

  // ----- loading inverts encoding -----

  lemma {:induction false} ReadValueOfTexts(file: seq<Byte>, mid: seq<Byte>, rest: seq<Byte>, key: Key, val: string,
      expiry: int)
    requires ReadString(file) == Text(Some(key), mid) && ReadString(mid) == Text(Some(val), rest)
    ensures ReadValue(0, file, expiry) == Stored(rest, key, val, expiry)
  {
  }

  /** The bytes of a key and a value, with more bytes after them. */
  function ValueBody(key: EncodedText, val: EncodedText, tail: seq<Byte>): seq<Byte>
    requires key.Fits() && val.Fits()
  {
    key.Encode() + (val.Encode() + tail)
  }

  lemma {:induction false} ReadAux(name: EncodedText, text: EncodedText, tail: seq<Byte>, expiry: int)
    requires name.Fits() && text.Fits()
    ensures ReadItem([0xFA] + ValueBody(name, text, tail), expiry) == Header(tail)
  {
    assert ([0xFA] + ValueBody(name, text, tail))[1..] == ValueBody(name, text, tail);
    ReadEncodedText(name, text.Encode() + tail);
    ReadEncodedText(text, tail);
  }

  lemma {:induction false} ReadResize(form: Form, n: nat, form': Form, n': nat, tail: seq<Byte>, expiry: int)
    requires LengthFits(form, n) && LengthFits(form', n')
    ensures ReadItem([0xFB] + (EncodeLength(form, n) + (EncodeLength(form', n') + tail)), expiry) == Header(tail)
  {
    var rest := EncodeLength(form, n) + (EncodeLength(form', n') + tail);
    assert ([0xFB] + rest)[1..] == rest;
    ReadEncodedLength(form, n, EncodeLength(form', n') + tail);
    ReadEncodedLength(form', n', tail);
  }

  lemma {:induction false} ThreeParts(a: seq<Byte>, b: seq<Byte>, c: seq<Byte>, d: seq<Byte>)
    ensures a + (b + c) + d == a + (b + (c + d))
  {
    ConcatAssociates(a, b + c, d);
    ConcatAssociates(b, c, d);
  }

  lemma {:induction false} HeaderBytes(r: Record, tail: seq<Byte>)
    requires r.Fits() && !r.StringRecord?
    ensures r.Encode() + tail == match r
      case Aux(name, text) => [0xFA] + ValueBody(name, text, tail)
      case SelectDb(form, n) => [0xFE] + (EncodeLength(form, n) + tail)
      case ResizeDb(form, n, form', n') => [0xFB] + (EncodeLength(form, n) + (EncodeLength(form', n') + tail))
  {
    match r
    case Aux(name, text) => ThreeParts([0xFA], name.Encode(), text.Encode(), tail);
    case SelectDb(form, n) => ConcatAssociates([0xFE], EncodeLength(form, n), tail);
    case ResizeDb(form, n, form', n') => ThreeParts([0xFB], EncodeLength(form, n), EncodeLength(form', n'), tail);
  }

  lemma {:induction false} ReadHeader(r: Record, tail: seq<Byte>, expiry: int)
    requires r.Fits() && !r.StringRecord?
    ensures ReadItem(r.Encode() + tail, expiry) == Header(tail)
  {
    HeaderBytes(r, tail);
    match r
    case Aux(name, text) => ReadAux(name, text, tail, expiry);
    case SelectDb(form, n) =>
      assert ([0xFE] + (EncodeLength(form, n) + tail))[1..] == EncodeLength(form, n) + tail;
      ReadEncodedLength(form, n, tail);
    case ResizeDb(form, n, form', n') => ReadResize(form, n, form', n', tail, expiry);
  }

  lemma {:induction false} ReadEncodedValue(key: EncodedText, val: EncodedText, tail: seq<Byte>, expiry: int)
    requires key.Fits() && val.Fits() && Indexes(key.Text(false))
    ensures ReadValue(0, ValueBody(key, val, tail), expiry) == Stored(tail, key.Text(false), val.Text(false), expiry)
  {
    ReadEncodedText(key, val.Encode() + tail);
    ReadEncodedText(val, tail);
    ReadValueOfTexts(ValueBody(key, val, tail), val.Encode() + tail, tail, key.Text(false), val.Text(false), expiry);
  }

  lemma {:induction false} ReadExpiry(n: nat, width: nat, tail: seq<Byte>)
    requires (width == 4 && n < 0x1_0000_0000) || (width == 8 && n < 0x8000_0000_0000_0000)
    ensures Take(LittleEndianBytes(n, width) + tail, width) == Taken(Some(LittleEndianBytes(n, width)), tail)
    ensures LittleEndian(LittleEndianBytes(n, width)) == n
  {
    assert Range(4) == 0x1_0000_0000;
    assert Range(8) == 0x1_0000_0000 * Range(4);
    LittleEndianInverts(n, width, Range(width));
  }

  lemma {:induction false} ReadExpiringValue(n: nat, width: nat, file: seq<Byte>)
    requires (width == 4 && n < 0x1_0000_0000) || (width == 8 && n < 0x8000_0000_0000_0000)
    ensures ReadExpiring(width, LittleEndianBytes(n, width) + ([0] + file))
         == ReadValue(0, file, if width == 4 then n * 1000 else n)
  {
    ReadExpiry(n, width, [0] + file);
    assert ([0] + file)[1..] == file;
  }

  /** The expiry that a string record is stored with when `carried` is left from before it. */
  function ExpiryWith(r: Record, carried: int): int
    requires r.StringRecord?
  {
    if r.expiry.Never? then carried else r.expiry.At()
  }

  lemma {:induction false} RecordBytes(r: Record, tail: seq<Byte>)
    requires r.Fits() && r.StringRecord?
    ensures var body := ValueBody(r.key, r.val, tail);
            r.Encode() + tail == match r.expiry
              case Never => [0] + body
              case Seconds(s) => [0xFD] + (LittleEndianBytes(s, 4) + ([0] + body))
              case Millis(ms) => [0xFC] + (LittleEndianBytes(ms, 8) + ([0] + body))
  {
    var k, v, expiry := r.key.Encode(), r.val.Encode(), r.expiry.Encode();
    var body := ValueBody(r.key, r.val, tail);
    ConcatAssociates(expiry, [0] + (k + v), tail);
    ThreeParts([0], k, v, tail);
    assert r.Encode() + tail == expiry + ([0] + body);
    match r.expiry
    case Never => assert [] + ([0] + body) == [0] + body;
    case Seconds(s) => ConcatAssociates([0xFD], LittleEndianBytes(s, 4), [0] + body);
    case Millis(ms) => ConcatAssociates([0xFC], LittleEndianBytes(ms, 8), [0] + body);
  }

  lemma {:induction false} ReadPlain(body: seq<Byte>, carried: int)
    ensures ReadItem([0] + body, carried) == ReadValue(0, body, carried)
  {
    assert ([0] + body)[1..] == body;
  }

  function ExpiryOp(width: nat): Byte { if width == 4 then 0xFD else 0xFC }

  lemma {:induction false} ReadTimedItem(width: nat, rest: seq<Byte>, carried: int)
    requires width == 4 || width == 8
    ensures ReadItem([ExpiryOp(width)] + rest, carried) == ReadExpiring(width, rest)
  {
    var op := ExpiryOp(width);
    var file := [op] + rest;
    assert op == (if width == 4 then 0xFD else 0xFC) && file[0] == op && file[1..] == rest;
  }

  lemma {:induction false} ReadTimed(n: nat, width: nat, body: seq<Byte>, carried: int)
    requires (width == 4 && n < 0x1_0000_0000) || (width == 8 && n < 0x8000_0000_0000_0000)
    ensures ReadItem([ExpiryOp(width)] + (LittleEndianBytes(n, width) + ([0] + body)), carried)
         == ReadValue(0, body, if width == 4 then n * 1000 else n)
  {
    var rest := LittleEndianBytes(n, width) + ([0] + body);
    ReadTimedItem(width, rest, carried);
    assert ReadExpiring(width, rest) == ReadValue(0, body, if width == 4 then n * 1000 else n) by {
      ReadExpiringValue(n, width, body);
    }
  }

  lemma {:induction false} ExpiryAt(r: Record, carried: int)
    requires r.StringRecord? && -1 <= carried <= 0
    ensures r.expiry.At() == if ExpiryWith(r, carried) == -1 then 0 else ExpiryWith(r, carried)
  {
  }

  lemma {:induction false} ReadStringRecord(r: Record, tail: seq<Byte>, carried: int)
    requires r.Fits() && r.StringRecord?
    ensures ReadItem(r.Encode() + tail, carried)
         == Stored(tail, r.key.Text(false), r.val.Text(false), ExpiryWith(r, carried))
  {
    var body := ValueBody(r.key, r.val, tail);
    RecordBytes(r, tail);
    ReadEncodedValue(r.key, r.val, tail, ExpiryWith(r, carried));
    match r.expiry
    case Never => ReadPlain(body, carried);
    case Seconds(s) => ReadTimed(s, 4, body, carried);
    case Millis(ms) => ReadTimed(ms, 8, body, carried);
  }

  /** A record's expiry reaches its own key exactly when the key is new, or heads its bucket,
      or the expiry is 0 and the head has none either; otherwise it lands on the head. */
  lemma {:induction false} ExpiryLandsOnItsKey(t: Table<string>, m: map<Key, Entry<string>>, key: Key, val: string,
      expiry: int)
    requires Represents(t, m) && expiry != -1
    ensures Represents(StoreRecord(t, key, val, expiry), m[key := Entry(key, val, expiry)]) <==>
            key !in m || t[Bucket(key)][0].key == key || (expiry == 0 && t[Bucket(key)][0].expiresAt == 0)
  {
    var b := Bucket(key);
    var chain: seq<Entry<string>> := t[b];
    var i := Find(chain, key);
    assert GetEntry(t, key) == if key in m then Some(m[key]) else None;
    assert key in m <==> i < |chain|;
    PutRefinesMap(t, m, key, val, expiry);
    if i == |chain| || i == 0 || (expiry == 0 && chain[0].expiresAt == 0) {
      HeadExpiryHits(chain, key, val, expiry);
      assert Put(t, key, val, 0)[b] == Tables.Stored(chain, Entry(key, val, 0));
      assert StoreRecord(t, key, val, expiry) == Put(t, key, val, expiry);
    } else {
      ExpiryLeaks(t, m, key, val, expiry);
    }
  }

  lemma {:induction false} HeadExpiryHits(chain: seq<Entry<string>>, key: Key, val: string, expiry: int)
    requires var i := Find(chain, key); i == |chain| || i == 0 || (expiry == 0 && chain[0].expiresAt == 0)
    ensures HeadExpirySet(Tables.Stored(chain, Entry(key, val, 0)), expiry)
         == Tables.Stored(chain, Entry(key, val, expiry))
  {
  }

  lemma {:induction false} ExpiryLeaks(t: Table<string>, m: map<Key, Entry<string>>, key: Key, val: string, expiry: int)
    requires Represents(t, m) && 0 < Find(t[Bucket(key)], key) < |t[Bucket(key)]|
    requires expiry != -1 && (expiry != 0 || t[Bucket(key)][0].expiresAt != 0)
    ensures !Represents(StoreRecord(t, key, val, expiry), m[key := Entry(key, val, expiry)])
  {
    var b := Bucket(key);
    var chain: seq<Entry<string>> := t[b];
    var i := Find(chain, key);
    var r := StoreRecord(t, key, val, expiry);
    var chain': seq<Entry<string>> := r[b];
    assert chain' == chain[i := Entry(key, val, 0)][0 := chain[0].(expiresAt := expiry)];
    FindIs(chain', key, i);
    var head: Key := chain[0].key;
    FindIs(chain, head, 0);
    FindIs(chain', head, 0);
    assert GetEntry(t, head) == Some(chain[0]);
    assert GetEntry(r, head) == Some(chain[0].(expiresAt := expiry));
    assert GetEntry(r, key) == Some(Entry(key, val, 0));
    assert head != key && head in m;
  }

  lemma {:induction false} StoreNewRecord(t: Table<string>, m: map<Key, Entry<string>>, key: Key, val: string,
      expiry: int)
    requires Represents(t, m) && key !in m
    ensures Represents(StoreRecord(t, key, val, expiry), m[key := Entry(key, val, if expiry == -1 then 0 else expiry)])
  {
    if expiry == -1 {
      PutRefinesMap(t, m, key, val, 0);
    } else {
      ExpiryLandsOnItsKey(t, m, key, val, expiry);
    }
  }

  lemma {:induction false} DistinctTail(m: map<Key, Entry<string>>, keys: seq<string>, key: Key, entry: Entry<string>)
    requires keys != [] && DistinctFrom(m, keys) && keys[0] == key
    ensures key !in m && DistinctFrom(m[key := entry], keys[1..])
  {
    forall i | 0 <= i < |keys[1..]| ensures keys[1..][i] !in m[key := entry] {
      assert keys[1..][i] == keys[i + 1];
    }
    forall i, j | 0 <= i < j < |keys[1..]| ensures keys[1..][i] != keys[1..][j] {
      assert keys[1..][i] == keys[i + 1] && keys[1..][j] == keys[j + 1];
    }
  }

  lemma {:induction false} LoadHeader(file: seq<Byte>, carried: int, t: Table<string>, count: nat, rest: seq<Byte>)
    requires file != [] && |t| == TABLE_SIZE && ReadItem(file, carried) == Header(rest)
    ensures LoadFrom(file, carried, t, count) == LoadFrom(rest, carried, t, count)
  {
  }

  lemma {:induction false} LoadStored(file: seq<Byte>, carried: int, t: Table<string>, count: nat,
      rest: seq<Byte>, key: Key, val: string, expiry: int)
    requires file != [] && |t| == TABLE_SIZE && ReadItem(file, carried) == Stored(rest, key, val, expiry)
    ensures LoadFrom(file, carried, t, count) == LoadFrom(rest, -1, StoreRecord(t, key, val, expiry), count + 1)
  {
  }

  lemma {:induction false} LoadEnd(tail: seq<Byte>, carried: int, t: Table<string>, count: nat)
    requires |t| == TABLE_SIZE
    ensures LoadFrom([0xFF] + tail, carried, t, count) == Loaded(t, count)
  {
  }

  /** The file body that holds the given records; anything may follow the end marker. */
  function FileBody(records: seq<Record>, tail: seq<Byte>): seq<Byte>
    requires forall r | r in records :: r.Fits()
  {
    EncodeAll(records) + ([0xFF] + tail)
  }

  lemma {:induction false} FileBodyUnfolds(records: seq<Record>, tail: seq<Byte>)
    requires forall r | r in records :: r.Fits()
    ensures records == [] ==> FileBody(records, tail) == [0xFF] + tail
    ensures records != [] ==> records[0].Fits() && (forall r | r in records[1..] :: r.Fits())
    ensures records != [] ==> FileBody(records, tail) == records[0].Encode() + FileBody(records[1..], tail)
  {
  }

  lemma {:induction false} LoadHeaderRecord(records: seq<Record>, tail: seq<Byte>, carried: int, t: Table<string>,
      count: nat)
    requires forall r | r in records :: r.Fits()
    requires records != [] && !records[0].StringRecord? && |t| == TABLE_SIZE
    ensures LoadFrom(FileBody(records, tail), carried, t, count)
         == LoadFrom(FileBody(records[1..], tail), carried, t, count)
  {
    var rest := FileBody(records[1..], tail);
    FileBodyUnfolds(records, tail);
    ReadHeader(records[0], rest, carried);
    LoadHeader(FileBody(records, tail), carried, t, count, rest);
  }

  lemma {:induction false} LoadStringRecord(file: seq<Byte>, r: Record, rest: seq<Byte>, key: Key, carried: int,
      t: Table<string>, count: nat)
    requires file != [] && |t| == TABLE_SIZE
    requires r.Fits() && r.StringRecord? && r.key.Text(false) == key && file == r.Encode() + rest
    ensures LoadFrom(file, carried, t, count)
         == LoadFrom(rest, -1, StoreRecord(t, key, r.val.Text(false), ExpiryWith(r, carried)), count + 1)
  {
    ReadStringRecord(r, rest, carried);
    LoadStored(file, carried, t, count, rest, key, r.val.Text(false), ExpiryWith(r, carried));
  }

  lemma {:induction false} BindingsUnfold(m: map<string, Entry<string>>, records: seq<Record>, meant: bool)
    requires records != []
    ensures records[0].StringRecord? ==>
      var key := records[0].key.Text(meant);
      && KeysOf(records, meant) == [key] + KeysOf(records[1..], meant)
      && Bindings(m, records, meant) == Bindings(m[key := EntryOf(records[0], meant)], records[1..], meant)
    ensures !records[0].StringRecord? ==>
      && KeysOf(records, meant) == KeysOf(records[1..], meant)
      && Bindings(m, records, meant) == Bindings(m, records[1..], meant)
  {
  }

  /** The load ends with a table that represents m, after n string records in all. */
  ghost predicate LoadsAs(o: Outcome, m: map<string, Entry<string>>, n: nat) {
    o.Loaded? && Holds(o.table, m) && o.count == n
  }

  /** The table represents the map, whose keys all index the table. */
  ghost predicate Holds(t: Table<string>, m: map<string, Entry<string>>) {
    (forall key | key in m :: Indexes(key)) && Represents(t, m)
  }

  /** Loading binds each key, as it is read, to its own value and its own expiry, whatever length
      and integer forms the file uses and whatever header records it mixes in: no expiry leaks
      from one record to another, and every string record is counted. */
  lemma {:induction false} LoadInvertsEncode(records: seq<Record>, tail: seq<Byte>, carried: int,
      t: Table<string>, m: map<Key, Entry<string>>, count: nat)
    requires forall r | r in records :: r.Fits()
    requires Represents(t, m) && DistinctFrom(m, KeysOf(records, false)) && -1 <= carried <= 0
    ensures LoadsAs(LoadFrom(FileBody(records, tail), carried, t, count), Bindings(m, records, false),
                    count + |KeysOf(records, false)|)
    decreases |records|
  {
    if records == [] {
      FileBodyUnfolds(records, tail);
      LoadEnd(tail, carried, t, count);
    } else {
      BindingsUnfold(m, records, false);
      var r := records[0];
      assert r in records && forall u | u in records[1..] :: u in records;
      if r.StringRecord? {
        var key: Key, val, e, x := r.key.Text(false), r.val.Text(false), r.expiry.At(), ExpiryWith(r, carried);
        FileBodyUnfolds(records, tail);
        LoadStringRecord(FileBody(records, tail), r, FileBody(records[1..], tail), key, carried, t, count);
        DistinctTail(m, KeysOf(records, false), key, Entry(key, val, e));
        ExpiryAt(r, carried);
        StoreNewRecord(t, m, key, val, x);
        LoadInvertsEncode(records[1..], tail, -1, StoreRecord(t, key, val, x), m[key := Entry(key, val, e)], count + 1);
      } else {
        LoadHeaderRecord(records, tail, carried, t, count);
        LoadInvertsEncode(records[1..], tail, carried, t, m, count);
      }
    }
  }
}
