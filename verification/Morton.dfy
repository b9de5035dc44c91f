/** The bit interleaving of set_handler.c: the mask-and-shift words of the program, and the
    bit-by-bit interleaving of numbers that they compute. */
module Morton {

  // ----- the program, on 64-bit words -----

  function Spread64(v: bv64): bv64 {
    var v0 := v & 0xFFFFFFFF;
    var v1 := (v0 | (v0 << 16)) & 0x0000FFFF0000FFFF;
    var v2 := (v1 | (v1 << 8)) & 0x00FF00FF00FF00FF;
    var v3 := (v2 | (v2 << 4)) & 0x0F0F0F0F0F0F0F0F;
    var v4 := (v3 | (v3 << 2)) & 0x3333333333333333;
    (v4 | (v4 << 1)) & 0x5555555555555555
  }

  function Compact64(v: bv64): bv64 {
    var v0 := v & 0x5555555555555555;
    var v1 := (v0 | (v0 >> 1)) & 0x3333333333333333;
    var v2 := (v1 | (v1 >> 2)) & 0x0F0F0F0F0F0F0F0F;
    var v3 := (v2 | (v2 >> 4)) & 0x00FF00FF00FF00FF;
    var v4 := (v3 | (v3 >> 8)) & 0x0000FFFF0000FFFF;
    (v4 | (v4 >> 16)) & 0x00000000FFFFFFFF
  }

  /** Latitude in the even bits, longitude in the odd bits. */
  function InterleaveWords(lon: bv64, lat: bv64): bv64 {
    Joined(Spread64(lon), Spread64(lat))
  }

  function Joined(lon: bv64, lat: bv64): bv64 { (lon << 1) | lat }

  // ----- words and the numbers they stand for -----

  /** The unsigned value of a word. */
  function Value(w: bv64): nat
    decreases w
  {
    if w == 0 then 0 else 2 * Value(w >> 1) + (if w & 1 == 1 then 1 else 0)
  }

  function Word(n: nat): bv64 {
    if n == 0 then 0 else Push(Word(n / 2), if n % 2 == 1 then 1 else 0)
  }

  function Push(w: bv64, bit: bv64): bv64 { (w << 1) | (bit & 1) }

  function BitNumber(bit: bv64): nat { if bit & 1 == 1 then 1 else 0 }

  lemma {:induction false} PushFacts(w: bv64, bit: bv64)
    requires w < 0x8000000000000000
    ensures Push(w, bit) >> 1 == w && Push(w, bit) & 1 == bit & 1
  {
  }

  lemma {:induction false} ValueOfPush(w: bv64, bit: bv64)
    requires w < 0x8000000000000000
    ensures Value(Push(w, bit)) == 2 * Value(w) + BitNumber(bit)
  {
    PushFacts(w, bit);
  }

  lemma {:induction false} WordBits(w: bv64)
    ensures Value(w >> 1) == Value(w) / 2 && BitNumber(w) == Value(w) % 2
  {
  }

  lemma {:induction false} TwoShifts(w: bv64)
    ensures (w >> 1) >> 1 == w >> 2 && (w >> 2) >> 2 == w >> 4 && (w >> 4) >> 4 == w >> 8
  {
  }

  lemma {:induction false} OneBit(w: bv64)
    ensures Value(w) >= 2 * Value(w >> 1)
  {
  }

  lemma {:induction false} TwoBits(w: bv64)
    ensures Value(w) >= 4 * Value(w >> 2)
  {
    OneBit(w);
    OneBit(w >> 1);
    TwoShifts(w);
  }

  lemma {:induction false} FourBits(w: bv64)
    ensures Value(w) >= 16 * Value(w >> 4)
  {
    TwoBits(w);
    TwoBits(w >> 2);
    TwoShifts(w);
  }

  lemma {:induction false} EightBits(w: bv64)
    ensures Value(w) >= 256 * Value(w >> 8)
  {
    FourBits(w);
    FourBits(w >> 4);
    TwoShifts(w);
  }

  lemma {:induction false} DropTwoBits(w: bv64)
    ensures Value(w >> 2) == Value(w) / 4
  {
    TwoShifts(w);
    WordBits(w);
    WordBits(w >> 1);
  }

  lemma {:induction false} NotZero(w: bv64)
    ensures w != 0 ==> Value(w) >= 1
    decreases w
  {
    if w != 0 && w >> 1 != 0 {
      NotZero(w >> 1);
    } else if w != 0 {
      assert w == 1;
    }
  }

  /** A word above 32 bits has a large value, and so has a word with its top bit set. */
  lemma {:induction false} LargeWords(w: bv64)
    ensures w > 0xFFFFFFFF ==> Value(w) >= 0x1_0000_0000
    ensures w >= 0x8000000000000000 ==> Value(w) >= 0x100_0000_0000_0000
  {
    var w1 := w >> 8; var w2 := w1 >> 8; var w3 := w2 >> 8; var w4 := w3 >> 8;
    var w5 := w4 >> 8; var w6 := w5 >> 8; var w7 := w6 >> 8;
    EightBits(w); EightBits(w1); EightBits(w2); EightBits(w3); EightBits(w4); EightBits(w5); EightBits(w6);
    assert w > 0xFFFFFFFF ==> w4 != 0;
    assert w >= 0x8000000000000000 ==> w7 != 0;
    NotZero(w4);
    NotZero(w7);
  }

  /** Numbers below 2^56 survive the conversion to a word. */
  lemma {:induction false} ValueOfWord(n: nat)
    requires n < 0x100_0000_0000_0000
    ensures Value(Word(n)) == n
  {
    if n > 0 {
      var half := Word(n / 2);
      ValueOfWord(n / 2);
      LargeWords(half);
      BitNumbers();
      if n % 2 == 1 {
        ValueOfPush(half, 1);
      } else {
        ValueOfPush(half, 0);
      }
    }
  }

  lemma {:induction false} BitNumbers()
    ensures BitNumber(1) == 1 && BitNumber(0) == 0
    ensures Push(0, 0) == 0
  {
  }

  lemma {:induction false} PushParts(w: bv64)
    ensures Push(w >> 1, if BitNumber(w) == 1 then 1 else 0) == w
    ensures w != 0 ==> w >> 1 < w
  {
  }

  lemma {:induction false} WordOfParts(n: nat)
    ensures Word(n) == Push(Word(n / 2), if n % 2 == 1 then 1 else 0)
  {
    BitNumbers();
  }

  lemma {:induction false} WordOfPush(w: bv64, rest: bv64)
    requires Push(rest, if BitNumber(w) == 1 then 1 else 0) == w
    requires rest == w >> 1 && Word(Value(rest)) == rest
    ensures Word(Value(w)) == w
  {
    WordBits(w);
    WordOfParts(Value(w));
  }

  lemma {:induction false} WordOfValue(w: bv64)
    ensures Word(Value(w)) == w
    decreases w
  {
    if w != 0 {
      PushParts(w);
      WordOfValue(w >> 1);
      WordOfPush(w, w >> 1);
    }
  }

  // ----- the same, bit by bit, on numbers -----

  /** The interleaving of two numbers: bit i of lon is bit 2i + 1, bit i of lat is bit 2i. */
  function Interleave(lon: nat, lat: nat): nat
    decreases lon + lat
  {
    if lon == 0 && lat == 0 then 0
    else 4 * Interleave(lon / 2, lat / 2) + 2 * (lon % 2) + lat % 2
  }

  /** The number made of the even bits. */
  function EvenBits(h: nat): nat {
    if h == 0 then 0 else 2 * EvenBits(h / 4) + h % 2
  }

  lemma {:induction false} SpreadStep(v: bv64)
    requires v <= 0xFFFFFFFF
    ensures Spread64(v) == (Spread64(v >> 1) << 2) | (v & 1)
  {
  }

  lemma {:induction false} SpreadBound(v: bv64)
    requires v <= 0x7FFFFFFF
    ensures Spread64(v) <= 0x1555555555555555
  {
  }

  lemma {:induction false} OrOfPushes(x: bv64, y: bv64, s: bv64, t: bv64, b: bv64, c: bv64)
    requires x == (s << 2) | (b & 1) && y == (t << 2) | (c & 1)
    ensures Joined(x, y) == Push(Push(Joined(s, t), b), c)
    ensures s <= 0x1555555555555555 && t <= 0x1555555555555555 ==>
      Joined(s, t) < 0x4000000000000000 && Push(Joined(s, t), b) < 0x8000000000000000
  {
  }

  lemma {:induction false} InterleaveStep(lon: bv64, lat: bv64)
    requires lon <= 0xFFFFFFFF && lat <= 0xFFFFFFFF
    ensures InterleaveWords(lon, lat) == Push(Push(InterleaveWords(lon >> 1, lat >> 1), lon), lat)
    ensures InterleaveWords(lon >> 1, lat >> 1) < 0x4000000000000000
    ensures Push(InterleaveWords(lon >> 1, lat >> 1), lon) < 0x8000000000000000
  {
    SpreadStep(lon);
    SpreadStep(lat);
    SpreadBound(lon >> 1);
    SpreadBound(lat >> 1);
    OrOfPushes(Spread64(lon), Spread64(lat), Spread64(lon >> 1), Spread64(lat >> 1), lon, lat);
  }

  lemma {:induction false} CompactStep(h: bv64)
    ensures Compact64(h) == Push(Compact64(h >> 2), h)
    ensures Compact64(h >> 2) < 0x8000000000000000
  {
  }

  /** The mask-and-shift interleaving computes the bit-by-bit one. */
  lemma {:induction false} InterleaveWordsRefines(lon: bv64, lat: bv64)
    requires lon <= 0xFFFFFFFF && lat <= 0xFFFFFFFF
    ensures Value(InterleaveWords(lon, lat)) == Interleave(Value(lon), Value(lat))
    decreases lon, lat
  {
    if lon == 0 && lat == 0 {
      assert InterleaveWords(0, 0) == 0;
    } else {
      var w := InterleaveWords(lon >> 1, lat >> 1);
      InterleaveWordsRefines(lon >> 1, lat >> 1);
      InterleaveStep(lon, lat);
      ValueOfPush(w, lon);
      ValueOfPush(Push(w, lon), lat);
      WordBits(lon);
      WordBits(lat);
    }
  }

  /** compact64 computes the number made of the even bits. */
  lemma {:induction false} CompactRefines(h: bv64)
    ensures Value(Compact64(h)) == EvenBits(Value(h))
    decreases h
  {
    if h == 0 {
      assert Compact64(0) == 0;
    } else {
      CompactRefines(h >> 2);
      CompactStep(h);
      ValueOfPush(Compact64(h >> 2), h);
      WordBits(h);
      DropTwoBits(h);
    }
  }

  // ----- what the interleaving means -----

  lemma {:induction false} Digits(h: nat, q: nat, a: nat, b: nat)
    requires h == 4 * q + 2 * a + b && a < 2 && b < 2
    ensures h / 4 == q && h % 2 == b && (h / 2) % 2 == a && (h / 2) / 4 == q / 2
  {
    assert h / 2 == 2 * q + a;
  }

  lemma {:induction false} InterleaveDigits(lon: nat, lat: nat)
    ensures var h, q := Interleave(lon, lat), Interleave(lon / 2, lat / 2);
            h / 4 == q && h % 2 == lat % 2 && (h / 2) % 2 == lon % 2 && (h / 2) / 4 == q / 2
  {
    Digits(Interleave(lon, lat), Interleave(lon / 2, lat / 2), lon % 2, lat % 2);
  }

  /** Both coordinates come back from the interleaved number. */
  lemma {:induction false} EvenBitsOfInterleave(lon: nat, lat: nat)
    ensures EvenBits(Interleave(lon, lat)) == lat
    ensures EvenBits(Interleave(lon, lat) / 2) == lon
    decreases lon + lat
  {
    if lon != 0 || lat != 0 {
      EvenBitsOfInterleave(lon / 2, lat / 2);
      InterleaveDigits(lon, lat);
    }
  }

  lemma {:induction false} InterleaveUnfolds(x: nat, y: nat)
    ensures Interleave(x, y) == 4 * Interleave(x / 2, y / 2) + 2 * (x % 2) + y % 2
  {
  }

  lemma {:induction false} QuarterDigits(h: nat)
    ensures (h / 2) / 4 == (h / 4) / 2 && h == 4 * (h / 4) + 2 * ((h / 2) % 2) + h % 2
  {
    var half := h / 2;
    Digits(h, half / 2, half % 2, h % 2);
  }

  lemma {:induction false} Recompose(h: nat, x: nat, y: nat)
    requires h == 4 * Interleave(x / 2, y / 2) + 2 * (x % 2) + y % 2
    ensures Interleave(x, y) == h
  {
    InterleaveUnfolds(x, y);
  }

  lemma {:induction false} OddEvenParts(h: nat)
    requires h != 0 && (h / 2) / 4 == (h / 4) / 2
    ensures EvenBits(h) / 2 == EvenBits(h / 4) && EvenBits(h) % 2 == h % 2
    ensures EvenBits(h / 2) / 2 == EvenBits((h / 4) / 2) && EvenBits(h / 2) % 2 == (h / 2) % 2
  {
  }

  /** Every number is the interleaving of its own two halves. */
  lemma {:induction false} InterleaveOfEvenBits(h: nat)
    ensures Interleave(EvenBits(h / 2), EvenBits(h)) == h
  {
    if h != 0 {
      InterleaveOfEvenBits(h / 4);
      QuarterDigits(h);
      OddEvenParts(h);
      Recompose(h, EvenBits(h / 2), EvenBits(h));
    }
  }

  /** The number is strictly monotone in each coordinate with the other one fixed. */
  lemma {:induction false} InterleaveIsMonotone(a: nat, b: nat, c: nat)
    requires a < b
    ensures Interleave(a, c) < Interleave(b, c)
    ensures Interleave(c, a) < Interleave(c, b)
    decreases b + c
  {
    if a / 2 < b / 2 {
      InterleaveIsMonotone(a / 2, b / 2, c / 2);
    } else {
      assert a / 2 == b / 2 && a % 2 < b % 2;
    }
  }

  /** n >> k */
  function ShiftRight(n: nat, k: nat): nat {
    if k == 0 then n else ShiftRight(n / 2, k - 1)
  }

  /** Dropping k bits of both coordinates drops 2k bits of the interleaving. */
  lemma {:induction false} ShiftCommutes(lon: nat, lat: nat, k: nat)
    ensures ShiftRight(Interleave(lon, lat), 2 * k) == Interleave(ShiftRight(lon, k), ShiftRight(lat, k))
    decreases k
  {
    if k > 0 {
      ShiftCommutes(lon / 2, lat / 2, k - 1);
      InterleaveDigits(lon, lat);
      var h := Interleave(lon, lat);
      assert ShiftRight(h, 2 * k) == ShiftRight(h / 2, 2 * k - 1) == ShiftRight(h / 2 / 2, 2 * k - 2);
      assert h / 2 / 2 == h / 4;
    }
  }

  lemma {:induction false} InterleaveIsInjective(x: nat, y: nat, x': nat, y': nat)
    ensures Interleave(x, y) == Interleave(x', y') <==> x == x' && y == y'
  {
    EvenBitsOfInterleave(x, y);
    EvenBitsOfInterleave(x', y');
  }

  /** Two numbers lie in the same cell of level k exactly when both coordinates do. */
  lemma {:induction false} SameCell(lon: nat, lat: nat, lon': nat, lat': nat, k: nat)
    ensures ShiftRight(Interleave(lon, lat), 2 * k) == ShiftRight(Interleave(lon', lat'), 2 * k) <==>
            ShiftRight(lon, k) == ShiftRight(lon', k) && ShiftRight(lat, k) == ShiftRight(lat', k)
  {
    ShiftCommutes(lon, lat, k);
    ShiftCommutes(lon', lat', k);
    InterleaveIsInjective(ShiftRight(lon, k), ShiftRight(lat, k), ShiftRight(lon', k), ShiftRight(lat', k));
  }

  /** Bit k of the latitude is bit 2k of the interleaving, bit k of the longitude bit 2k + 1. */
  lemma {:induction false} WhereBitsLand(lon: nat, lat: nat, k: nat)
    ensures ShiftRight(Interleave(lon, lat), 2 * k) % 2 == ShiftRight(lat, k) % 2
    ensures (ShiftRight(Interleave(lon, lat), 2 * k) / 2) % 2 == ShiftRight(lon, k) % 2
  {
    ShiftCommutes(lon, lat, k);
    InterleaveDigits(ShiftRight(lon, k), ShiftRight(lat, k));
  }
}
