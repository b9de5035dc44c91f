/** GEOADD and GEOPOS: coordinates in, a 26 by 26 bit cell as a sorted-set score, the centre
    of the cell out. Arithmetic is exact (over the reals), except that a score is a double. */
module Geo {
  import opened Morton

  const LAT_MAX := 85.05112878
  const LAT_SPAN := 170.10225756
  /** 1 << 26 */
  const CELLS := 67108864.0

  /** validate_geoadd */
  predicate ValidCoordinate(lon: real, lat: real) {
    -180.0 <= lon <= 180.0 && -LAT_MAX <= lat <= LAT_MAX
  }

  /** The conversions to uint64_t in geo_encode: truncation of a non-negative number. */
  function LonCell(lon: real): (c: nat)
    requires -180.0 <= lon <= 180.0
    ensures c as real <= (lon + 180.0) / 360.0 * CELLS < c as real + 1.0
    ensures c <= 0x400_0000 && (c == 0x400_0000 <==> lon == 180.0)
  {
    ((lon + 180.0) / 360.0 * CELLS).Floor
  }

  function LatCell(lat: real): (c: nat)
    requires -LAT_MAX <= lat <= LAT_MAX
    ensures c as real <= (lat + LAT_MAX) / LAT_SPAN * CELLS < c as real + 1.0
    ensures c <= 0x400_0000
  {
    ((lat + LAT_MAX) / LAT_SPAN * CELLS).Floor
  }

  /** geo_encode */
  function Encode(lon: real, lat: real): bv64
    requires ValidCoordinate(lon, lat)
  {
    InterleaveWords(Word(LonCell(lon)), Word(LatCell(lat)))
  }

  datatype Point = Point(lon: real, lat: real)

  function Centre(lonCell: nat, latCell: nat): Point {
    Point((lonCell as real + 0.5) / CELLS * 360.0 - 180.0, (latCell as real + 0.5) / CELLS * LAT_SPAN - LAT_MAX)
  }

  /** geo_decode */
  function Decode(hash: bv64): Point {
    Centre(Value(Compact64(hash >> 1)), Value(Compact64(hash)))
  }

  /** The double nearest to a hash below 2^54, ties to the even significand: 53 bits fit, and
      above 2^53 only the even integers are doubles. */
  function NearestDouble(h: nat): nat
    requires h < 0x40_0000_0000_0000
  {
    if h < 0x20_0000_0000_0000 || h % 2 == 0 then h
    else if h / 2 % 2 == 0 then h - 1 else h + 1
  }

  // ----- what a hash is worth -----

  lemma {:induction false} CellWord(c: nat)
    requires c <= 0x400_0000
    ensures Word(c) <= 0xFFFFFFFF && Value(Word(c)) == c
  {
    ValueOfWord(c);
    LargeWords(Word(c));
  }

  lemma {:induction false} ValueOfEncode(lon: real, lat: real)
    requires ValidCoordinate(lon, lat)
    ensures Value(Encode(lon, lat)) == Interleave(LonCell(lon), LatCell(lat))
  {
    CellWord(LonCell(lon));
    CellWord(LatCell(lat));
    InterleaveWordsRefines(Word(LonCell(lon)), Word(LatCell(lat)));
  }

  lemma {:induction false} DropTwoBitsOf(h: bv64)
    ensures Value(h >> 1) == Value(h) / 2
  {
    WordBits(h);
  }

  lemma {:induction false} DecodeOfValue(hash: bv64, lonCell: nat, latCell: nat)
    requires Value(hash) == Interleave(lonCell, latCell)
    ensures Decode(hash) == Centre(lonCell, latCell)
  {
    DropTwoBitsOf(hash);
    CompactRefines(hash);
    CompactRefines(hash >> 1);
    EvenBitsOfInterleave(lonCell, latCell);
  }

  lemma {:induction false} Shift2(n: nat, k: nat)
    requires k >= 2
    ensures ShiftRight(n, k) == ShiftRight(n / 4, k - 2)
  {
    assert n / 2 / 2 == n / 4;
  }

  lemma {:induction false} Shift8(n: nat, k: nat)
    requires k >= 8
    ensures ShiftRight(n, k) == ShiftRight(n / 256, k - 8)
  {
    Shift2(n, k);
    Shift2(n / 4, k - 2);
    Shift2(n / 16, k - 4);
    Shift2(n / 64, k - 6);
  }

  lemma {:induction false} Shift26(n: nat)
    ensures ShiftRight(n, 26) == n / 0x400_0000
  {
    Shift8(n, 26);
    Shift8(n / 256, 18);
    Shift8(n / 256 / 256, 10);
    Shift2(n / 256 / 256 / 256, 2);
  }

  lemma {:induction false} Shift52(n: nat)
    ensures ShiftRight(n, 52) == n / 0x10_0000_0000_0000
  {
    Shift8(n, 52);
    Shift8(n / 256, 44);
    Shift8(n / 256 / 256, 36);
    var m := n / 256 / 256 / 256;
    Shift8(m, 28);
    ShiftLast20(m / 256);
  }

  lemma {:induction false} ShiftLast20(m: nat)
    ensures ShiftRight(m, 20) == m / 0x10_0000
  {
    Shift8(m, 20);
    Shift8(m / 256, 12);
    var r := m / 256 / 256;
    Shift2(r, 4);
    Shift2(r / 4, 2);
  }

  /** The hash fits the 53 bits of a double exactly when the longitude is below 180. */
  lemma {:induction false} HashBound(lonCell: nat, latCell: nat)
    requires lonCell <= 0x400_0000 && latCell <= 0x400_0000
    ensures Interleave(lonCell, latCell) < 0x40_0000_0000_0000
    ensures Interleave(lonCell, latCell) < 0x20_0000_0000_0000 <==> lonCell < 0x400_0000
  {
    ShiftCommutes(lonCell, latCell, 26);
    Shift26(lonCell);
    Shift26(latCell);
    Shift52(Interleave(lonCell, latCell));
    assert Interleave(0, 0) == 0 && Interleave(0, 1) == 1 && Interleave(1, 0) == 2 && Interleave(1, 1) == 3;
  }

  // ----- the guarantees -----

  /** Encoding the decoded centre of a 52-bit cell gives that cell back. */
  lemma {:induction false} EncodeInvertsDecode(hash: bv64)
    requires Value(hash) < 0x10_0000_0000_0000
    ensures var p := Decode(hash); ValidCoordinate(p.lon, p.lat) && Encode(p.lon, p.lat) == hash
  {
    var x, y := Value(Compact64(hash >> 1)), Value(Compact64(hash));
    HalvesOf52Bits(hash);
    var p := Decode(hash);
    assert (p.lon + 180.0) / 360.0 * CELLS == x as real + 0.5;
    assert (p.lat + LAT_MAX) / LAT_SPAN * CELLS == y as real + 0.5;
    assert LonCell(p.lon) == x && LatCell(p.lat) == y;
    WordOfValue(Compact64(hash >> 1));
    WordOfValue(Compact64(hash));
    InterleaveWordsInvertCompact(hash);
  }

  lemma {:induction false} HalvesOf52Bits(hash: bv64)
    requires Value(hash) < 0x10_0000_0000_0000
    ensures Value(Compact64(hash >> 1)) < 0x400_0000 && Value(Compact64(hash)) < 0x400_0000
  {
    var h := Value(hash);
    DropTwoBitsOf(hash);
    CompactRefines(hash);
    CompactRefines(hash >> 1);
    InterleaveOfEvenBits(h);
    ShiftCommutes(EvenBits(h / 2), EvenBits(h), 26);
    Shift26(EvenBits(h / 2));
    Shift26(EvenBits(h));
    Shift52(h);
    EvenBitsOfInterleave(EvenBits(h / 2) / 0x400_0000, EvenBits(h) / 0x400_0000);
  }

  lemma {:induction false} InterleaveWordsInvertCompact(hash: bv64)
    ensures InterleaveWords(Compact64(hash >> 1), Compact64(hash)) == hash
  {
  }

  /** The score that GEOADD stores for a coordinate, and what GEOPOS answers for a score. */
  function Score(lon: real, lat: real): nat
    requires ValidCoordinate(lon, lat)
  {
    ValueOfEncode(lon, lat);
    HashBound(LonCell(lon), LatCell(lat));
    NearestDouble(Value(Encode(lon, lat)))
  }

  function Position(score: nat): Point { Decode(Word(score)) }

  lemma {:induction false} PositionOfCells(lonCell: nat, latCell: nat)
    requires lonCell <= 0x400_0000 && latCell <= 0x400_0000
    ensures Position(Interleave(lonCell, latCell)) == Centre(lonCell, latCell)
  {
    HashBound(lonCell, latCell);
    var h := Interleave(lonCell, latCell);
    ValueOfWord(h);
    DecodeOfValue(Word(h), lonCell, latCell);
  }

  /** GEOPOS after GEOADD answers the centre of the coordinate's own cell exactly when the
      longitude is below 180 or the latitude cell is even: at longitude 180 the hash needs
      54 bits, the double drops the last one, and an odd latitude cell moves down by one. */
  lemma {:induction false} GeoposAnswersCell(lon: real, lat: real)
    requires ValidCoordinate(lon, lat)
    ensures var x, y := LonCell(lon), LatCell(lat);
            && (lon < 180.0 || y % 2 == 0 ==> Position(Score(lon, lat)) == Centre(x, y))
            && (lon == 180.0 && y % 2 == 1 ==> Position(Score(lon, lat)) == Centre(x, y - 1))
  {
    var x, y := LonCell(lon), LatCell(lat);
    ValueOfEncode(lon, lat);
    HashBound(x, y);
    InterleaveDigits(x, y);
    PositionOfCells(x, y);
    if lon == 180.0 && y % 2 == 1 {
      assert x % 2 == 0;
      assert Score(lon, lat) == Interleave(x, y) - 1;
      assert Interleave(x, y - 1) == Interleave(x, y) - 1 by {
        assert y / 2 == (y - 1) / 2;
      }
      PositionOfCells(x, y - 1);
    }
  }

  /** Within half a cell in each direction: 360 / 2^27 and 170.10225756 / 2^27. */
  predicate WithinHalfCell(p: Point, lon: real, lat: real) {
    && -360.0 / 134217728.0 <= p.lon - lon <= 360.0 / 134217728.0
    && -LAT_SPAN / 134217728.0 <= p.lat - lat <= LAT_SPAN / 134217728.0
  }

  /** The GEOADD / GEOPOS guarantee: the position is within half a cell of the coordinate
      exactly when the longitude is below 180, or the latitude cell is even, or the latitude
      is the lower edge of its cell. */
  lemma {:induction false} GeoposWithinHalfCell(lon: real, lat: real)
    requires ValidCoordinate(lon, lat)
    ensures WithinHalfCell(Position(Score(lon, lat)), lon, lat) <==>
            lon < 180.0 || LatCell(lat) % 2 == 0 || (lat + LAT_MAX) / LAT_SPAN * CELLS == LatCell(lat) as real
  {
    GeoposAnswersCell(lon, lat);
    CentreWithinHalfCell(lon, lat);
  }

  lemma {:induction false} CentreWithinHalfCell(lon: real, lat: real)
    requires ValidCoordinate(lon, lat)
    ensures var x, y := LonCell(lon), LatCell(lat);
            && WithinHalfCell(Centre(x, y), lon, lat)
            && (y > 0 ==> (WithinHalfCell(Centre(x, y - 1), lon, lat) <==>
                           (lat + LAT_MAX) / LAT_SPAN * CELLS == y as real))
  {
    var x, y := LonCell(lon), LatCell(lat);
    var u, v := (lon + 180.0) / 360.0 * CELLS, (lat + LAT_MAX) / LAT_SPAN * CELLS;
    assert Centre(x, y).lon - lon == (x as real + 0.5 - u) * 360.0 / CELLS;
    assert Centre(x, y).lat - lat == (y as real + 0.5 - v) * LAT_SPAN / CELLS;
  }
}
