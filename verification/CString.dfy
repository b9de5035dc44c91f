/** C strings: strcmp order, decimal printing (%d, %zu, %lld), atoi and toUpper.
    A C string is modelled as the text before its NUL; one char stands for one byte. */
module CStrings {

  /** strcmp(a, b) < 0: unsigned lexicographic order. */
  predicate Less(a: string, b: string) {
    if a == [] then b != []
    else if b == [] then false
    else a[0] < b[0] || (a[0] == b[0] && Less(a[1..], b[1..]))
  }

  lemma {:induction false} LessIrreflexive(a: string)
    ensures !Less(a, a)
  {
    if a != [] {
      LessIrreflexive(a[1..]);
    }
  }

  lemma {:induction false} LessTransitive(a: string, b: string, c: string)
    requires Less(a, b) && Less(b, c)
    ensures Less(a, c)
  {
    if a != [] && a[0] == b[0] && b[0] == c[0] {
      LessTransitive(a[1..], b[1..], c[1..]);
    }
  }

  lemma {:induction false} LessTotal(a: string, b: string)
    ensures a == b || Less(a, b) || Less(b, a)
  {
    if a != [] && b != [] && a[0] == b[0] {
      LessTotal(a[1..], b[1..]);
      assert a == [a[0]] + a[1..] && b == [b[0]] + b[1..];
    }
  }

  /** The order of byte strings: a is a proper prefix of b, or smaller at the first byte where they
      differ. */
  ghost predicate Precedes(a: string, b: string) {
    a < b || exists k :: DiffersAt(a, b, k) && a[k] < b[k]
  }

  /** Byte k is the first one where the strings differ. */
  ghost predicate DiffersAt(a: string, b: string, k: int) {
    0 <= k < |a| && k < |b| && a[..k] == b[..k] && a[k] != b[k]
  }

  lemma {:induction false} DiffersLater(a: string, b: string, k: nat)
    requires a != [] && b != [] && a[0] == b[0]
    ensures DiffersAt(a[1..], b[1..], k) <==> DiffersAt(a, b, k + 1)
  {
    if k < |a| - 1 && k < |b| - 1 {
      assert a[..k + 1] == [a[0]] + a[1..][..k] && b[..k + 1] == [b[0]] + b[1..][..k];
      assert a[..k + 1][1..] == a[1..][..k] && b[..k + 1][1..] == b[1..][..k];
    }
  }

  lemma {:induction false} TailPrecedes(a: string, b: string)
    requires a != [] && b != [] && a[0] == b[0]
    ensures Precedes(a[1..], b[1..]) <==> Precedes(a, b)
  {
    assert a == [a[0]] + a[1..] && b == [b[0]] + b[1..];
    if k :| DiffersAt(a[1..], b[1..], k) && a[1..][k] < b[1..][k] {
      DiffersLater(a, b, k);
    }
    if k :| DiffersAt(a, b, k) && a[k] < b[k] {
      DiffersLater(a, b, k - 1);
    }
  }

  /** strcmp is that order. */
  lemma {:induction false} LessIffPrecedes(a: string, b: string)
    ensures Less(a, b) <==> Precedes(a, b)
  {
    if a == [] || b == [] {
      assert b != [] ==> [] < b;
    } else if a[0] == b[0] {
      TailPrecedes(a, b);
      LessIffPrecedes(a[1..], b[1..]);
    } else {
      assert a[..0] == b[..0] && DiffersAt(a, b, 0);
      assert !(a < b);
    }
  }

  predicate IsDigit(c: char) { '0' <= c <= '9' }

  predicate AllDigits(s: string) { forall c | c in s :: IsDigit(c) }

  function DigitChar(d: nat): (c: char)
    requires d < 10
    ensures IsDigit(c) && (c as int) - ('0' as int) == d
  {
    ('0' as int + d) as char
  }

  /** The text that %d, %zu and %lld print for a non-negative number. */
  function Dec(n: nat): (s: string)
    ensures s != [] && AllDigits(s)
  {
    if n < 10 then [DigitChar(n)] else Dec(n / 10) + [DigitChar(n % 10)]
  }

  function DecInt(n: int): string {
    if n < 0 then "-" + Dec(-n) else Dec(n)
  }

  /** Value of the leading run of digits, continuing from acc. */
  function LeadingDigits(s: string, acc: nat): nat {
    if s == [] || !IsDigit(s[0]) then acc
    else LeadingDigits(s[1..], acc * 10 + (s[0] as int - '0' as int))
  }

  predicate IsSpace(c: char) { c == ' ' || '\t' as int <= c as int <= '\r' as int }

  function SkipSpaces(s: string): (r: string)
    ensures |r| <= |s|
  {
    if s != [] && IsSpace(s[0]) then SkipSpaces(s[1..]) else s
  }

  /** atoi and atoll, on unbounded integers. */
  function Atoi(s: string): int {
    var t := SkipSpaces(s);
    if t != [] && t[0] == '-' then 0 - LeadingDigits(t[1..], 0)
    else if t != [] && t[0] == '+' then LeadingDigits(t[1..], 0)
    else LeadingDigits(t, 0)
  }

  lemma {:induction false} LeadingDigitsAppend(s: string, d: char, acc: nat)
    requires AllDigits(s) && IsDigit(d)
    ensures LeadingDigits(s + [d], acc) == LeadingDigits(s, acc) * 10 + (d as int - '0' as int)
  {
    if s == [] {
      assert (s + [d])[1..] == [];
    } else {
      assert (s + [d])[1..] == s[1..] + [d];
      assert IsDigit(s[0]);
      LeadingDigitsAppend(s[1..], d, acc * 10 + (s[0] as int - '0' as int));
    }
  }

  lemma {:induction false} LeadingDigitsOfDec(n: nat)
    ensures LeadingDigits(Dec(n), 0) == n
  {
    if n >= 10 {
      LeadingDigitsOfDec(n / 10);
      LeadingDigitsAppend(Dec(n / 10), DigitChar(n % 10), 0);
    } else {
      assert Dec(n)[1..] == [];
    }
  }

  /** Printing a number and reading it back is the identity. */
  lemma {:induction false} AtoiOfDecInt(n: int)
    ensures Atoi(DecInt(n)) == n
  {
    var s := DecInt(n);
    assert s[0] == '-' || IsDigit(s[0]) by {
      if n >= 0 { assert s[0] in Dec(n); }
    }
    if n < 0 {
      assert s[1..] == Dec(-n);
      LeadingDigitsOfDec(-n);
    } else {
      LeadingDigitsOfDec(n);
    }
  }

  // ----- the same in plain numbers and bytes -----

  lemma {:induction false} DivideTwice(n: nat, p: nat)
    requires p > 0
    ensures n / (10 * p) == n / 10 / p
  {
    var q := n / 10 / p;
    var r := n / 10 - q * p;
    assert 0 <= r < p;
    assert 10 * p * q == 10 * (q * p);
    var m := 10 * p;
    assert m * q <= n < m * q + m;
    QuotientIs(n, m, q);
  }

  lemma {:induction false} QuotientIs(n: nat, m: nat, q: nat)
    requires m > 0 && m * q <= n < m * q + m
    ensures n / m == q
  {
    var d := n / m;
    if d + 1 <= q {
      TimesGrows(m, d + 1, q);
    }
    if q + 1 <= d {
      TimesGrows(m, q + 1, d);
    }
  }

  lemma {:induction false} TimesGrows(m: nat, a: int, b: int)
    requires a <= b
    ensures m * a <= m * b
  {
  }

  function Pow10(k: nat): (p: nat)
    ensures p > 0
  {
    if k == 0 then 1 else 10 * Pow10(k - 1)
  }

  /** Digit k from the right of a printed number is '0', code 48, plus the number of 10^k left in
      it. */
  lemma {:induction false} DigitOfDec(n: nat, k: nat)
    requires k < |Dec(n)|
    ensures Dec(n)[|Dec(n)| - 1 - k] as int == 48 + n / Pow10(k) % 10
  {
    if k > 0 {
      assert Dec(n) == Dec(n / 10) + [DigitChar(n % 10)];
      DigitOfDec(n / 10, k - 1);
      DivideTwice(n, Pow10(k - 1));
    }
  }

  /** A printed number has as many digits as it needs. */
  lemma {:induction false} SizeOfDec(n: nat)
    ensures n < Pow10(|Dec(n)|) && (n > 0 ==> Pow10(|Dec(n)| - 1) <= n)
  {
    if n >= 10 {
      SizeOfDec(n / 10);
    }
  }

  lemma {:induction false} Printed()
    ensures DecInt(0) == "0" && DecInt(-7) == "-7" && DecInt(1905) == "1905"
  {
    assert Dec(190) == Dec(19) + ['0'] && Dec(19) == Dec(1) + ['9'];
    assert DigitChar(9) == '9' && DigitChar(0) == '0' && DigitChar(5) == '5' && DigitChar(1) == '1';
  }

  /** Digits are read up to the first byte that is none. */
  lemma {:induction false} LeadingDigitsStop(s: string, rest: string, acc: nat)
    requires AllDigits(s) && (rest == [] || !('0' <= rest[0] <= '9'))
    ensures LeadingDigits(s + rest, acc) == LeadingDigits(s, acc)
  {
    if s == [] {
      assert s + rest == rest;
    } else {
      assert (s + rest)[1..] == s[1..] + rest && IsDigit(s[0]);
      LeadingDigitsStop(s[1..], rest, acc * 10 + (s[0] as int - '0' as int));
    }
  }

  lemma {:induction false} SpacesAreSkipped(spaces: string, s: string)
    requires (forall c | c in spaces :: c == ' ' || 9 <= c as int <= 13) && (s == [] || !IsSpace(s[0]))
    ensures SkipSpaces(spaces + s) == s
  {
    if spaces == [] {
      assert spaces + s == s;
    } else {
      assert spaces[0] in spaces && forall c | c in spaces[1..] :: c in spaces;
      assert (spaces + s)[1..] == spaces[1..] + s;
      SpacesAreSkipped(spaces[1..], s);
    }
  }

  lemma {:induction false} AtoiAfterSpaces(spaces: string, s: string)
    requires (forall c | c in spaces :: c == ' ' || 9 <= c as int <= 13) && (s == [] || !IsSpace(s[0]))
    ensures Atoi(spaces + s) == Atoi(s)
  {
    SpacesAreSkipped(spaces, s);
  }

  lemma {:induction false} AtoiOfNat(n: nat, s: string, rest: string)
    requires s == Dec(n) + rest && (rest == [] || !('0' <= rest[0] <= '9'))
    ensures '0' <= s[0] <= '9' && LeadingDigits(s, 0) == n && Atoi(s) == n
  {
    assert s[0] == Dec(n)[0] && Dec(n)[0] in Dec(n);
    LeadingDigitsOfDec(n);
    LeadingDigitsStop(Dec(n), rest, 0);
  }

  lemma {:induction false} AtoiOfSigned(n: nat, s: string, rest: string)
    requires s == Dec(n) + rest && (rest == [] || !('0' <= rest[0] <= '9'))
    ensures Atoi(['+'] + s) == n && Atoi(['-'] + s) == 0 - n
  {
    AtoiOfNat(n, s, rest);
    assert (['+'] + s)[1..] == s && (['-'] + s)[1..] == s;
  }

  /** A number is read past any white space and a sign, up to the first byte that is no digit. */
  lemma {:induction false} AtoiReads(spaces: string, n: nat, rest: string, s: string)
    requires forall c | c in spaces :: c == ' ' || 9 <= c as int <= 13
    requires s == Dec(n) + rest && (rest == [] || !('0' <= rest[0] <= '9'))
    ensures Atoi(spaces + s) == Atoi(spaces + (['+'] + s)) == n && Atoi(spaces + (['-'] + s)) == 0 - n
  {
    AtoiOfNat(n, s, rest);
    AtoiOfSigned(n, s, rest);
    AtoiAfterSpaces(spaces, s);
    AtoiAfterSpaces(spaces, ['+'] + s);
    AtoiAfterSpaces(spaces, ['-'] + s);
  }

  /** What does not start like a number reads as 0. */
  lemma {:induction false} AtoiOfWords(spaces: string, s: string)
    requires forall c | c in spaces :: c == ' ' || 9 <= c as int <= 13
    requires s == [] || !(s[0] == ' ' || 9 <= s[0] as int <= 13 || s[0] == '+' || s[0] == '-' || '0' <= s[0] <= '9')
    ensures Atoi(spaces + s) == 0
  {
    SpacesAreSkipped(spaces, s);
  }

  /** No number is printed with more digits than its size allows. */
  lemma {:induction false} DecLength(n: nat, k: nat, bound: nat)
    requires bound == Pow10(k) && n < bound && k > 0
    ensures |Dec(n)| <= k
  {
    if n >= 10 {
      DecLength(n / 10, k - 1, bound / 10);
    }
  }

  function UpperChar(c: char): char {
    if 'a' <= c <= 'z' then (c as int - 32) as char else c
  }

  /** toUpper, in the C locale. */
  function Upper(s: string): (r: string)
    ensures |r| == |s|
    ensures forall i | 0 <= i < |s| :: r[i] == if 'a' <= s[i] <= 'z' then (s[i] as int - 32) as char else s[i]
  {
    seq(|s|, i requires 0 <= i < |s| => UpperChar(s[i]))
  }
}
