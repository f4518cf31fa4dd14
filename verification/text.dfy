/** The string primitives the pages rely on: `trim`, `toLowerCase`,
    `includes`, the decimal rendering of numbers (`toString`, template
    interpolation) and `parseInt(s, 10)`. */
module Text {
  import opened Common

  /** The characters `trim` and `parseInt` skip: the WhiteSpace and
      LineTerminator code points of ECMAScript. */
  predicate IsWhite(c: char) {
    c == ' ' || c == '\t' || c == '\n' || c == '\r' || c == '\U{0B}' || c == '\U{0C}'
    || c == '\U{A0}' || c == '\U{1680}' || ('\U{2000}' <= c <= '\U{200A}')
    || c == '\U{2028}' || c == '\U{2029}' || c == '\U{202F}' || c == '\U{205F}'
    || c == '\U{3000}' || c == '\U{FEFF}'
  }

  predicate IsDigit(c: char) {
    '0' <= c <= '9'
  }

  /** The first position at or after `from` that is not white space. */
  function SkipWhite(s: string, from: nat): (lo: nat)
    requires from <= |s|
    ensures from <= lo <= |s|
    ensures forall i {:trigger IsWhite(s[i])} :: from <= i < lo ==> IsWhite(s[i])
    ensures lo < |s| ==> !IsWhite(s[lo])
    decreases |s| - from
  {
    if from < |s| && IsWhite(s[from]) then SkipWhite(s, from + 1) else from
  }

  /** The end of `s[lo..hi]` once its trailing white space is dropped. */
  function SkipWhiteBack(s: string, lo: nat, hi: nat): (e: nat)
    requires lo <= hi <= |s|
    ensures lo <= e <= hi
    ensures forall i {:trigger IsWhite(s[i])} :: e <= i < hi ==> IsWhite(s[i])
    ensures e > lo ==> !IsWhite(s[e - 1])
    decreases hi
  {
    if hi > lo && IsWhite(s[hi - 1]) then SkipWhiteBack(s, lo, hi - 1) else hi
  }

  /** `r` is the piece of `s` starting at `lo` with only white space around it. */
  ghost predicate TrimmedAt(s: string, r: string, lo: int) {
    && 0 <= lo && lo + |r| <= |s| && r == s[lo..lo + |r|]
    && (forall i {:trigger IsWhite(s[i])} :: 0 <= i < lo ==> IsWhite(s[i]))
    && (forall i {:trigger IsWhite(s[i])} :: lo + |r| <= i < |s| ==> IsWhite(s[i]))
  }

  /** `String.prototype.trim`: the slice of `s` between its leading and
      trailing white space. */
  function Trim(s: string): (r: string)
    ensures exists lo :: TrimmedAt(s, r, lo)
    ensures |r| > 0 ==> !IsWhite(r[0]) && !IsWhite(r[|r| - 1])
    ensures r == [] <==> forall i {:trigger IsWhite(s[i])} :: 0 <= i < |s| ==> IsWhite(s[i])
  {
    var lo := SkipWhite(s, 0);
    var hi := SkipWhiteBack(s, lo, |s|);
    assert TrimmedAt(s, s[lo..hi], lo);
    s[lo..hi]
  }

  /** `toLowerCase` on one character; only the ASCII letters are mapped. */
  function LowerChar(c: char): char {
    if 'A' <= c <= 'Z' then (c as int + 32) as char else c
  }

  function Lower(s: string): (r: string)
    ensures |r| == |s|
    ensures forall i :: 0 <= i < |s| ==> r[i] == LowerChar(s[i])
  {
    seq(|s|, i requires 0 <= i < |s| => LowerChar(s[i]))
  }

  /** `s.includes(q)`: `q` occurs in `s` as a contiguous piece. */
  predicate Contains(s: string, q: string) {
    exists i :: 0 <= i <= |s| && q <= s[i..]
  }

  // ---------------------------------------------------------------------------
  // Decimal rendering of numbers
  // ---------------------------------------------------------------------------

  function DigitChar(d: int): (c: char)
    requires 0 <= d < 10
    ensures IsDigit(c) && DigitValue(c) == d
  {
    ('0' as int + d) as char
  }

  function DigitValue(c: char): int
    requires IsDigit(c)
  {
    c as int - '0' as int
  }

  /** Decimal digits of a natural number, without leading zeros. */
  function NatToString(n: nat): (r: string)
    ensures |r| >= 1
    ensures forall i :: 0 <= i < |r| ==> IsDigit(r[i])
    ensures |r| > 1 ==> r[0] != '0'
    decreases n
  {
    if n < 10 then [DigitChar(n)] else NatToString(n / 10) + [DigitChar(n % 10)]
  }

  /** Digits after the decimal point of a cent part `f` (0..99), with the
      trailing zeros that `Number.prototype.toString` drops removed. */
  function FractionText(f: int): (r: string)
    requires 0 <= f < 100
    ensures r == [] <==> f == 0
    ensures r != [] ==> r[0] == '.'
    ensures '.' in r <==> f != 0
    ensures f > 0 ==> 2 <= |r| <= 3 && r[|r| - 1] != '0'
  {
    if f == 0 then ""
    else if f % 10 == 0 then ['.', DigitChar(f / 10)]
    else ['.', DigitChar(f / 10), DigitChar(f % 10)]
  }

  /** The digits after the point are the cent part: one digit counts tenths,
      two count hundredths. */
  lemma FractionTextValue(f: int)
    requires 0 < f < 100
    ensures var r := FractionText(f);
            && (forall i :: 1 <= i < |r| ==> IsDigit(r[i]))
            && (|r| == 2 ==> DigitsValue(r[1..]) * 10 == f)
            && (|r| == 3 ==> DigitsValue(r[1..]) == f)
  {
    var r := FractionText(f);
    if f % 10 == 0 {
      var ds := [DigitChar(f / 10)];
      assert r[1..] == ds;
      assert DigitsValue(ds) == DigitsValue([]) * 10 + f / 10 by { assert ds[..0] == []; }
    } else {
      var ds := [DigitChar(f / 10), DigitChar(f % 10)];
      assert r[1..] == ds;
      assert DigitsValue(ds) == DigitsValue([ds[0]]) * 10 + f % 10 by { assert ds[..1] == [ds[0]]; }
      assert DigitsValue([ds[0]]) == f / 10 by { assert [ds[0]][..0] == []; }
    }
  }

  /** `Number.prototype.toString` of an amount of `c` cents. */
  function CentsToString(c: int): (r: string)
    ensures c >= 0 && c % 100 == 0 ==> r == NatToString(c / 100)
    ensures '.' in r <==> c % 100 != 0
    ensures |r| > 0 && (r[0] == '-' <==> c < 0)
    ensures var fraction := FractionText((if c < 0 then -c else c) % 100);
            |fraction| < |r| && r[|r| - |fraction|..] == fraction
    ensures var a := if c < 0 then -c else c;
            var start := if c < 0 then 1 else 0;
            start <= |r| - |FractionText(a % 100)| && r[start..|r| - |FractionText(a % 100)|] == NatToString(a / 100)
  {
    if c < 0 then
      CentsOfNegated(c);
      var whole := NatToString((-c) / 100);
      assert '.' !in whole;
      WithSign(whole, FractionText((-c) % 100))
    else UnsignedCentsText(c)
  }

  /** A minus sign, the whole part, then the fraction; a point can only
      come from the fraction. */
  function WithSign(whole: string, fraction: string): (r: string)
    requires |whole| > 0 && '.' !in whole
    ensures 1 + |fraction| < |r| && r[0] == '-'
    ensures r[|r| - |fraction|..] == fraction
    ensures r[1..|r| - |fraction|] == whole
    ensures '.' in r <==> '.' in fraction
  {
    var r := "-" + (whole + fraction);
    assert r[1..] == whole + fraction;
    assert forall i :: 0 <= i < |r| ==> r[i] == '-' || r[i] in whole || r[i] in fraction;
    r
  }

  /** Negating an amount keeps whether it has cents. */
  lemma CentsOfNegated(c: int)
    ensures c % 100 == 0 <==> (-c) % 100 == 0
  {
    assert c % 100 == 0 ==> -c == 100 * (-(c / 100));
    assert (-c) % 100 == 0 ==> c == 100 * (-((-c) / 100));
  }

  /** The text of a non-negative amount: whole part, then the fraction. */
  function UnsignedCentsText(a: nat): (r: string)
    ensures |r| > 0 && r[0] != '-'
    ensures '.' in r <==> a % 100 != 0
    ensures |FractionText(a % 100)| < |r|
    ensures r[|r| - |FractionText(a % 100)|..] == FractionText(a % 100)
    ensures r[..|r| - |FractionText(a % 100)|] == NatToString(a / 100)
  {
    var whole := NatToString(a / 100);
    assert '.' !in whole;
    whole + FractionText(a % 100)
  }

  // ---------------------------------------------------------------------------
  // parseInt(s, 10)
  // ---------------------------------------------------------------------------

  /** The longest prefix of `s` made of decimal digits. */
  function LeadingDigits(s: string): (r: string)
    ensures |r| <= |s| && r == s[..|r|]
    ensures forall i :: 0 <= i < |r| ==> IsDigit(r[i])
    ensures |r| < |s| ==> !IsDigit(s[|r|])
    decreases |s|
  {
    if |s| > 0 && IsDigit(s[0]) then
      var rest := LeadingDigits(s[1..]);
      assert ([s[0]] + rest)[1..] == rest;
      [s[0]] + rest
    else []
  }

  /** The number a string of decimal digits denotes, read left to right. */
  function DigitsValue(ds: string): (v: nat)
    requires forall i :: 0 <= i < |ds| ==> IsDigit(ds[i])
    decreases |ds|
  {
    if |ds| == 0 then 0 else DigitsValue(ds[..|ds| - 1]) * 10 + DigitValue(ds[|ds| - 1])
  }

  /** `parseInt(s, 10)`: skip leading white space, read an optional sign and
      then the leading digits; no digit at all gives NaN, here `None`. */
  function ParseInt(s: string): (r: Option<int>)
    ensures var t := s[SkipWhite(s, 0)..];
            var body := if |t| > 0 && (t[0] == '-' || t[0] == '+') then t[1..] else t;
            r.Some? <==> |body| > 0 && IsDigit(body[0])
  {
    var t := s[SkipWhite(s, 0)..];
    var negative := |t| > 0 && t[0] == '-';
    var body := if |t| > 0 && (t[0] == '-' || t[0] == '+') then t[1..] else t;
    var ds := LeadingDigits(body);
    if |ds| == 0 then None
    else
      var v: int := DigitsValue(ds);
      Some(if negative then -v else v)
  }

  lemma DigitNotWhite(c: char)
    requires IsDigit(c) || c == '-'
    ensures !IsWhite(c)
  {
  }

  lemma {:induction false} DigitsValueOfNat(n: nat)
    ensures DigitsValue(NatToString(n)) == n
    decreases n
  {
    if n >= 10 {
      var a := NatToString(n / 10);
      var s := a + [DigitChar(n % 10)];
      assert s[..|s| - 1] == a;
      DigitsValueOfNat(n / 10);
    }
  }

  lemma {:induction false} LeadingDigitsOfDigits(ds: string, rest: string)
    requires forall i :: 0 <= i < |ds| ==> IsDigit(ds[i])
    requires |rest| == 0 || !IsDigit(rest[0])
    ensures LeadingDigits(ds + rest) == ds
    decreases |ds|
  {
    if |ds| > 0 {
      assert (ds + rest)[1..] == ds[1..] + rest;
      LeadingDigitsOfDigits(ds[1..], rest);
      assert ds == [ds[0]] + ds[1..];
    } else {
      assert ds + rest == rest;
    }
  }

  /** Rendering a natural number and parsing it back gives the number,
      whatever non-digit text follows it. */
  lemma ParseIntOfNat(n: nat, rest: string)
    requires |rest| == 0 || !IsDigit(rest[0])
    ensures ParseInt(NatToString(n) + rest) == Some(n)
  {
    var s := NatToString(n) + rest;
    assert s[0] == NatToString(n)[0];
    DigitNotWhite(s[0]);
    assert SkipWhite(s, 0) == 0;
    assert s[0..] == s;
    LeadingDigitsOfDigits(NatToString(n), rest);
    DigitsValueOfNat(n);
  }

  lemma ParseIntOfNegated(n: nat, rest: string)
    requires |rest| == 0 || !IsDigit(rest[0])
    ensures ParseInt("-" + (NatToString(n) + rest)) == Some(-(n as int))
  {
    var s := "-" + (NatToString(n) + rest);
    DigitNotWhite(s[0]);
    assert SkipWhite(s, 0) == 0;
    assert s[0..] == s;
    assert s[1..] == NatToString(n) + rest;
    LeadingDigitsOfDigits(NatToString(n), rest);
    DigitsValueOfNat(n);
  }

  /** An amount's text, with or without a minus sign, parses back to its
      whole part. */
  lemma ParseIntOfAmountText(w: nat, f: int)
    requires 0 <= f < 100
    ensures ParseInt(NatToString(w) + FractionText(f)) == Some(w)
    ensures ParseInt("-" + (NatToString(w) + FractionText(f))) == Some(-(w as int))
  {
    ParseIntOfNat(w, FractionText(f));
    ParseIntOfNegated(w, FractionText(f));
  }

  /** `parseInt` of a rendered amount gives its whole part, truncated
      toward zero. */
  lemma ParseIntOfCents(c: int)
    ensures ParseInt(CentsToString(c)) == Some(if c < 0 then -((-c) / 100) else c / 100)
  {
    var a: nat := if c < 0 then -c else c;
    var w, f := a / 100, a % 100;
    assert UnsignedCentsText(a) == NatToString(w) + FractionText(f);
    ParseIntOfAmountText(w, f);
    if c < 0 {
      assert CentsToString(c) == "-" + UnsignedCentsText(a);
    } else {
      assert CentsToString(c) == UnsignedCentsText(a);
    }
  }
}
