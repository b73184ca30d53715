/** Python numeric conversions used by the bid normalisers: `float(text)`, `int(x)` on a
    float, `round(x, 5)`, and `repr` of a float, all over exact values. */
module Numbers {
  import opened Wrappers
  import opened Text

  /** A Python float: a finite value, NaN, or an infinity. Finite values are exact reals. */
  datatype Float = Finite(value: real) | NaN | Infinity(negative: bool)

  function Pow10(n: nat): (p: nat)
    ensures p >= 1
  {
    if n == 0 then 1 else 10 * Pow10(n - 1)
  }

  lemma Pow10Add(a: nat, b: nat)
    ensures Pow10(a + b) == Pow10(a) * Pow10(b)
  {
    if a > 0 {
      Pow10Add(a - 1, b);
    }
  }

  /** m × 10^k as an exact real. */
  function Scale(m: int, k: int): (x: real)
    ensures m >= 0 ==> x >= 0.0
  {
    if k >= 0 then (m * Pow10(k)) as real else m as real / Pow10(-k) as real
  }

  /** Moving k factors of ten from the mantissa into the exponent keeps the value. */
  lemma ScaleShift(m: int, k: nat, j: int)
    ensures Scale(m * Pow10(k), j) == Scale(m, j + k)
  {
    if j >= 0 {
      Pow10Add(k, j);
      MulAssoc(m, Pow10(k), Pow10(j));
    } else if j + k >= 0 {
      ScaleShiftMixed(m, k, j);
    } else {
      ScaleShiftNegative(m, k, j);
    }
  }

  lemma ScaleShiftMixed(m: int, k: nat, j: int)
    requires j < 0 <= j + k
    ensures Scale(m * Pow10(k), j) == Scale(m, j + k)
  {
    var a, q := Pow10(j + k), Pow10(-j);
    Pow10Add(j + k, -j);
    MulAssoc(m, a, q);
    DivideOutInt(m * a, q);
  }

  lemma DivideOutInt(n: int, q: nat)
    requires q > 0
    ensures (n * q) as real / q as real == n as real
  {
    CastMul(n, q);
    DivideOut(n as real, q as real);
  }

  lemma ScaleShiftNegative(m: int, k: nat, j: int)
    requires j + k < 0
    ensures Scale(m * Pow10(k), j) == Scale(m, j + k)
  {
    var p, q := Pow10(k), Pow10(-j - k);
    assert Pow10(-j) == p * q by {
      Pow10Add(k, -j - k);
    }
    CancelInt(m, p, q);
  }

  lemma CancelInt(m: int, p: nat, q: nat)
    requires p > 0 && q > 0
    ensures (m * p) as real / (p * q) as real == m as real / q as real
  {
    CastMul(p, q);
    CastMul(m, p);
    CancelFactor(m as real, p as real, q as real);
  }

  lemma MulAssoc(a: int, b: int, c: int)
    ensures a * (b * c) == (a * b) * c
  {
  }

  lemma CastMul(a: int, b: int)
    ensures (a * b) as real == a as real * b as real
  {
  }

  lemma DivideOut(a: real, q: real)
    requires q > 0.0
    ensures (a * q) / q == a
  {
  }

  lemma CancelFactor(m: real, p: real, q: real)
    requires p > 0.0 && q > 0.0
    ensures (m * p) / (p * q) == m / q
  {
  }

  // ----- int(x) and round(x, 5) -----

  /** Python's `int(x)` on a finite float: truncation toward zero. */
  function Trunc(x: real): (n: int)
    ensures x >= 0.0 ==> 0.0 <= n as real <= x < n as real + 1.0
    ensures x < 0.0 ==> n as real - 1.0 < x <= n as real <= 0.0
  {
    if x >= 0.0 then x.Floor else -((-x).Floor)
  }

  /** Rounding to the nearest integer, ties to the even neighbour (Python's `round`). */
  function RoundHalfEven(y: real): (n: int)
    ensures -0.5 <= n as real - y <= 0.5
    ensures (n as real - y == 0.5 || y - n as real == 0.5) ==> n % 2 == 0
  {
    var f := y.Floor;
    var frac := y - f as real;
    if frac < 0.5 then f
    else if frac > 0.5 then f + 1
    else if f % 2 == 0 then f
    else f + 1
  }

  /** The two properties above pin the rounded integer down uniquely. */
  lemma RoundHalfEvenUnique(y: real, n: int)
    requires -0.5 <= n as real - y <= 0.5
    requires (n as real - y == 0.5 || y - n as real == 0.5) ==> n % 2 == 0
    ensures n == RoundHalfEven(y)
  {
  }

  /** Number of decimal places a ratio keeps. */
  const RatioPlaces: nat := 5

  /** A value with at most five decimal places. */
  predicate AtMostFivePlaces(x: real) {
    (x * Pow10(RatioPlaces) as real).Floor as real == x * Pow10(RatioPlaces) as real
  }

  lemma RatioScale()
    ensures Pow10(RatioPlaces) as real == 100000.0
  {
    assert Pow10(1) == 10 && Pow10(2) == 100 && Pow10(3) == 1000 && Pow10(4) == 10000;
  }

  /** `round(x, 5)` on an exact value: the nearest multiple of 10^-5, ties to even. */
  function Round5(x: real): (r: real)
    ensures AtMostFivePlaces(r)
    ensures -0.000005 <= r - x <= 0.000005
  {
    RatioScale();
    var s := Pow10(RatioPlaces) as real;
    var n := RoundHalfEven(x * s);
    ScaledBack(x, n, s);
    n as real / s
  }

  /** An integer within half a unit of `x` × 10^5, divided by 10^5, has at most five
      places and lies within half a unit of the fifth place of `x`. */
  lemma ScaledBack(x: real, n: int, s: real)
    requires s == 100000.0 && -0.5 <= n as real - x * s <= 0.5
    ensures (n as real / s * s).Floor as real == n as real / s * s
    ensures -0.000005 <= n as real / s - x <= 0.000005
  {
    assert n as real / s * s == n as real;
  }

  /** A value that already has at most five decimals is left alone by `round(x, 5)`;
      in particular rounding twice is rounding once. */
  lemma Round5Exact(x: real)
    requires AtMostFivePlaces(x)
    ensures Round5(x) == x
  {
    RatioScale();
    var s := Pow10(RatioPlaces) as real;
    var n := (x * s).Floor;
    assert n as real == x * s;
    RoundHalfEvenUnique(x * s, n);
    DivideOut(x, s);
  }

  lemma Round5Idempotent(x: real)
    ensures Round5(Round5(x)) == Round5(x)
  {
    Round5Exact(Round5(x));
  }

  // ----- float(text) -----

  /** Index of the first character of `s` satisfying `e`/`E`, or |s|. */
  function IndexOfExponent(s: string): (n: nat)
    ensures n <= |s|
    ensures 'e' !in s[..n] && 'E' !in s[..n]
    ensures n < |s| ==> s[n] == 'e' || s[n] == 'E'
  {
    if |s| == 0 || s[0] == 'e' || s[0] == 'E' then 0
    else
      var n := 1 + IndexOfExponent(s[1..]);
      assert s[..n] == [s[0]] + s[1..][..n - 1];
      n
  }

  /** Index of the first `c` in `s`, or |s|. */
  function IndexOf(s: string, c: char): (n: nat)
    ensures n <= |s|
    ensures c !in s[..n]
    ensures n < |s| ==> s[n] == c
  {
    if |s| == 0 || s[0] == c then 0
    else
      var n := 1 + IndexOf(s[1..], c);
      assert s[..n] == [s[0]] + s[1..][..n - 1];
      n
  }

  /** Python's `digitpart`, `digit (["_"] digit)*`: digits, with single underscores
      allowed between two digits. */
  predicate IsDigitPart(s: string)
    decreases |s|
  {
    && |s| > 0
    && IsDigit(s[0])
    && (|s| == 1 || if s[1] == '_' then IsDigitPart(s[2..]) else IsDigitPart(s[1..]))
  }

  /** The digits of a digitpart: the string with its underscores removed. */
  function DigitsOf(s: string): string {
    RemoveChar(s, '_')
  }

  /** The exponent after `e`/`E`: an optional sign and a digitpart. */
  function ParseExponent(x: string): Option<int> {
    var negative := |x| > 0 && x[0] == '-';
    var digits := if |x| > 0 && (x[0] == '+' || x[0] == '-') then x[1..] else x;
    if IsDigitPart(digits) then
      var v: int := DigitsValue(DigitsOf(digits));
      Some(if negative then -v else v)
    else None
  }

  /** `s` cut at its first `c`: the text before it, and the text after it when `c` occurs. */
  function SplitAt(s: string, c: char): (string, Option<string>) {
    var i := IndexOf(s, c);
    if i == |s| then (s, None) else (s[..i], Some(s[i + 1..]))
  }

  /** Integer and fraction parts of Python's `[digitpart] "." digitpart | digitpart ["."]`,
      read as an integer coefficient and the number of its digits after the point. */
  function MantissaParts(parts: (string, Option<string>)): Option<(nat, nat)> {
    var (intPart, fraction) := parts;
    match fraction
    case None =>
      if IsDigitPart(intPart) then Some((DigitsValue(DigitsOf(intPart)), 0)) else None
    case Some(fracPart) =>
      if && (intPart == [] || IsDigitPart(intPart))
         && (fracPart == [] || IsDigitPart(fracPart))
         && !(intPart == [] && fracPart == [])
      then
        var fracDigits := DigitsOf(fracPart);
        Some((DigitsValue(DigitsOf(intPart) + fracDigits), |fracDigits|))
      else None
  }

  /** A mantissa, read as coefficient and number of fraction digits. */
  function ParseMantissa(mantissa: string): Option<(nat, nat)> {
    MantissaParts(SplitAt(mantissa, '.'))
  }

  /** A parsed mantissa scaled by a decimal exponent: coefficient × 10^(exponent − fraction digits). */
  function Scaled(mantissa: Option<(nat, nat)>, exponent: int): Option<(nat, int)> {
    match mantissa
    case None => None
    case Some((coefficient, fractionDigits)) => Some((coefficient, exponent - fractionDigits))
  }

  /** An unsigned `floatnumber` cut at its first `e`/`E`: the mantissa, and the exponent
      text when there is one. */
  function SplitExponent(b: string): (string, Option<string>) {
    var e := IndexOfExponent(b);
    if e == |b| then (b, None) else (b[..e], Some(b[e + 1..]))
  }

  /** A mantissa and an optional exponent, read as coefficient × 10^exponent. */
  function ParseParts(parts: (string, Option<string>)): Option<(nat, int)> {
    match parts.1
    case None => Scaled(ParseMantissa(parts.0), 0)
    case Some(x) =>
      match ParseExponent(x)
      case None => None
      case Some(exponent) => Scaled(ParseMantissa(parts.0), exponent)
  }

  /** An unsigned `floatnumber` (a mantissa, then an optional exponent), read as
      coefficient × 10^exponent. */
  function ParseUnsignedDecimal(b: string): Option<(nat, int)> {
    ParseParts(SplitExponent(b))
  }

  /** The float with the opposite sign (NaN stays NaN). */
  function Negate(f: Float): Float {
    match f
    case Finite(x) => Finite(-x)
    case NaN => NaN
    case Infinity(negative) => Infinity(!negative)
  }

  /** 2^53: every integer up to this magnitude is a double exactly. */
  const ExactIntLimit: int := 9007199254740992

  /** 2^1024 - 2^970, half-way between the largest double and 2^1024: `float()` rounds a
      decimal of at least this magnitude to an infinity. */
  const OverflowThreshold: real := 179769313486231580793728971405303415079934132710037826936173778980444968292764750946649017977587207096330286416692887910946555547851940402630657488671505820681908902000708383676273854845817711531764475730270069855571366959622842914819860834936475292719074168444365510704342711559699508093042880177904174497792.0

  /** A value inside the double range, which `float()` keeps finite. */
  predicate InDoubleRange(x: real) {
    -OverflowThreshold < x < OverflowThreshold
  }

  /** A non-negative decimal value as `float()` delivers it: an infinity once it is past
      the double range. */
  function FromDecimal(x: real): (f: Float)
    requires x >= 0.0
    ensures f.Finite? <==> InDoubleRange(x)
    ensures f.Finite? ==> f.value == x
    ensures !f.Finite? ==> f == Infinity(false)
  {
    if x < OverflowThreshold then Finite(x) else Infinity(false)
  }

  /** An unsigned `absfloatvalue`: `inf`, `infinity` or `nan` in any case, or a decimal
      literal, which overflows to an infinity past the double range. */
  function ParseUnsignedFloat(body: string): Option<Float> {
    var word := LowerAscii(body);
    if word == "inf" || word == "infinity" then Some(Infinity(false))
    else if word == "nan" then Some(NaN)
    else
      match ParseUnsignedDecimal(body)
      case None => None
      case Some((coefficient, exponent)) => Some(FromDecimal(Scale(coefficient, exponent)))
  }

  /** `floatvalue`: an optional sign before an unsigned value. */
  function ParseSignedFloat(u: string): Option<Float> {
    if |u| > 0 && (u[0] == '+' || u[0] == '-') then
      match ParseUnsignedFloat(u[1..])
      case None => None
      case Some(f) => Some(if u[0] == '-' then Negate(f) else f)
    else ParseUnsignedFloat(u)
  }

  // ----- the whitespace float() ignores -----

  /** The whitespace `float()` skips around a number. It first turns every non-ASCII
      whitespace character into a space, then skips only ASCII `\t` to `\r` and space.
      So the separators U+001C to U+001F, whitespace to `str.strip()`, are not skipped. */
  predicate IsFloatSpace(c: char) {
    ('\t' <= c <= '\r') || c == ' ' || (c >= '\U{80}' && IsSpace(c))
  }

  /** A character `strip()` removes and `float()` keeps. */
  predicate IsSeparator(c: char) {
    '\U{1C}' <= c <= '\U{1F}'
  }

  predicate NoSeparator(s: string) {
    forall i :: 0 <= i < |s| ==> !IsSeparator(s[i])
  }

  /** The leading whitespace `float()` skips, removed. */
  function FloatTrimStart(s: string): (r: string)
    ensures |r| <= |s|
    ensures |r| > 0 ==> !IsFloatSpace(r[0])
  {
    if |s| > 0 && IsFloatSpace(s[0]) then FloatTrimStart(s[1..]) else s
  }

  /** The trailing whitespace `float()` skips, removed. */
  function FloatTrimEnd(s: string): (r: string)
    ensures |r| <= |s|
    ensures |r| > 0 ==> !IsFloatSpace(r[|r| - 1]) && r[0] == s[0]
  {
    if |s| > 0 && IsFloatSpace(s[|s| - 1]) then FloatTrimEnd(s[..|s| - 1]) else s
  }

  /** The text `float()` parses once the whitespace around it is skipped. */
  function FloatStrip(s: string): string {
    FloatTrimEnd(FloatTrimStart(s))
  }

  /** Without separators, `float()` skips exactly what `lstrip()` removes. */
  lemma {:induction false} TrimStartAgrees(s: string)
    requires NoSeparator(s)
    ensures FloatTrimStart(s) == TrimStart(s)
  {
    if |s| > 0 && IsSpace(s[0]) {
      assert IsFloatSpace(s[0]) by { assert !IsSeparator(s[0]); }
      TrimStartAgrees(s[1..]);
    }
  }

  /** Without separators, `float()` skips exactly what `rstrip()` removes. */
  lemma {:induction false} TrimEndAgrees(s: string)
    requires NoSeparator(s)
    ensures FloatTrimEnd(s) == TrimEnd(s)
  {
    if |s| > 0 && IsSpace(s[|s| - 1]) {
      assert IsFloatSpace(s[|s| - 1]) by { assert !IsSeparator(s[|s| - 1]); }
      TrimEndAgrees(s[..|s| - 1]);
    }
  }

  /** Without separators, `float()` skips exactly what `strip()` removes. */
  lemma StripAgrees(s: string)
    requires NoSeparator(s)
    ensures FloatStrip(s) == Strip(s)
  {
    TrimStartAgrees(s);
    var t := TrimStart(s);
    var i := |s| - |t|;
    TrimStartShape(s);
    assert NoSeparator(t) by {
      forall k | 0 <= k < |t| ensures !IsSeparator(t[k]) {
        assert t[k] == s[i + k];
      }
    }
    TrimEndAgrees(t);
  }

  /** Text with no whitespace at either end is parsed as it stands. */
  lemma FloatStripTrimmed(s: string)
    requires Trimmed(s)
    ensures FloatStrip(s) == s
  {
  }

  /** Skipping whitespace keeps every other character. */
  lemma {:induction false} FloatTrimStartKeeps(s: string, c: char)
    requires c in s && !IsFloatSpace(c)
    ensures c in FloatTrimStart(s)
  {
    if |s| > 0 && IsFloatSpace(s[0]) {
      assert c in s[1..] by {
        var j :| 0 <= j < |s| && s[j] == c;
        assert j > 0 && s[1..][j - 1] == c;
      }
      FloatTrimStartKeeps(s[1..], c);
    }
  }

  lemma {:induction false} FloatTrimEndKeeps(s: string, c: char)
    requires c in s && !IsFloatSpace(c)
    ensures c in FloatTrimEnd(s)
  {
    if |s| > 0 && IsFloatSpace(s[|s| - 1]) {
      assert c in s[..|s| - 1] by {
        var j :| 0 <= j < |s| && s[j] == c;
        assert j < |s| - 1 && s[..|s| - 1][j] == c;
      }
      FloatTrimEndKeeps(s[..|s| - 1], c);
    }
  }

  lemma FloatStripKeeps(s: string, c: char)
    requires c in s && !IsFloatSpace(c)
    ensures c in FloatStrip(s)
  {
    FloatTrimStartKeeps(s, c);
    FloatTrimEndKeeps(FloatTrimStart(s), c);
  }

  /** Python's `float(text)`: surrounding whitespace skipped, then a `floatvalue`.
      `None` stands for the ValueError. */
  function ParseFloatText(t: string): Option<Float> {
    ParseSignedFloat(FloatStrip(t))
  }

  // ----- repr of a float -----

  /** A float cell held as the decimal its Python repr shows: ±significand × 10^exponent. */
  datatype Decimal = Decimal(negative: bool, significand: nat, exponent: int)

  function DecimalValue(d: Decimal): real {
    var m := Scale(d.significand, d.exponent);
    if d.negative then -m else m
  }

  /** Drops trailing zero digits of the significand; zero becomes (0, 0). */
  function Normalize(sig: nat, e: int): (r: (nat, int))
    ensures Scale(r.0, r.1) == Scale(sig, e)
    ensures r.0 == 0 || r.0 % 10 != 0
    ensures r.0 == 0 ==> r.1 == 0
    decreases sig
  {
    if sig == 0 then (0, 0)
    else if sig % 10 == 0 then
      ScaleShift(sig / 10, 1, e);
      Normalize(sig / 10, e + 1)
    else (sig, e)
  }

  function Zeros(n: nat): (s: string)
    ensures |s| == n && forall i :: 0 <= i < n ==> s[i] == '0'
  {
    if n == 0 then [] else Zeros(n - 1) + "0"
  }

  /** C's `%+.02d`: a sign, then at least two digits. */
  function ExponentText(e: int): string {
    var a := if e < 0 then -e else e;
    (if e < 0 then "-" else "+") + (if a < 10 then "0" else "") + NatText(a)
  }

  /** The unsigned part of Python's `repr` of a float, given its digits without trailing
      zeros: positional notation while the decimal point sits between 10^-4 and 10^16,
      scientific notation otherwise. */
  function ReprBody(sig: nat, e: int): string {
    var digits := NatText(sig);
    var point := |digits| + e;
    if point <= -4 || point > 16 then
      if |digits| > 1 then [digits[0]] + "." + digits[1..] + "e" + ExponentText(point - 1)
      else digits + "e" + ExponentText(point - 1)
    else if point <= 0 then "0." + Zeros(-point) + digits
    else if point < |digits| then digits[..point] + "." + digits[point..]
    else digits + Zeros(point - |digits|) + ".0"
  }

  /** Python's `repr` of a float. */
  function DecimalRepr(d: Decimal): string {
    var (sig, e) := Normalize(d.significand, d.exponent);
    (if d.negative then "-" else "") + ReprBody(sig, e)
  }
}
