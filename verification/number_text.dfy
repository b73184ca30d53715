/** Round trips between Python's `str()` of a number and `float(text)`: the normalisers
    turn numeric cells into text and back, and these lemmas show nothing is lost for a
    float, or for an int no larger than 2^53 in magnitude. */
module NumberText {
  import opened Wrappers
  import opened Text
  import opened Numbers

  lemma {:induction false} DigitsValueAppend(a: string, b: string)
    ensures DigitsValue(a + b) == DigitsValue(a) * Pow10(|b|) + DigitsValue(b)
    decreases |b|
  {
    if |b| > 0 {
      var b' := b[..|b| - 1];
      assert (a + b)[..|a + b| - 1] == a + b';
      DigitsValueAppend(a, b');
      calc {
        DigitsValue(a + b);
        DigitsValue(a + b') * 10 + DigitValue(b[|b| - 1]);
        (DigitsValue(a) * Pow10(|b'|) + DigitsValue(b')) * 10 + DigitValue(b[|b| - 1]);
        { MulAssoc(DigitsValue(a), Pow10(|b'|), 10); }
        DigitsValue(a) * Pow10(|b|) + DigitsValue(b);
      }
    } else {
      assert a + b == a;
    }
  }

  lemma {:induction false} DigitsValueZeros(n: nat)
    ensures DigitsValue(Zeros(n)) == 0
  {
    if n > 0 {
      assert Zeros(n)[..n - 1] == Zeros(n - 1);
      DigitsValueZeros(n - 1);
    }
  }

  /** Leading zeros do not change a digit string's value. */
  lemma LeadingZeros(n: nat, b: string)
    requires IsDigits(b)
    ensures DigitsValue(Zeros(n) + b) == DigitsValue(b)
  {
    if n == 0 {
      assert Zeros(n) + b == b;
    } else {
      DigitsValueZeros(n);
      DigitsValueAppend(Zeros(n), b);
    }
  }

  lemma LeadingZero(b: string)
    ensures DigitsValue("0" + b) == DigitsValue(b)
  {
    assert DigitsValue("0") == 0 by {
      assert "0"[..0] == [];
    }
    DigitsValueAppend("0", b);
  }

  /** Trailing zeros multiply a digit string's value by a power of ten. */
  lemma TrailingZeros(a: string, n: nat)
    requires IsDigits(a)
    ensures DigitsValue(a + Zeros(n)) == DigitsValue(a) * Pow10(n)
  {
    if n == 0 {
      assert a + Zeros(n) == a;
    } else {
      DigitsValueZeros(n);
      DigitsValueAppend(a, Zeros(n));
    }
  }

  /** `int(str(n)) == n`. */
  lemma {:induction false} DigitsValueNatText(n: nat)
    ensures DigitsValue(NatText(n)) == n
    decreases n
  {
    if n >= 10 {
      var s := NatText(n);
      assert s[..|s| - 1] == NatText(n / 10);
      DigitsValueNatText(n / 10);
    }
  }

  lemma {:induction false} DigitsAreDigitPart(s: string)
    requires IsDigits(s)
    ensures IsDigitPart(s)
    decreases |s|
  {
    if |s| > 1 {
      assert IsDigits(s[1..]) by {
        assert forall k :: 0 <= k < |s| - 1 ==> s[1..][k] == s[k + 1];
      }
      DigitsAreDigitPart(s[1..]);
    }
  }

  lemma DigitsArePart(s: string)
    requires IsDigits(s)
    ensures IsDigitPart(s) && DigitsOf(s) == s
  {
    DigitsAreDigitPart(s);
    assert '_' !in s by {
      DigitsHaveNoMarks(s, '_');
    }
    RemoveCharAbsent(s, '_');
  }

  // ----- the pieces of float(text) on digit-only shapes -----

  lemma {:induction false} IndexOfAppend(a: string, b: string, c: char)
    requires c !in a
    ensures IndexOf(a + b, c) == |a| + IndexOf(b, c)
  {
    if |a| > 0 {
      assert (a + b)[1..] == a[1..] + b;
      assert c !in a[1..] by {
        assert forall k :: 0 <= k < |a| - 1 ==> a[1..][k] == a[k + 1];
      }
      IndexOfAppend(a[1..], b, c);
    } else {
      assert a + b == b;
    }
  }

  lemma SplitAtFound(a: string, b: string, c: char)
    requires c !in a
    ensures SplitAt(a + [c] + b, c) == (a, Some(b))
  {
    var s := a + [c] + b;
    assert IndexOf(s, c) == |a| by {
      assert s == a + ([c] + b);
      IndexOfAppend(a, [c] + b, c);
    }
    assert s[..|a|] == a;
    assert s[|a| + 1..] == b;
  }

  lemma SplitAtAbsent(a: string, c: char)
    requires c !in a
    ensures SplitAt(a, c) == (a, None)
  {
    assert IndexOf(a, c) == |a|;
  }

  /** Text with no exponent mark in it. */
  predicate NoExponentMark(m: string) {
    'e' !in m && 'E' !in m
  }

  lemma {:induction false} IndexOfExponentAppend(a: string, b: string)
    requires NoExponentMark(a)
    ensures IndexOfExponent(a + b) == |a| + IndexOfExponent(b)
  {
    if |a| > 0 {
      assert (a + b)[1..] == a[1..] + b;
      assert NoExponentMark(a[1..]) by {
        assert forall k :: 0 <= k < |a| - 1 ==> a[1..][k] == a[k + 1];
      }
      IndexOfExponentAppend(a[1..], b);
    } else {
      assert a + b == b;
    }
  }

  lemma SplitExponentFound(m: string, t: string)
    requires NoExponentMark(m)
    ensures SplitExponent(m + "e" + t) == (m, Some(t))
  {
    var b := m + "e" + t;
    assert IndexOfExponent(b) == |m| by {
      assert b == m + ("e" + t);
      IndexOfExponentAppend(m, "e" + t);
    }
    assert b[..|m|] == m;
    assert b[|m| + 1..] == t;
  }

  lemma SplitExponentAbsent(m: string)
    requires NoExponentMark(m)
    ensures SplitExponent(m) == (m, None)
  {
    assert IndexOfExponent(m) == |m|;
  }

  lemma DigitsHaveNoMarks(s: string, c: char)
    requires IsDigits(s) && !IsDigit(c)
    ensures c !in s
  {
  }

  lemma MantissaNoDot(ip: string)
    requires IsDigits(ip)
    ensures ParseMantissa(ip) == Some((DigitsValue(ip), 0))
  {
    assert SplitAt(ip, '.') == (ip, None) by {
      DigitsHaveNoMarks(ip, '.');
      SplitAtAbsent(ip, '.');
    }
    DigitsArePart(ip);
  }

  lemma MantissaWithDot(ip: string, fp: string)
    requires IsDigits(ip) && IsDigits(fp)
    ensures ParseMantissa(ip + "." + fp) == Some((DigitsValue(ip + fp), |fp|))
  {
    assert SplitAt(ip + "." + fp, '.') == (ip, Some(fp)) by {
      DigitsHaveNoMarks(ip, '.');
      SplitAtFound(ip, fp, '.');
    }
    DigitsArePart(ip);
    DigitsArePart(fp);
  }

  /** Digit strings never spell the words `inf`, `infinity` or `nan`. */
  lemma NotAWord(body: string)
    requires |body| > 0 && IsDigit(body[0])
    ensures LowerAscii(body) != "inf" && LowerAscii(body) != "infinity" && LowerAscii(body) != "nan"
  {
    assert LowerAscii(body)[0] == body[0];
  }

  lemma UnsignedNoExponent(m: string, c: nat, f: nat)
    requires NoExponentMark(m)
    requires ParseMantissa(m) == Some((c, f))
    ensures ParseUnsignedDecimal(m) == Some((c, -(f as int)))
  {
    SplitExponentAbsent(m);
  }

  /** The digits `%+.02d` writes for the magnitude `a`: at least two, read back as `a`. */
  lemma ExponentDigits(a: nat)
    ensures IsDigits((if a < 10 then "0" else "") + NatText(a))
    ensures IsDigitPart((if a < 10 then "0" else "") + NatText(a))
    ensures DigitsValue(DigitsOf((if a < 10 then "0" else "") + NatText(a))) == a
  {
    var digits := (if a < 10 then "0" else "") + NatText(a);
    assert IsDigits(digits);
    DigitsArePart(digits);
    DigitsValueNatText(a);
    if a < 10 {
      LeadingZero(NatText(a));
    } else {
      assert digits == NatText(a);
    }
  }

  /** A sign followed by a digitpart reads as the signed value. */
  lemma SignedExponent(t: string, sign: char, digits: string, v: nat, x: int)
    requires sign == '+' || sign == '-'
    requires t == [sign] + digits && IsDigitPart(digits) && DigitsValue(DigitsOf(digits)) == v
    requires x == if sign == '-' then -(v as int) else v
    ensures ParseExponent(t) == Some(x)
  {
    assert t[0] == sign && t[1..] == digits;
  }

  lemma ExponentTextParses(x: int)
    ensures ParseExponent(ExponentText(x)) == Some(x)
  {
    var a := if x < 0 then -x else x;
    var digits := (if a < 10 then "0" else "") + NatText(a);
    ExponentDigits(a);
    var sign := if x < 0 then '-' else '+';
    assert ExponentText(x) == [sign] + digits;
    SignedExponent(ExponentText(x), sign, digits, a, x);
  }

  lemma UnsignedWithExponent(m: string, x: int, c: nat, f: nat)
    requires NoExponentMark(m)
    requires ParseMantissa(m) == Some((c, f))
    ensures ParseUnsignedDecimal(m + "e" + ExponentText(x)) == Some((c, x - f))
  {
    SplitExponentFound(m, ExponentText(x));
    ExponentTextParses(x);
  }

  lemma FloatTextTrimmed(t: string, r: Option<Float>)
    requires Trimmed(t) && ParseSignedFloat(t) == r
    ensures ParseFloatText(t) == r
  {
    FloatStripTrimmed(t);
  }

  /** The value `float` gives an unsigned literal that starts with a digit. */
  function LiteralValue(body: string): Option<Float> {
    match ParseUnsignedDecimal(body)
    case None => None
    case Some((c, k)) => Some(FromDecimal(Scale(c, k)))
  }

  lemma UnsignedDigitsLiteral(body: string, f: Float)
    requires |body| > 0 && IsDigit(body[0]) && LiteralValue(body) == Some(f)
    ensures ParseUnsignedFloat(body) == Some(f)
  {
    NotAWord(body);
  }

  lemma MinusLiteral(t: string, body: string, f: Float, g: Float)
    requires t == "-" + body && ParseUnsignedFloat(body) == Some(f) && g == Negate(f)
    ensures ParseSignedFloat(t) == Some(g)
  {
    assert t[0] == '-' && t[1..] == body;
  }

  lemma UnsignedLiteral(body: string)
    requires |body| > 0 && IsDigit(body[0])
    ensures ParseSignedFloat(body) == ParseUnsignedFloat(body)
  {
  }

  lemma MinusTrimmed(t: string, body: string)
    requires |body| > 0 && !IsSpace(body[|body| - 1]) && t == "-" + body
    ensures Trimmed(t)
  {
    assert t[|t| - 1] == body[|body| - 1];
  }

  lemma NegativeLiteral(t: string, body: string, x: real)
    requires |body| > 0 && IsDigit(body[0]) && !IsSpace(body[|body| - 1])
    requires t == "-" + body && LiteralValue(body) == Some(Finite(x))
    ensures ParseFloatText(t) == Some(Finite(-x))
  {
    MinusTrimmed(t, body);
    UnsignedDigitsLiteral(body, Finite(x));
    MinusLiteral(t, body, Finite(x), Finite(-x));
    FloatTextTrimmed(t, Some(Finite(-x)));
  }

  lemma PositiveLiteral(body: string, x: real)
    requires |body| > 0 && IsDigit(body[0]) && !IsSpace(body[|body| - 1])
    requires LiteralValue(body) == Some(Finite(x))
    ensures ParseFloatText(body) == Some(Finite(x))
  {
    UnsignedDigitsLiteral(body, Finite(x));
    UnsignedLiteral(body);
    FloatTextTrimmed(body, Some(Finite(x)));
  }

  /** An optionally minus-signed literal with no surrounding space reads as its value, negated
      under the sign. */
  lemma SignedLiteral(t: string, body: string, negative: bool, x: real, y: real)
    requires |body| > 0 && IsDigit(body[0]) && !IsSpace(body[|body| - 1])
    requires t == (if negative then "-" else "") + body
    requires LiteralValue(body) == Some(Finite(x)) && y == (if negative then -x else x)
    ensures ParseFloatText(t) == Some(Finite(y))
  {
    if negative {
      NegativeLiteral(t, body, x);
    } else {
      assert t == body;
      PositiveLiteral(body, x);
    }
  }

  /** A digit string with no point or exponent reads as its value. */
  lemma PlainDecimal(t: string, v: nat)
    requires IsDigits(t) && DigitsValue(t) == v
    ensures ParseUnsignedDecimal(t) == Some((v, 0))
  {
    MantissaNoDot(t);
    DigitsHaveNoMarks(t, 'e');
    DigitsHaveNoMarks(t, 'E');
    UnsignedNoExponent(t, v, 0);
  }

  // ----- the round trips -----

  /** `float(str(i)) == i` for every Python int a double holds exactly. */
  lemma IntTextRoundTrip(i: int)
    requires -ExactIntLimit <= i <= ExactIntLimit
    ensures ParseFloatText(IntText(i)) == Some(Finite(i as real))
  {
    var a := if i < 0 then -i else i;
    var body := NatText(a);
    DigitsValueNatText(a);
    PlainDecimal(body, a);
    assert LiteralValue(body) == Some(Finite(a as real));
    SignedLiteral(IntText(i), body, i < 0, a as real, i as real);
  }

  lemma DottedNoMark(ip: string, fp: string)
    requires IsDigits(ip) && IsDigits(fp)
    ensures NoExponentMark(ip + "." + fp)
  {
    DigitsHaveNoMarks(ip, 'e');
    DigitsHaveNoMarks(ip, 'E');
    DigitsHaveNoMarks(fp, 'e');
    DigitsHaveNoMarks(fp, 'E');
  }

  /** `ip.fp` reads as the integer `ipfp` with |fp| digits after the point. */
  lemma DottedDecimal(t: string, ip: string, fp: string, v: nat, k: int)
    requires IsDigits(ip) && IsDigits(fp) && t == ip + "." + fp && DigitsValue(ip + fp) == v && k == -|fp|
    ensures ParseUnsignedDecimal(t) == Some((v, k))
  {
    DottedNoMark(ip, fp);
    MantissaWithDot(ip, fp);
    UnsignedNoExponent(ip + "." + fp, v, |fp|);
  }

  /** `ip.fp` followed by an exponent `x` reads as `ipfp` × 10^(x − |fp|). */
  lemma DottedScientific(t: string, ip: string, fp: string, x: int, v: nat, k: int)
    requires IsDigits(ip) && IsDigits(fp) && t == ip + "." + fp + "e" + ExponentText(x) && DigitsValue(ip + fp) == v
    requires k == x - |fp|
    ensures ParseUnsignedDecimal(t) == Some((v, k))
  {
    DottedNoMark(ip, fp);
    MantissaWithDot(ip, fp);
    UnsignedWithExponent(ip + "." + fp, x, v, |fp|);
  }

  /** Digits followed by an exponent `x` read as their value × 10^x. */
  lemma PlainScientific(t: string, ip: string, x: int, v: nat)
    requires IsDigits(ip) && t == ip + "e" + ExponentText(x) && DigitsValue(ip) == v
    ensures ParseUnsignedDecimal(t) == Some((v, x))
  {
    DigitsHaveNoMarks(ip, 'e');
    DigitsHaveNoMarks(ip, 'E');
    MantissaNoDot(ip);
    UnsignedWithExponent(ip, x, v, 0);
  }

  lemma ScientificShape(t: string, digits: string, v: nat, x: int, k: int)
    requires IsDigits(digits) && DigitsValue(digits) == v && |digits| > 1
    requires t == [digits[0]] + "." + digits[1..] + "e" + ExponentText(x) && k == x - (|digits| - 1)
    ensures ParseUnsignedDecimal(t) == Some((v, k))
  {
    var ip, fp := [digits[0]], digits[1..];
    assert DigitsValue(ip + fp) == v by {
      assert ip + fp == digits;
    }
    DottedScientific(t, ip, fp, x, v, k);
  }

  lemma SmallFractionText(t: string, digits: string, z: nat)
    requires IsDigits(digits) && t == "0." + Zeros(z) + digits
    ensures t == "0" + "." + (Zeros(z) + digits) && IsDigits(Zeros(z) + digits)
    ensures DigitsValue("0" + (Zeros(z) + digits)) == DigitsValue(digits)
  {
    var fp := Zeros(z) + digits;
    assert "0." == "0" + ".";
    assert forall i :: 0 <= i < |fp| ==> fp[i] == if i < z then Zeros(z)[i] else digits[i - z];
    LeadingZero(fp);
    LeadingZeros(z, digits);
  }

  lemma SmallFractionShape(t: string, digits: string, v: nat, z: nat, k: int)
    requires IsDigits(digits) && DigitsValue(digits) == v
    requires t == "0." + Zeros(z) + digits && k == -(z + |digits|)
    ensures ParseUnsignedDecimal(t) == Some((v, k))
  {
    SmallFractionText(t, digits, z);
    DottedDecimal(t, "0", Zeros(z) + digits, v, k);
  }

  lemma SplitPointShape(t: string, digits: string, v: nat, point: nat, k: int)
    requires IsDigits(digits) && DigitsValue(digits) == v && 0 < point < |digits|
    requires t == digits[..point] + "." + digits[point..] && k == point - |digits|
    ensures ParseUnsignedDecimal(t) == Some((v, k))
  {
    var ip, fp := digits[..point], digits[point..];
    DigitsSlice(digits, 0, point);
    DigitsSlice(digits, point, |digits|);
    SliceJoin(digits, point);
    DottedDecimal(t, ip, fp, v, k);
  }

  lemma SliceJoin(s: string, k: nat)
    requires k <= |s|
    ensures s[..k] + s[k..] == s
  {
  }

  /** A non-empty slice of a digit string is a digit string. */
  lemma DigitsSlice(digits: string, a: nat, b: nat)
    requires IsDigits(digits) && a < b <= |digits|
    ensures IsDigits(digits[a..b])
  {
    forall i | 0 <= i < b - a
      ensures IsDigit(digits[a..b][i])
    {
      assert digits[a..b][i] == digits[a + i];
    }
  }

  lemma WholeNumberShape(t: string, digits: string, v: nat, z: nat, c: nat)
    requires IsDigits(digits) && DigitsValue(digits) == v
    requires t == digits + Zeros(z) + ".0" && c == v * Pow10(z + 1)
    ensures ParseUnsignedDecimal(t) == Some((c, -1))
  {
    var ip := digits + Zeros(z);
    assert DigitsValue(ip + "0") == c by {
      assert ip + "0" == digits + Zeros(z + 1);
      TrailingZeros(digits, z + 1);
    }
    DottedDecimal(t, ip, "0", c, -1);
  }

  /** The positional or scientific text `repr` writes reads back as a decimal of the same value. */
  lemma ReprBodyDecimal(sig: nat, e: int) returns (c: nat, k: int)
    ensures ParseUnsignedDecimal(ReprBody(sig, e)) == Some((c, k))
    ensures Scale(c, k) == Scale(sig, e)
  {
    var t := ReprBody(sig, e);
    var digits := NatText(sig);
    var point := |digits| + e;
    DigitsValueNatText(sig);
    c, k := sig, e;
    if point <= -4 || point > 16 {
      if |digits| > 1 {
        ScientificShape(t, digits, sig, point - 1, e);
      } else {
        PlainScientific(t, digits, point - 1, sig);
      }
    } else if point <= 0 {
      SmallFractionShape(t, digits, sig, -point, e);
    } else if point < |digits| {
      SplitPointShape(t, digits, sig, point, e);
    } else {
      c, k := sig * Pow10(point - |digits| + 1), -1;
      WholeNumberShape(t, digits, sig, point - |digits|, c);
      ScaleShift(sig, point - |digits| + 1, -1);
    }
  }

  lemma ReprBodyParses(sig: nat, e: int)
    requires InDoubleRange(Scale(sig, e))
    ensures LiteralValue(ReprBody(sig, e)) == Some(Finite(Scale(sig, e)))
  {
    var c, k := ReprBodyDecimal(sig, e);
  }

  lemma ReprBodyEnds(sig: nat, e: int)
    ensures |ReprBody(sig, e)| > 0
    ensures IsDigit(ReprBody(sig, e)[0]) && IsDigit(ReprBody(sig, e)[|ReprBody(sig, e)| - 1])
  {
    var digits := NatText(sig);
    var point := |digits| + e;
    if point <= -4 || point > 16 {
      var a := if point - 1 < 0 then -(point - 1) else point - 1;
      var n := NatText(a);
      assert ExponentText(point - 1)[|ExponentText(point - 1)| - 1] == n[|n| - 1];
    }
  }

  /** `float(repr(x)) == x`: Python's repr of a float reads back as the same value. */
  lemma ReprRoundTrip(d: Decimal)
    requires InDoubleRange(DecimalValue(d))
    ensures ParseFloatText(DecimalRepr(d)) == Some(Finite(DecimalValue(d)))
  {
    var (sig, e) := Normalize(d.significand, d.exponent);
    assert DecimalValue(d) == if d.negative then -Scale(sig, e) else Scale(sig, e);
    var body := ReprBody(sig, e);
    ReprBodyParses(sig, e);
    ReprBodyEnds(sig, e);
    SignedLiteral(DecimalRepr(d), body, d.negative, Scale(sig, e), DecimalValue(d));
  }

  // ----- text with a character no float holds -----

  /** A character no float literal holds: no digit, `_`, `.` or sign, and no letter
      of `e`, `inf`, `infinity` or `nan` in either case. */
  predicate Foreign(c: char) {
    && !IsDigit(c) && c != '_' && c != '.' && c != '+' && c != '-'
    && LowerChar(c) !in "aefinty"
  }

  /** Cutting `s` at a position that holds another character keeps `c` on one side. */
  lemma CutKeeps(s: string, k: nat, c: char)
    requires c in s && k < |s| && s[k] != c
    ensures c in s[..k] || c in s[k + 1..]
  {
    var j :| 0 <= j < |s| && s[j] == c;
    if j < k {
      assert s[..k][j] == c;
    } else {
      assert s[k + 1..][j - k - 1] == c;
    }
  }

  /** A digitpart holds digits and underscores only. */
  lemma {:induction false} DigitPartLacks(s: string, c: char)
    requires IsDigitPart(s) && Foreign(c)
    ensures c !in s
    decreases |s|
  {
    if |s| > 1 {
      var rest := if s[1] == '_' then s[2..] else s[1..];
      DigitPartLacks(rest, c);
      forall j | 0 <= j < |s|
        ensures s[j] != c
      {
        if j >= |s| - |rest| {
          assert s[j] == rest[j - (|s| - |rest|)];
        }
      }
    }
  }

  lemma ExponentWith(x: string, c: char)
    requires c in x && Foreign(c)
    ensures ParseExponent(x) == None
  {
    var signed := |x| > 0 && (x[0] == '+' || x[0] == '-');
    var digits := if signed then x[1..] else x;
    if signed {
      CutKeeps(x, 0, c);
    }
    if IsDigitPart(digits) {
      DigitPartLacks(digits, c);
    }
  }

  lemma MantissaWith(m: string, c: char)
    requires c in m && Foreign(c)
    ensures ParseMantissa(m) == None
  {
    var i := IndexOf(m, '.');
    if i < |m| {
      CutKeeps(m, i, c);
    }
    var parts := SplitAt(m, '.');
    if IsDigitPart(parts.0) {
      DigitPartLacks(parts.0, c);
    }
    if parts.1.Some? && IsDigitPart(parts.1.value) {
      DigitPartLacks(parts.1.value, c);
    }
  }

  lemma DecimalWith(b: string, c: char)
    requires c in b && Foreign(c)
    ensures ParseUnsignedDecimal(b) == None
  {
    var e := IndexOfExponent(b);
    if e < |b| {
      assert LowerChar('e') == 'e' && LowerChar('E') == 'e';
      CutKeeps(b, e, c);
    }
    var parts := SplitExponent(b);
    if c in parts.0 {
      MantissaWith(parts.0, c);
    } else {
      ExponentWith(parts.1.value, c);
    }
  }

  lemma UnsignedWith(b: string, c: char)
    requires c in b && Foreign(c)
    ensures ParseUnsignedFloat(b) == None
  {
    var j :| 0 <= j < |b| && b[j] == c;
    var w := LowerAscii(b);
    assert w[j] == LowerChar(c);
    WordWith(w, j);
    DecimalWith(b, c);
  }

  /** A word holding a character that no float word has is none of `inf`, `infinity`
      and `nan`. */
  lemma WordWith(w: string, j: nat)
    requires j < |w| && w[j] !in "aefinty"
    ensures w != "inf" && w != "infinity" && w != "nan"
  {
  }

  lemma SignedWith(u: string, c: char)
    requires c in u && Foreign(c)
    ensures ParseSignedFloat(u) == None
  {
    if |u| > 0 && (u[0] == '+' || u[0] == '-') {
      CutKeeps(u, 0, c);
      UnsignedWith(u[1..], c);
    } else {
      UnsignedWith(u, c);
    }
  }

  /** `float()` rejects every text holding a character that is neither in a float
      literal nor whitespace it skips. */
  lemma ForeignNeverFloat(t: string, c: char)
    requires c in t && Foreign(c) && !IsFloatSpace(c)
    ensures ParseFloatText(t) == None
  {
    FloatStripKeeps(t, c);
    SignedWith(FloatStrip(t), c);
  }

  /** `float()` has no digit grouping: it rejects every text that holds a comma. */
  lemma CommaNeverFloat(t: string)
    requires ',' in t
    ensures ParseFloatText(t) == None
  {
    ForeignNeverFloat(t, ',');
  }

  /** `float()` does not skip the separators U+001C to U+001F: it rejects every text
      that holds one, even at an end where `strip()` would remove it. */
  lemma SeparatorNeverFloat(t: string)
    requires !NoSeparator(t)
    ensures ParseFloatText(t) == None
  {
    var j :| 0 <= j < |t| && IsSeparator(t[j]);
    ForeignNeverFloat(t, t[j]);
  }

  // ----- characters of str() -----

  /** `str()` of a number writes only digits, `.`, `e`, `+` and `-`: in particular no
      comma and no whitespace. */
  predicate NumberChar(c: char) {
    IsDigit(c) || c == '.' || c == 'e' || c == '+' || c == '-'
  }

  lemma IntTextChars(i: int, c: char)
    requires !NumberChar(c)
    ensures c !in IntText(i)
  {
    var a := if i < 0 then -i else i;
    DigitsHaveNoMarks(NatText(a), c);
  }

  lemma ZerosChars(n: nat, c: char)
    requires c != '0'
    ensures c !in Zeros(n)
  {
  }

  lemma ReprBodyChars(sig: nat, e: int, c: char)
    requires !NumberChar(c)
    ensures c !in ReprBody(sig, e)
  {
    var digits := NatText(sig);
    DigitsHaveNoMarks(digits, c);
    var point := |digits| + e;
    if point <= -4 || point > 16 {
      var a := if point - 1 < 0 then -(point - 1) else point - 1;
      DigitsHaveNoMarks(NatText(a), c);
      assert c !in ExponentText(point - 1);
      assert c !in digits[1..];
    } else if point <= 0 {
      ZerosChars(-point, c);
    } else if point < |digits| {
      assert c !in digits[..point] && c !in digits[point..];
    } else {
      ZerosChars(point - |digits|, c);
    }
  }

  /** Every character of a float's repr is a digit, `.`, `e` or a sign. */
  lemma ReprCharAt(d: Decimal, k: nat)
    requires k < |DecimalRepr(d)|
    ensures NumberChar(DecimalRepr(d)[k])
  {
    var x := DecimalRepr(d)[k];
    if !NumberChar(x) {
      ReprChars(d, x);
    }
  }

  lemma NumberCharNotSpace(c: char)
    requires NumberChar(c)
    ensures !IsSpace(c)
  {
  }

  /** A float's repr has no whitespace at either end. */
  lemma ReprTrimmed(d: Decimal)
    ensures Trimmed(DecimalRepr(d))
  {
    var t := DecimalRepr(d);
    if |t| > 0 {
      ReprCharAt(d, 0);
      ReprCharAt(d, |t| - 1);
      NumberCharNotSpace(t[0]);
      NumberCharNotSpace(t[|t| - 1]);
    }
  }

  /** An int's `str()` has no whitespace at either end. */
  lemma IntTextTrimmed(i: int)
    ensures Trimmed(IntText(i))
  {
    var t := IntText(i);
    var a := if i < 0 then -i else i;
    var digits := NatText(a);
    assert t[|t| - 1] == digits[|digits| - 1];
  }

  lemma ReprChars(d: Decimal, c: char)
    requires !NumberChar(c)
    ensures c !in DecimalRepr(d)
  {
    var (sig, e) := Normalize(d.significand, d.exponent);
    ReprBodyChars(sig, e, c);
  }
}
