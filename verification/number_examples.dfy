/** Two texts on which the normalisers part ways. Text past the double range: `float()`
    reads "1e400" as an infinity, so the integer normalisers raise OverflowError on it
    while the float ones return the infinity. A separator at an end: `strip()` removes
    U+001C from "\x1c1" but `float()` does not. */
module NumberExamples {
  import opened Wrappers
  import opened Text
  import opened Numbers
  import opened NumberText
  import opened BidUtils

  lemma Pow10Double(n: nat, p: nat)
    requires Pow10(n) == p
    ensures Pow10(n + n) == p * p
  {
    Pow10Add(n, n);
  }

  lemma Pow10Times(n: nat, p: nat, m: nat, q: nat)
    requires Pow10(n) == p && Pow10(m) == q
    ensures Pow10(n + m) == p * q
  {
    Pow10Add(n, m);
  }

  /** 10^309 is past the double range. The powers are built by squaring, from a
      variable exponent so that the solver never unfolds `Pow10` on a large literal. */
  lemma Pow10PastRange(one: nat)
    requires one == 1
    ensures Pow10(309 * one) as real >= OverflowThreshold
  {
    var p1 := 10;
    Pow10Double(one, p1);
    var p2 := p1 * p1;
    Pow10Double(2 * one, p2);
    var p4 := p2 * p2;
    Pow10Double(4 * one, p4);
    var p8 := p4 * p4;
    Pow10Double(8 * one, p8);
    var p16 := p8 * p8;
    Pow10Double(16 * one, p16);
    var p32 := p16 * p16;
    Pow10Double(32 * one, p32);
    var p64 := p32 * p32;
    Pow10Double(64 * one, p64);
    var p128 := p64 * p64;
    Pow10Double(128 * one, p128);
    var p256 := p128 * p128;
    Pow10Times(256 * one, p256, 32 * one, p32);
    Pow10Times(288 * one, p256 * p32, 16 * one, p16);
    Pow10Times(304 * one, p256 * p32 * p16, 4 * one, p4);
    Pow10Times(308 * one, p256 * p32 * p16 * p4, one, p1);
  }

  /** 1 × 10^400 is past the double range. */
  lemma ScalePastRange(one: nat)
    requires one == 1
    ensures Scale(1, 400 * one) >= OverflowThreshold
  {
    Pow10PastRange(one);
    var p, q := Pow10(309 * one), Pow10(91 * one);
    Pow10Add(309 * one, 91 * one);
    assert Pow10(400 * one) == p * q;
    AtLeastFactor(p, q);
  }

  lemma AtLeastFactor(p: nat, q: nat)
    requires q >= 1
    ensures p * q >= p
  {
  }

  lemma ExponentOf400()
    ensures ParseExponent("400") == Some(400)
  {
    DigitsArePart("400");
    assert "400"[..2] == "40" && "40"[..1] == "4" && "4"[..0] == "";
    assert DigitsValue("400") == 400;
  }

  lemma SplitOf1e400()
    ensures SplitExponent("1e400") == ("1", Some("400"))
  {
    assert "1e400" == "1" + "e" + "400";
    assert NoExponentMark("1");
    SplitExponentFound("1", "400");
  }

  /** "1e400" is a decimal literal: coefficient 1, exponent 400. */
  lemma HugeTextDecimal()
    ensures ParseUnsignedDecimal("1e400") == Some((1, 400))
  {
    SplitOf1e400();
    ExponentOf400();
    MantissaNoDot("1");
  }

  /** `float("1e400")` is an infinity. */
  lemma HugeTextIsInfinite()
    ensures ParseFloatText("1e400") == Some(Infinity(false))
  {
    FloatStripTrimmed("1e400");
    NotAWord("1e400");
    HugeTextDecimal();
    ScalePastRange(1);
  }

  /** "1e400" is left alone by comma removal and strip. */
  lemma HugeTextCleaned()
    ensures Cleaned("1e400") == "1e400"
  {
    RemoveCharAbsent("1e400", ',');
    StripTrimmed("1e400");
  }

  /** `parse_integer("1e400")` and `parse_optional_int("1e400")` raise OverflowError;
      `parse_ratio` and `parse_optional_float` return the infinity. */
  lemma HugeTextOverflows()
    ensures ParseInteger(StrValue("1e400")) == Err(OverflowError)
    ensures ParseOptionalInt(StrValue("1e400")) == Err(OverflowError)
    ensures ParseRatio(StrValue("1e400")) == Infinity(false)
    ensures ParseOptionalFloat(StrValue("1e400")) == Some(Infinity(false))
  {
    HugeTextCleaned();
    HugeTextIsInfinite();
  }

  /** "\x1c1": `strip()` removes the separator, so `parse_ratio` gives 1.0, while
      `float()` keeps it, so `parse_optional_float` gives None. */
  lemma SeparatorAtEnd()
    ensures ParseRatio(StrValue("\U{1C}1")) == Finite(1.0)
    ensures ParseOptionalFloat(StrValue("\U{1C}1")) == None
  {
    var t := "\U{1C}1";
    assert !NoSeparator(t) by { assert IsSeparator(t[0]); }
    SeparatorText(t);
    SeparatorCleaned();
    OneText();
    OneRounded();
  }

  /** Comma removal and `strip()` turn "\x1c1" into "1". */
  lemma SeparatorCleaned()
    ensures Cleaned("\U{1C}1") == "1"
  {
    var t := "\U{1C}1";
    assert RemoveChar(t, ',') == t;
    assert TrimStart(t) == TrimStart(t[1..]) && t[1..] == "1";
  }

  /** `float("1")` is 1.0. */
  lemma OneText()
    ensures ParseFloatText("1") == Some(Finite(1.0))
  {
    assert NatText(1) == "1";
    IntTextRoundTrip(1);
  }

  /** 1.0 is its own rounding to five places. */
  lemma OneRounded()
    ensures RoundFloat(Finite(1.0)) == Finite(1.0)
  {
    assert AtMostFivePlaces(1.0) by { RatioScale(); }
    Round5Exact(1.0);
  }
}
