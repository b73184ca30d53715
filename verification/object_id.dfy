/** MongoDB document ids as the repository handles them: `bson.ObjectId(text)` accepts
    exactly 24 hexadecimal digits in either case, and `str(oid)` writes the twelve
    bytes as 24 lower-case hexadecimal digits. Ids are numbers below 16^24 here. */
module ObjectIds {
  import opened Wrappers
  import opened Text

  /** Hex digits in the text form of an ObjectId. */
  const IdLength: nat := 24

  function Pow16(n: nat): (p: nat)
    ensures p > 0
  {
    if n == 0 then 1 else 16 * Pow16(n - 1)
  }

  /** The number of distinct ObjectIds (2^96). */
  function IdSpace(): nat {
    Pow16(IdLength)
  }

  predicate IsHexDigit(c: char) {
    ('0' <= c <= '9') || ('a' <= c <= 'f') || ('A' <= c <= 'F')
  }

  function HexDigitValue(c: char): (v: nat)
    requires IsHexDigit(c)
    ensures v < 16
  {
    if '0' <= c <= '9' then c as int - '0' as int
    else if 'a' <= c <= 'f' then c as int - 'a' as int + 10
    else c as int - 'A' as int + 10
  }

  /** The lower-case digit for a value below 16. */
  function HexChar(v: nat): (c: char)
    requires v < 16
    ensures IsHexDigit(c) && HexDigitValue(c) == v
    ensures !('A' <= c <= 'Z')
  {
    if v < 10 then ('0' as int + v) as char else ('a' as int + v - 10) as char
  }

  predicate IsHex(s: string) {
    forall i :: 0 <= i < |s| ==> IsHexDigit(s[i])
  }

  /** The number a run of hex digits spells, most significant first. */
  function HexValue(s: string): (v: nat)
    requires IsHex(s)
    ensures v < Pow16(|s|)
  {
    if |s| == 0 then 0
    else
      var p := HexValue(s[..|s| - 1]);
      assert p <= Pow16(|s| - 1) - 1;
      p * 16 + HexDigitValue(s[|s| - 1])
  }

  /** `v` written with exactly `n` lower-case hex digits (the low `n` digits of `v`). */
  function HexText(v: nat, n: nat): (s: string)
    ensures |s| == n && IsHex(s)
  {
    if n == 0 then "" else HexText(v / 16, n - 1) + [HexChar(v % 16)]
  }

  /** `ObjectId(text)`: `None` stands for the InvalidId the constructor raises. */
  function ParseObjectId(text: string): (r: Option<nat>)
    ensures r.Some? ==> r.value < IdSpace()
  {
    if |text| == IdLength && IsHex(text) then Some(HexValue(text)) else None
  }

  /** `str(oid)`. */
  function IdText(id: nat): (s: string)
    requires id < IdSpace()
    ensures |s| == IdLength
  {
    HexText(id, IdLength)
  }

  lemma {:induction false} HexTextValue(v: nat, n: nat)
    requires v < Pow16(n)
    ensures HexValue(HexText(v, n)) == v
  {
    if n > 0 {
      var s := HexText(v, n);
      var a := HexText(v / 16, n - 1);
      assert s[..|s| - 1] == a;
      HexTextValue(v / 16, n - 1);
    }
  }

  /** The digit written for a digit's value is the digit in lower case. */
  lemma HexCharOfDigit(c: char)
    requires IsHexDigit(c)
    ensures HexChar(HexDigitValue(c)) == LowerChar(c)
  {
  }

  /** The last digit of hex text is its value modulo 16; the others spell the quotient. */
  lemma HexValueLast(s: string)
    requires IsHex(s) && |s| > 0
    ensures HexValue(s) / 16 == HexValue(s[..|s| - 1])
    ensures HexValue(s) % 16 == HexDigitValue(s[|s| - 1])
  {
    assert HexValue(s) == HexValue(s[..|s| - 1]) * 16 + HexDigitValue(s[|s| - 1]);
  }

  /** Lower-casing text with one more character at the end. */
  lemma LowerSnoc(a: string, c: char)
    ensures LowerAscii(a + [c]) == LowerAscii(a) + [LowerChar(c)]
  {
    var l := LowerAscii(a + [c]);
    var r := LowerAscii(a) + [LowerChar(c)];
    assert forall i :: 0 <= i < |a| ==> (a + [c])[i] == a[i];
    assert forall i :: 0 <= i < |l| ==> l[i] == r[i];
  }

  /** Writing back the value of hex text gives the text in lower case. */
  lemma {:induction false} HexValueText(s: string)
    requires IsHex(s)
    ensures HexText(HexValue(s), |s|) == LowerAscii(s)
  {
    if |s| > 0 {
      var a := s[..|s| - 1];
      var c := s[|s| - 1];
      var v := HexValue(s);
      HexValueLast(s);
      HexValueText(a);
      HexCharOfDigit(c);
      assert HexText(v, |s|) == HexText(v / 16, |a|) + [HexChar(v % 16)];
      assert s == a + [c];
      LowerSnoc(a, c);
    }
  }

  /** Every id survives `str()` followed by `ObjectId()`. */
  lemma IdTextRoundTrip(id: nat)
    requires id < IdSpace()
    ensures ParseObjectId(IdText(id)) == Some(id)
  {
    HexTextValue(id, IdLength);
  }

  /** And every accepted text is the id's `str()` up to letter case. */
  lemma ParsedIdText(text: string)
    requires ParseObjectId(text).Some?
    ensures IdText(ParseObjectId(text).value) == LowerAscii(text)
  {
    HexValueText(text);
  }
}
