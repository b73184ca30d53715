/** `BidUtils`: the tolerant normalisers that turn a raw spreadsheet cell into the
    typed value of a bid field. Every one but `parse_datetime` falls back to a default
    instead of raising; the one exception they let escape is Python's OverflowError
    from `int()` of an infinite float, which `parse_integer` and `parse_optional_int`
    meet for text such as "inf" or "1e400" that `float()` reads as an infinity. */
module BidUtils {
  import opened Wrappers
  import opened Text
  import opened Numbers
  import opened NumberText
  import opened Strptime
  import opened DateFormat

  /** An `int` cell: one that a double holds exactly, so that `float()` of it or of its
      text is the same number. */
  type CellInt = i: int | -ExactIntLimit <= i <= ExactIntLimit

  /** A finite `float` cell, held as the decimal its repr shows; a repr reads back as a
      double, so it lies inside the double range. */
  type CellFloat = d: Decimal | InDoubleRange(DecimalValue(d)) witness Decimal(false, 0, 0)

  /** A cell as pandas hands it over: missing (`None` or `NaN`, what `pd.isna` is true
      for), a Python `int`, a finite `float`, or a `str`. */
  datatype Cell = Missing | IntValue(i: CellInt) | FloatValue(d: CellFloat) | StrValue(s: string)

  /** `str(value)` of a present cell. */
  function CellText(c: Cell): string
    requires !c.Missing?
  {
    match c
    case IntValue(i) => IntText(i)
    case FloatValue(d) => DecimalRepr(d)
    case StrValue(s) => s
  }

  /** `text.replace(",", "").strip()`. */
  function Cleaned(text: string): string {
    Strip(RemoveChar(text, ','))
  }

  /** Cleaned text has no comma and no whitespace at either end. */
  lemma CleanedShape(text: string)
    ensures Trimmed(Cleaned(text)) && ',' !in Cleaned(text)
  {
    RemoveCharDrops(text, ',');
    StripKeepsOut(RemoveChar(text, ','), ',');
  }

  /** The exceptions a conversion can raise. */
  datatype Raised = ValueError | OverflowError

  /** `int(f)` for a float: truncation toward zero; NaN raises ValueError and an
      infinity raises OverflowError. */
  function FloatToInt(f: Float): (r: Result<int, Raised>)
    ensures r.Ok? <==> f.Finite?
    ensures r.Ok? ==> r.value == Trunc(f.value)
    ensures r.Err? ==> (r.error == OverflowError <==> f.Infinity?)
  {
    match f
    case Finite(x) => Ok(Trunc(x))
    case NaN => Err(ValueError)
    case Infinity(_) => Err(OverflowError)
  }

  /** `int(float(text))`; text `float()` rejects raises ValueError. */
  function TextToInt(text: string): Result<int, Raised> {
    match ParseFloatText(text)
    case None => Err(ValueError)
    case Some(f) => FloatToInt(f)
  }

  /** Neither "" nor "-" is a float. */
  lemma NoFloatText()
    ensures ParseFloatText("") == None && ParseFloatText("-") == None
  {
    assert FloatStrip("") == "";
    assert FloatStrip("-") == "-";
    assert "-"[1..] == "";
  }

  /** Cleaning text that has no comma and no separator (U+001C to U+001F) does not
      change what `float()` makes of it. */
  lemma CleanedParses(text: string)
    requires ',' !in text && NoSeparator(text)
    ensures ParseFloatText(Cleaned(text)) == ParseFloatText(text)
  {
    RemoveCharAbsent(text, ',');
    StripAgrees(text);
    FloatStripTrimmed(Strip(text));
  }

  /** The text of a number starts and ends with a digit or a sign, never whitespace. */
  lemma NumberTextTrimmed(c: Cell)
    requires c.IntValue? || c.FloatValue?
    ensures Trimmed(CellText(c))
  {
    if c.FloatValue? {
      ReprTrimmed(c.d);
    } else {
      IntTextTrimmed(c.i);
    }
  }

  /** `str()` of a number: cleaning leaves it alone, `float()` reads the number back, and
      it is neither "" nor "-". */
  lemma NumberCellText(c: Cell)
    requires c.IntValue? || c.FloatValue?
    ensures Cleaned(CellText(c)) == CellText(c)
    ensures var v := if c.IntValue? then c.i as real else DecimalValue(c.d);
      ParseFloatText(CellText(c)) == Some(Finite(v))
    ensures CellText(c) != "" && CellText(c) != "-"
  {
    var text := CellText(c);
    if c.IntValue? {
      IntTextRoundTrip(c.i);
      IntTextChars(c.i, ',');
    } else {
      ReprRoundTrip(c.d);
      ReprChars(c.d, ',');
    }
    NumberTextTrimmed(c);
    RemoveCharAbsent(text, ',');
    StripTrimmed(text);
    NoFloatText();
  }

  // ----- parse_integer -----

  /** `parse_integer`: 0 for a missing cell, `int(value)` for a number, and for text the
      truncated float of its comma-stripped, trimmed form, 0 when that is no float.
      `int()` of an infinity escapes the handler as OverflowError. */
  function ParseInteger(c: Cell): (r: Result<int, Raised>)
    ensures r.Err? ==> r.error == OverflowError
    ensures r.Err? <==> c.StrValue? && ParseFloatText(Cleaned(c.s)).Some? && ParseFloatText(Cleaned(c.s)).value.Infinity?
    ensures c.Missing? ==> r == Ok(0)
    ensures c.IntValue? ==> r == Ok(c.i)
    ensures c.FloatValue? ==> r == Ok(Trunc(DecimalValue(c.d)))
    ensures c.StrValue? && r.Ok? ==> r.value == if TextToInt(Cleaned(c.s)).Ok? then TextToInt(Cleaned(c.s)).value else 0
  {
    match c
    case Missing => Ok(0)
    case IntValue(i) => Ok(i)
    case FloatValue(d) => Ok(Trunc(DecimalValue(d)))
    case StrValue(s) =>
      match TextToInt(Cleaned(s))
      case Ok(n) => Ok(n)
      case Err(ValueError) => Ok(0)
      case Err(OverflowError) => Err(OverflowError)
  }

  lemma TruncOfInt(i: int)
    ensures Trunc(i as real) == i
  {
  }

  /** Integer cells come back unchanged from `parse_integer` and `parse_optional_int`. */
  lemma ParseIntegerOfInt(i: CellInt)
    ensures ParseInteger(IntValue(i)) == Ok(i)
    ensures ParseOptionalInt(IntValue(i)) == Ok(Some(i))
  {
    NumberCellText(IntValue(i));
    TruncOfInt(i);
    assert TextToInt(Cleaned(IntText(i))) == Ok(i);
  }

  /** `parse_optional_int` on a number whose text `float()` reads back as `v`. */
  lemma OptionalIntOfNumber(c: Cell, v: real)
    requires c.IntValue? || c.FloatValue?
    requires ParseFloatText(Cleaned(CellText(c))) == Some(Finite(v))
    requires Cleaned(CellText(c)) != "" && Cleaned(CellText(c)) != "-"
    ensures ParseOptionalInt(c) == Ok(Some(Trunc(v)))
  {
  }

  /** Float cells are truncated toward zero by `parse_optional_int` too. */
  lemma OptionalIntOfFloat(d: CellFloat)
    ensures ParseOptionalInt(FloatValue(d)) == Ok(Some(Trunc(DecimalValue(d))))
  {
    NumberCellText(FloatValue(d));
    OptionalIntOfNumber(FloatValue(d), DecimalValue(d));
  }

  lemma CleanedShort()
    ensures Cleaned("") == "" && Cleaned("-") == "-"
  {
    assert RemoveChar("", ',') == "";
    assert RemoveChar("-", ',') == "-";
    assert Strip("-") == "-";
  }

  /** `parse_integer` on text that `int(float())` converts once cleaned. */
  lemma IntegerOfText(s: string, n: Result<int, Raised>)
    requires n == TextToInt(Cleaned(s)) && n != Err(ValueError)
    ensures ParseInteger(StrValue(s)) == n
  {
  }

  /** `parse_integer` on text that `float()` rejects once cleaned. */
  lemma IntegerOfBadText(s: string)
    requires TextToInt(Cleaned(s)) == Err(ValueError)
    ensures ParseInteger(StrValue(s)) == Ok(0)
  {
  }

  /** `parse_optional_int` on text that is neither "" nor "-", before or after cleaning. */
  lemma OptionalIntOfText(s: string, n: Result<int, Raised>)
    requires n == TextToInt(Cleaned(s))
    requires s != "" && s != "-" && Cleaned(s) != "" && Cleaned(s) != "-"
    ensures ParseOptionalInt(StrValue(s)) == match n
      case Ok(v) => Ok(Some(v))
      case Err(ValueError) => Ok(None)
      case Err(OverflowError) => Err(OverflowError)
  {
  }

  /** "" and "-", before or after cleaning, are no number to either function. */
  lemma ShortText(s: string)
    requires s == "" || s == "-" || Cleaned(s) == "" || Cleaned(s) == "-"
    ensures TextToInt(Cleaned(s)) == Err(ValueError)
    ensures ParseOptionalInt(StrValue(s)) == Ok(None)
  {
    if s == "" || s == "-" {
      ShortTextCleaned(s);
    }
    ShortTextNoInt(s);
  }

  lemma ShortTextCleaned(s: string)
    requires s == "" || s == "-"
    ensures Cleaned(s) == "" || Cleaned(s) == "-"
  {
    CleanedShort();
  }

  lemma ShortTextNoInt(s: string)
    requires Cleaned(s) == "" || Cleaned(s) == "-"
    ensures TextToInt(Cleaned(s)) == Err(ValueError)
  {
    NoFloatText();
  }

  /** Text agreement, for "" and "-" before or after cleaning. */
  lemma ShortTextAgrees(s: string)
    requires s == "" || s == "-" || Cleaned(s) == "" || Cleaned(s) == "-"
    ensures ParseInteger(StrValue(s)) == match ParseOptionalInt(StrValue(s))
      case Ok(o) => Ok(o.GetOr(0))
      case Err(e) => Err(e)
  {
    ShortText(s);
    IntegerOfBadText(s);
  }

  /** Text agreement, for text `float()` rejects. */
  lemma BadTextAgrees(s: string)
    requires !(s == "" || s == "-" || Cleaned(s) == "" || Cleaned(s) == "-")
    requires TextToInt(Cleaned(s)) == Err(ValueError)
    ensures ParseInteger(StrValue(s)) == match ParseOptionalInt(StrValue(s))
      case Ok(o) => Ok(o.GetOr(0))
      case Err(e) => Err(e)
  {
    OptionalIntOfText(s, TextToInt(Cleaned(s)));
    IntegerOfBadText(s);
  }

  /** Text agreement, for text that converts or overflows. */
  lemma GoodTextAgrees(s: string)
    requires !(s == "" || s == "-" || Cleaned(s) == "" || Cleaned(s) == "-")
    requires TextToInt(Cleaned(s)) != Err(ValueError)
    ensures ParseInteger(StrValue(s)) == match ParseOptionalInt(StrValue(s))
      case Ok(o) => Ok(o.GetOr(0))
      case Err(e) => Err(e)
  {
    OptionalIntOfText(s, TextToInt(Cleaned(s)));
    IntegerOfText(s, TextToInt(Cleaned(s)));
  }

  /** `parse_integer` is `parse_optional_int` with `None` read as 0: the two agree on
      every cell, including the OverflowError both let escape. */
  lemma ParseIntegerIsOptionalOrZero(c: Cell)
    ensures ParseInteger(c) == match ParseOptionalInt(c)
      case Ok(o) => Ok(o.GetOr(0))
      case Err(e) => Err(e)
  {
    match c
    case Missing =>
    case IntValue(i) => ParseIntegerOfInt(i);
    case FloatValue(d) => OptionalIntOfFloat(d);
    case StrValue(s) =>
      if s == "" || s == "-" || Cleaned(s) == "" || Cleaned(s) == "-" {
        ShortTextAgrees(s);
      } else if TextToInt(Cleaned(s)) == Err(ValueError) {
        BadTextAgrees(s);
      } else {
        GoodTextAgrees(s);
      }
  }

  // ----- parse_ratio -----

  /** A float with at most five decimal places (NaN and infinities count as rounded). */
  predicate FivePlaces(f: Float) {
    f.Finite? ==> AtMostFivePlaces(f.value)
  }

  /** `round(f, 5)` on a float: NaN and the infinities are left as they are. */
  function RoundFloat(f: Float): (r: Float)
    ensures FivePlaces(r)
    ensures r.Finite? <==> f.Finite?
    ensures r.Finite? ==> -0.000005 <= r.value - f.value <= 0.000005
    ensures !f.Finite? ==> r == f
  {
    match f
    case Finite(x) => Finite(Round5(x))
    case _ => f
  }

  /** `parse_ratio`: 0.0 for a missing cell or for text that is no float, otherwise the
      value rounded to five decimal places. */
  function ParseRatio(c: Cell): (r: Float)
    ensures FivePlaces(r)
  {
    match c
    case Missing => Finite(0.0)
    case IntValue(i) => RoundFloat(Finite(i as real))
    case FloatValue(d) => RoundFloat(Finite(DecimalValue(d)))
    case StrValue(s) =>
      match ParseFloatText(Cleaned(s))
      case None => Finite(0.0)
      case Some(f) => RoundFloat(f)
  }

  /** A ratio is already rounded: rounding it again changes nothing. */
  lemma ParseRatioRounded(c: Cell)
    ensures RoundFloat(ParseRatio(c)) == ParseRatio(c)
  {
    RoundedStays(ParseRatio(c));
  }

  /** A float with at most five decimal places is its own rounding. */
  lemma RoundedStays(f: Float)
    requires FivePlaces(f)
    ensures RoundFloat(f) == f
  {
    if f.Finite? {
      Round5Exact(f.value);
    }
  }

  /** On cells without a comma or a separator, `parse_ratio` is `parse_optional_float`
      rounded to five places, with `None` read as 0.0. */
  lemma ParseRatioIsRoundedOptional(c: Cell)
    requires c.StrValue? ==> ',' !in c.s && NoSeparator(c.s)
    ensures ParseRatio(c) == match ParseOptionalFloat(c)
      case None => Finite(0.0)
      case Some(f) => RoundFloat(f)
  {
    if c.StrValue? {
      CleanedParses(c.s);
      NoFloatText();
    }
  }

  // ----- parse_string -----

  /** `parse_string`: "" for a missing cell, otherwise `str(value).strip()`. */
  function ParseString(c: Cell): (r: string)
    ensures Trimmed(r)
    ensures c.Missing? ==> r == ""
  {
    if c.Missing? then "" else Strip(CellText(c))
  }

  lemma ParseStringIsStrip(c: Cell)
    requires !c.Missing?
    ensures ParseString(c) == Strip(CellText(c))
  {
  }

  /** A present cell's string is its `str()` with exactly the whitespace at either end
      taken off: what is removed is whitespace, and what is kept starts and ends with
      something else. */
  lemma ParseStringTrims(c: Cell) returns (i: nat)
    requires !c.Missing?
    ensures var t, r := CellText(c), ParseString(c);
      i + |r| <= |t| && r == t[i..i + |r|] && AllSpace(t[..i]) && AllSpace(t[i + |r|..])
  {
    ParseStringIsStrip(c);
    i := StripShape(CellText(c));
  }

  /** Normalising a normalised string changes nothing. */
  lemma ParseStringIdempotent(c: Cell)
    ensures ParseString(StrValue(ParseString(c))) == ParseString(c)
  {
    StripIdempotent(if c.Missing? then "" else CellText(c));
  }

  /** `parse_string` writes a number as its `str()`. */
  lemma ParseStringOfNumber(c: Cell)
    requires c.IntValue? || c.FloatValue?
    ensures ParseString(c) == CellText(c)
  {
    NumberTextTrimmed(c);
    StripTrimmed(CellText(c));
  }

  lemma OptionalFloatOfNumberText(c: Cell)
    requires c.IntValue? || c.FloatValue?
    ensures ParseOptionalFloat(StrValue(CellText(c))) == ParseOptionalFloat(c)
  {
    var v := if c.IntValue? then c.i as real else DecimalValue(c.d);
    NumberCellText(c);
    OptionalFloatOfText(CellText(c), v);
    assert ParseOptionalFloat(c) == Some(Finite(v));
  }

  /** Non-empty text that `float()` reads as `v`. */
  lemma OptionalFloatOfText(text: string, v: real)
    requires text != "" && ParseFloatText(text) == Some(Finite(v))
    ensures ParseOptionalFloat(StrValue(text)) == Some(Finite(v))
  {
  }

  lemma OptionalIntOfNumberText(c: Cell)
    requires c.IntValue? || c.FloatValue?
    ensures ParseOptionalInt(StrValue(CellText(c))) == ParseOptionalInt(c)
  {
    var text := CellText(c);
    NumberCellText(c);
    OptionalIntOfNumber(c, if c.IntValue? then c.i as real else DecimalValue(c.d));
    OptionalIntOfText(text, TextToInt(text));
  }

  /** A number kept as text by `parse_string` still reads back as the same number. */
  lemma ParseStringKeepsNumbers(c: Cell)
    requires c.IntValue? || c.FloatValue?
    ensures ParseOptionalFloat(StrValue(ParseString(c))) == ParseOptionalFloat(c)
    ensures ParseOptionalInt(StrValue(ParseString(c))) == ParseOptionalInt(c)
  {
    ParseStringOfNumber(c);
    OptionalFloatOfNumberText(c);
    OptionalIntOfNumberText(c);
  }

  // ----- parse_optional_float -----

  /** `parse_optional_float`: `None` for a missing cell or "", `float(value)` otherwise,
      `None` when that raises. Unlike the others it strips no commas. */
  function ParseOptionalFloat(c: Cell): (r: Option<Float>)
    ensures r.None? <==> c.Missing? || (c.StrValue? && (c.s == "" || ParseFloatText(c.s).None?))
    ensures c.StrValue? && r.Some? ==> ParseFloatText(c.s) == r
    ensures c.IntValue? ==> r == Some(Finite(c.i as real))
    ensures c.FloatValue? ==> r == Some(Finite(DecimalValue(c.d)))
  {
    match c
    case Missing => None
    case IntValue(i) => Some(Finite(i as real))
    case FloatValue(d) => Some(Finite(DecimalValue(d)))
    case StrValue(s) => if s == "" then None else ParseFloatText(s)
  }

  /** Commas: `parse_optional_float` rejects text holding one, while `parse_ratio`
      reads the text as if its commas were not there. */
  lemma CommaText(s: string)
    requires ',' in s
    ensures ParseOptionalFloat(StrValue(s)) == None
    ensures ParseRatio(StrValue(s)) == ParseRatio(StrValue(RemoveChar(s, ',')))
  {
    CommaNeverFloat(s);
    RemoveCharDrops(s, ',');
    RemoveCharAbsent(RemoveChar(s, ','), ',');
  }

  /** Separators: `parse_optional_float` rejects text holding one of U+001C to U+001F,
      since `float()` skips none of them. */
  lemma SeparatorText(s: string)
    requires !NoSeparator(s)
    ensures ParseOptionalFloat(StrValue(s)) == None
  {
    SeparatorNeverFloat(s);
  }

  // ----- parse_optional_int -----

  /** `parse_optional_int`: `None` for a missing cell, "" or "-", and for a value whose
      comma-stripped, trimmed text is empty, "-", or no float; otherwise the truncated
      float. `int()` of an infinity escapes as OverflowError. */
  function ParseOptionalInt(c: Cell): (r: Result<Option<int>, Raised>)
    ensures r.Err? ==> r.error == OverflowError
    ensures c.Missing? ==> r == Ok(None)
    ensures !c.Missing? ==>
      (r == Ok(None) <==>
        || c == StrValue("") || c == StrValue("-")
        || Cleaned(CellText(c)) == "" || Cleaned(CellText(c)) == "-"
        || TextToInt(Cleaned(CellText(c))) == Err(ValueError))
    ensures r.Ok? && r.value.Some? ==> TextToInt(Cleaned(CellText(c))) == Ok(r.value.value)
  {
    if c.Missing? || c == StrValue("") || c == StrValue("-") then Ok(None)
    else
      var text := Cleaned(CellText(c));
      if text == "" || text == "-" then Ok(None)
      else
        match TextToInt(text)
        case Ok(n) => Ok(Some(n))
        case Err(ValueError) => Ok(None)
        case Err(OverflowError) => Err(OverflowError)
  }

  // ----- parse_datetime -----

  /** Why `parse_datetime` raised: a missing cell; an empty, "nan" or "-" string; a
      short all-digit string; a `YY-MM-DD HH:MM` string `strptime` rejected (with its
      reason); or a string no format fits. */
  datatype DateError =
    | NaNValue
    | InvalidString
    | NumericTooShort
    | ShortFormatFailed(cause: StrptimeError)
    | UnknownFormat

  /** `parse_datetime`. Text with both `-` and `:` must be `YY-MM-DD HH:MM`; otherwise
      text with `.` has its whitespace runs collapsed and is tried as the 12-hour, then
      the 24-hour dotted format; anything else is an unknown format. */
  function ParseDatetime(c: Cell): (r: Result<DateTime, DateError>)
    ensures r.Ok? ==> Valid(r.value)
    ensures c.Missing? <==> r == Err(NaNValue)
  {
    if c.Missing? then Err(NaNValue)
    else
      var s := Strip(CellText(c));
      if s == "" || LowerAscii(s) == "nan" || s == "-" then Err(InvalidString)
      else if IsDigits(s) && |s| < 8 then Err(NumericTooShort)
      else if '-' in s && ':' in s then
        match Parse(s, ShortPieces)
        case Ok(t) => Ok(t)
        case Err(e) => Err(ShortFormatFailed(e))
      else if '.' in s then
        var u := CollapseSpaces(s);
        match Parse(u, Dotted12Pieces)
        case Ok(t) => Ok(t)
        case Err(_) =>
          match Parse(u, Dotted24Pieces)
          case Ok(t) => Ok(t)
          case Err(_) => Err(UnknownFormat)
      else Err(UnknownFormat)
  }

  // ----- what parse_datetime accepts -----

  /** Text that starts with a digit is none of the blank markers. */
  lemma DigitFirstNotBlank(s: string)
    requires |s| > 0 && IsDigit(s[0])
    ensures s != "" && LowerAscii(s) != "nan" && s != "-"
  {
    assert LowerAscii(s)[0] == s[0];
  }

  /** Text holding a character that is no digit is not all digits. */
  lemma MarkNotDigits(s: string, c: char)
    requires c in s && !IsDigit(c)
    ensures !IsDigits(s)
  {
  }

  /** A date written in one of the formats is not stripped, is no blank marker and is
      not all digits. */
  lemma WrittenDateShape(ps: seq<Piece>, t: DateTime, mark: char)
    requires Valid(t) && |ps| > 0 && (ps[0] == Field(Year) || ps[0] == Field(ShortYear))
    requires Solid(ps[|ps| - 1]) && Literal(mark) in ps && !IsDigit(mark)
    ensures Strip(Format(ps, t)) == Format(ps, t) && Candidate(Format(ps, t))
  {
    var s := Format(ps, t);
    FormatTrimmed(ps, t);
    StripTrimmed(s);
    FormatStart(ps, t);
    DigitFirstNotBlank(s);
    LiteralWritten(ps, t, mark);
    MarkNotDigits(s, mark);
  }

  /** Text `parse_datetime` passes on to its formats. */
  predicate Candidate(s: string) {
    s != "" && LowerAscii(s) != "nan" && s != "-" && !IsDigits(s)
  }

  /** Text with `-` and `:` is read in the short format. */
  lemma ShortBranch(s: string, t: DateTime)
    requires Strip(s) == s && Candidate(s)
    requires '-' in s && ':' in s && Parse(s, ShortPieces) == Ok(t)
    ensures ParseDatetime(StrValue(s)) == Ok(t)
  {
  }

  /** Text with `.` but no `-` that the 12-hour dotted format reads once its whitespace
      runs are collapsed. */
  lemma Dotted12Branch(s: string, t: DateTime)
    requires Strip(s) == s && Candidate(s)
    requires '-' !in s && '.' in s && Parse(CollapseSpaces(s), Dotted12Pieces) == Ok(t)
    ensures ParseDatetime(StrValue(s)) == Ok(t)
  {
  }

  /** Text with `.` but no `-` that only the 24-hour dotted format reads. */
  lemma Dotted24Branch(s: string, t: DateTime)
    requires Strip(s) == s && Candidate(s)
    requires '-' !in s && '.' in s
    requires Parse(CollapseSpaces(s), Dotted12Pieces).Err? && Parse(CollapseSpaces(s), Dotted24Pieces) == Ok(t)
    ensures ParseDatetime(StrValue(s)) == Ok(t)
  {
  }

  /** What the short format writes, `parse_datetime` sends to the short format. */
  lemma ShortWritten(t: DateTime)
    requires Valid(t) && 1969 <= t.year <= 2068 && t.second == 0
    ensures var s := Format(ShortPieces, t);
      Strip(s) == s && Candidate(s) && '-' in s && ':' in s && Parse(s, ShortPieces) == Ok(t)
  {
    WrittenDateShape(ShortPieces, t, '-');
    LiteralWritten(ShortPieces, t, ':');
    ShortRoundTrip(t);
  }

  /** What the dotted formats write, `parse_datetime` sends to the dotted formats
      unchanged by the whitespace collapse. */
  lemma DottedWritten(ps: seq<Piece>, t: DateTime)
    requires Valid(t) && (ps == Dotted12Pieces || ps == Dotted24Pieces)
    ensures var s := Format(ps, t);
      Strip(s) == s && Candidate(s) && '-' !in s && '.' in s && CollapseSpaces(s) == s
  {
    WrittenDateShape(ps, t, '.');
    LiteralAbsent(ps, t, '-');
    if ps == Dotted12Pieces {
      Dotted12Words(t);
    } else {
      Dotted24Words(t);
    }
  }

  /** Every minute from 1969 to 2068 written as `YY-MM-DD HH:MM` is read back. */
  lemma ShortDateRoundTrip(t: DateTime)
    requires Valid(t) && 1969 <= t.year <= 2068 && t.second == 0
    ensures ParseDatetime(StrValue(Format(ShortPieces, t))) == Ok(t)
  {
    var s := Format(ShortPieces, t);
    ShortWritten(t);
    ShortBranch(s, t);
  }

  /** Every second of years 1 to 9999 written as `YYYY.MM.DD HH:MM:SS AM` is read back. */
  lemma Dotted12DateRoundTrip(t: DateTime)
    requires Valid(t)
    ensures ParseDatetime(StrValue(Format(Dotted12Pieces, t))) == Ok(t)
  {
    var s := Format(Dotted12Pieces, t);
    DottedWritten(Dotted12Pieces, t);
    Dotted12RoundTrip(t);
    Dotted12Branch(s, t);
  }

  /** Every second of years 1 to 9999 written as `YYYY.MM.DD HH:MM:SS` is read back,
      after the 12-hour format has failed on it. */
  lemma Dotted24DateRoundTrip(t: DateTime)
    requires Valid(t)
    ensures ParseDatetime(StrValue(Format(Dotted24Pieces, t))) == Ok(t)
  {
    var s := Format(Dotted24Pieces, t);
    DottedWritten(Dotted24Pieces, t);
    Dotted24Not12(t);
    Dotted24RoundTrip(t);
    Dotted24Branch(s, t);
  }

  /** All-digit text is never a date: short runs are rejected as too short, longer ones
      as an unknown format. */
  lemma DigitsNeverDate(c: Cell)
    requires !c.Missing? && IsDigits(Strip(CellText(c)))
    ensures ParseDatetime(c) == if |Strip(CellText(c))| < 8 then Err(NumericTooShort) else Err(UnknownFormat)
  {
    var s := Strip(CellText(c));
    DigitFirstNotBlank(s);
    DigitsHaveNoMarks(s, '-');
    DigitsHaveNoMarks(s, '.');
  }

  /** An integer cell is never a date. */
  lemma IntegerNeverDate(i: CellInt)
    ensures ParseDatetime(IntValue(i)).Err?
  {
    var s := IntText(i);
    NumberTextTrimmed(IntValue(i));
    StripTrimmed(s);
    var a := if i < 0 then -i else i;
    DigitsHaveNoMarks(NatText(a), ':');
    DigitsHaveNoMarks(NatText(a), '.');
  }

  /** A missing cell, and text that trims to "", to "nan" in any case or to "-", are
      rejected before any format is tried. */
  lemma BlankNeverDate(c: Cell)
    ensures c.Missing? ==> ParseDatetime(c) == Err(NaNValue)
    ensures !c.Missing? && (Strip(CellText(c)) == "" || LowerAscii(Strip(CellText(c))) == "nan" || Strip(CellText(c)) == "-") ==>
      ParseDatetime(c) == Err(InvalidString)
  {
  }

  /** `parse_datetime` accepts text only through its formats. With both `-` and `:`
      only the short format is tried; otherwise text with a `.` is tried, whitespace
      runs collapsed, in the 12-hour and then the 24-hour dotted format, and fails as an
      unknown format when neither reads it; text with neither shape is an unknown
      format. */
  lemma DatetimeFormatsOnly(c: Cell)
    requires !c.Missing?
    ensures var s := Strip(CellText(c)); var u := CollapseSpaces(s);
      ParseDatetime(c).Ok? ==>
        && Candidate(s)
        && if '-' in s && ':' in s then Parse(s, ShortPieces) == Ok(ParseDatetime(c).value)
           else
             && '.' in s
             && (|| Parse(u, Dotted12Pieces) == Ok(ParseDatetime(c).value)
                 || (Parse(u, Dotted12Pieces).Err? && Parse(u, Dotted24Pieces) == Ok(ParseDatetime(c).value)))
    ensures var s := Strip(CellText(c)); var u := CollapseSpaces(s);
      Candidate(s) && !('-' in s && ':' in s) && '.' in s ==>
        && (ParseDatetime(c).Ok? <==> Parse(u, Dotted12Pieces).Ok? || Parse(u, Dotted24Pieces).Ok?)
        && (ParseDatetime(c).Err? ==> ParseDatetime(c) == Err(UnknownFormat))
    ensures var s := Strip(CellText(c));
      Candidate(s) && !('-' in s && ':' in s) && '.' !in s ==> ParseDatetime(c) == Err(UnknownFormat)
  {
    var s := Strip(CellText(c));
    if IsDigits(s) {
      DigitsHaveNoMarks(s, '-');
      DigitsHaveNoMarks(s, '.');
    }
  }

  /** Text holding both `-` and `:` is read with `YY-MM-DD HH:MM` alone: a failure there
      is reported as such and the dotted formats are never tried. */
  lemma DashColonShortOnly(c: Cell)
    requires !c.Missing? && Candidate(Strip(CellText(c)))
    requires '-' in Strip(CellText(c)) && ':' in Strip(CellText(c))
    ensures ParseDatetime(c).Ok? <==> Parse(Strip(CellText(c)), ShortPieces).Ok?
    ensures ParseDatetime(c).Ok? ==> ParseDatetime(c).value == Parse(Strip(CellText(c)), ShortPieces).value
    ensures ParseDatetime(c).Err? ==> ParseDatetime(c).error.ShortFormatFailed?
  {
  }
}
