/** CPython's `datetime.strptime` for the directives the bid normaliser uses.
    A format is compiled to a sequence of pieces, each piece becomes the regular
    expression CPython's `_strptime` builds for it, the pieces are matched the way a
    backtracking regex engine does (alternatives in the order written, `\s+` greedy),
    the whole input must be consumed, and the captured fields must make a real
    calendar date and clock time. */
module Strptime {
  import opened Wrappers
  import opened Text

  // ----- dates -----

  datatype DateTime = DateTime(year: int, month: int, day: int, hour: int, minute: int, second: int)

  predicate IsLeapYear(y: int) {
    y % 4 == 0 && (y % 100 != 0 || y % 400 == 0)
  }

  function DaysInMonth(y: int, m: int): (n: int)
    requires 1 <= m <= 12
    ensures 28 <= n <= 31
    ensures n == 29 <==> m == 2 && IsLeapYear(y)
  {
    if m == 2 then (if IsLeapYear(y) then 29 else 28)
    else if m == 4 || m == 6 || m == 9 || m == 11 then 30
    else 31
  }

  /** What the `datetime` constructor accepts: years 1 to 9999, days that exist in
      their month, and a 24-hour clock without leap seconds. */
  predicate Valid(t: DateTime) {
    && 1 <= t.year <= 9999
    && 1 <= t.month <= 12
    && 1 <= t.day <= DaysInMonth(t.year, t.month)
    && 0 <= t.hour < 24
    && 0 <= t.minute < 60
    && 0 <= t.second < 60
  }

  // ----- formats -----

  /** The directives `%y %Y %m %d %H %I %M %S %p`. */
  datatype Directive = ShortYear | Year | Month | Day | Hour24 | Hour12 | Minute | Second | AmPm

  /** One element of a compiled format: a character matched as itself, a run of
      whitespace (each whitespace run of a format becomes `\s+`), or a directive's field. */
  datatype Piece = Literal(c: char) | Whitespace | Field(d: Directive)

  /** `"%y-%m-%d %H:%M"`: the space becomes `\s+`. */
  const ShortPieces: seq<Piece> :=
    [Field(ShortYear), Literal('-'), Field(Month), Literal('-'), Field(Day), Whitespace,
     Field(Hour24), Literal(':'), Field(Minute)]

  /** `"%Y.%m.%d %I:%M:%S %p"`. */
  const Dotted12Pieces: seq<Piece> :=
    [Field(Year), Literal('.'), Field(Month), Literal('.'), Field(Day), Whitespace,
     Field(Hour12), Literal(':'), Field(Minute), Literal(':'), Field(Second), Whitespace,
     Field(AmPm)]

  /** `"%Y.%m.%d %H:%M:%S"`. */
  const Dotted24Pieces: seq<Piece> :=
    [Field(Year), Literal('.'), Field(Month), Literal('.'), Field(Day), Whitespace,
     Field(Hour24), Literal(':'), Field(Minute), Literal(':'), Field(Second)]

  // ----- the regular expressions -----

  /** One position of a pattern alternative: a character range, or an ASCII letter
      matched regardless of case (patterns are compiled with IGNORECASE). */
  datatype CharClass = Range(lo: char, hi: char) | Caseless(letter: char)

  predicate ClassMatches(k: CharClass, c: char) {
    match k
    case Range(lo, hi) => lo <= c <= hi
    case Caseless(l) => LowerChar(c) == l
  }

  function Exactly(c: char): CharClass {
    Range(c, c)
  }

  const AnyDigit: CharClass := Range('0', '9')

  /** Each directive's pattern as its alternatives, in the order the pattern lists them:
      `%d` is `3[0-1]|[1-2]\d|0[1-9]|[1-9]| [1-9]`, `%p` is `am|pm`, and so on. */
  function Alternatives(d: Directive): seq<seq<CharClass>> {
    match d
    case ShortYear => [[AnyDigit, AnyDigit]]
    case Year => [[AnyDigit, AnyDigit, AnyDigit, AnyDigit]]
    case Month => [[Exactly('1'), Range('0', '2')], [Exactly('0'), Range('1', '9')], [Range('1', '9')]]
    case Day =>
      [[Exactly('3'), Range('0', '1')], [Range('1', '2'), AnyDigit], [Exactly('0'), Range('1', '9')],
       [Range('1', '9')], [Exactly(' '), Range('1', '9')]]
    case Hour24 => [[Exactly('2'), Range('0', '3')], [Range('0', '1'), AnyDigit], [AnyDigit]]
    case Hour12 => [[Exactly('1'), Range('0', '2')], [Exactly('0'), Range('1', '9')], [Range('1', '9')]]
    case Minute => [[Range('0', '5'), AnyDigit], [AnyDigit]]
    case Second => [[Exactly('6'), Range('0', '1')], [Range('0', '5'), AnyDigit], [AnyDigit]]
    case AmPm => [[Caseless('a'), Caseless('m')], [Caseless('p'), Caseless('m')]]
  }

  /** The alternative matches at the start of `s`. */
  predicate Prefixed(alt: seq<CharClass>, s: string) {
    |alt| <= |s| && forall i :: 0 <= i < |alt| ==> ClassMatches(alt[i], s[i])
  }

  /** Lengths of the alternatives that match at the start of `s`, in trial order. */
  function AltLengths(alts: seq<seq<CharClass>>, s: string): (ks: seq<nat>)
    ensures forall i :: 0 <= i < |ks| ==> ks[i] <= |s|
  {
    if |alts| == 0 then []
    else if Prefixed(alts[0], s) then [|alts[0]|] + AltLengths(alts[1..], s)
    else AltLengths(alts[1..], s)
  }

  /** `n, n-1, ..., 1`: the lengths greedy `\s+` tries over a run of `n` spaces. */
  function Shorter(n: nat): (ks: seq<nat>)
    ensures |ks| == n
    ensures forall i :: 0 <= i < |ks| ==> ks[i] == n - i
  {
    if n == 0 then [] else [n] + Shorter(n - 1)
  }

  /** The prefix lengths a piece can consume at the start of `s`, in the order the
      regex engine tries them. */
  function Candidates(p: Piece, s: string): (ks: seq<nat>)
    ensures forall i :: 0 <= i < |ks| ==> ks[i] <= |s|
  {
    match p
    case Literal(c) => if |s| > 0 && LowerChar(s[0]) == LowerChar(c) then [1] else []
    case Whitespace => Shorter(|s| - |TrimStart(s)|)
    case Field(d) => AltLengths(Alternatives(d), s)
  }

  /** The concatenation of the captured segments. */
  function Concat(segs: seq<string>): string {
    if |segs| == 0 then "" else segs[0] + Concat(segs[1..])
  }

  /** Putting the first segment back in front of the others' concatenation. */
  lemma ConcatSplit(s: string, k: nat, segs: seq<string>, rest: string)
    requires k <= |s| && Concat(segs) + rest == s[k..]
    ensures Concat([s[..k]] + segs) + rest == s
  {
    assert ([s[..k]] + segs)[1..] == segs;
    assert s == s[..k] + s[k..];
  }

  /** `re.match`: the first way, in backtracking order, to split a prefix of `s` into
      one segment per piece; the unmatched rest comes back with the segments. */
  function Match(ps: seq<Piece>, s: string): (r: Option<(seq<string>, string)>)
    ensures r.Some? ==> |r.value.0| == |ps| && Concat(r.value.0) + r.value.1 == s
    decreases |ps|, 1
  {
    if |ps| == 0 then Some(([], s)) else TryEach(ps, s, Candidates(ps[0], s))
  }

  /** Tries the first piece's candidate lengths `ks` in order, backtracking into the
      next one when the remaining pieces cannot match after it. */
  function TryEach(ps: seq<Piece>, s: string, ks: seq<nat>): (r: Option<(seq<string>, string)>)
    requires |ps| > 0
    requires forall i :: 0 <= i < |ks| ==> ks[i] <= |s|
    ensures r.Some? ==> |r.value.0| == |ps| && Concat(r.value.0) + r.value.1 == s
    decreases |ps|, 0, |ks|
  {
    if |ks| == 0 then None
    else
      match Match(ps[1..], s[ks[0]..])
      case Some((segs, rest)) =>
        ConcatSplit(s, ks[0], segs, rest);
        Some(([s[..ks[0]]] + segs, rest))
      case None => TryEach(ps, s, ks[1..])
  }

  // ----- reading the fields -----

  datatype StrptimeError = NoMatch | UnconvertedData | OutOfRange

  /** The segment captured by directive `d`, if the format has it. */
  function Lookup(ps: seq<Piece>, segs: seq<string>, d: Directive): Option<string>
    requires |ps| == |segs|
  {
    if |ps| == 0 then None
    else if ps[0] == Field(d) then Some(segs[0])
    else Lookup(ps[1..], segs[1..], d)
  }

  function FieldValue(seg: Option<string>, default: int): int {
    match seg
    case None => default
    case Some(t) => DigitsValue(t)
  }

  /** `%y`: 00 to 68 are the years 2000 to 2068, 69 to 99 the years 1969 to 1999. */
  function CenturyYear(v: nat): (y: int)
    requires v < 100
    ensures 1969 <= y <= 2068 && y % 100 == v
  {
    if v <= 68 then v + 2000 else v + 1900
  }

  /** `%I` with `%p`: 12 AM is hour 0, 12 PM is hour 12, other PM hours gain 12. */
  function ClockHour(h: int, pm: bool): int {
    if !pm then (if h == 12 then 0 else h)
    else if h != 12 then h + 12
    else h
  }

  /** The year from `%Y`, else from `%y`, else 1900. */
  function YearOf(long: Option<string>, short: Option<string>): int {
    match long
    case Some(t) => DigitsValue(t)
    case None =>
      match short
      case Some(t) => CenturyYear(DigitsValue(t) % 100)
      case None => 1900
  }

  /** The hour from `%H`, else from `%I` with `%p` (read as AM without one), else 0. */
  function HourOf(h24: Option<string>, h12: Option<string>, ampm: Option<string>): int {
    match h24
    case Some(t) => DigitsValue(t)
    case None =>
      match h12
      case Some(t) =>
        var pm := match ampm case Some(p) => LowerAscii(p) == "pm" case None => false;
        ClockHour(DigitsValue(t), pm)
      case None => 0
  }

  /** The date and time the captured segments spell, with `strptime`'s defaults
      (1900-01-01 00:00:00) for directives the format does not have. */
  function Assemble(ps: seq<Piece>, segs: seq<string>): DateTime
    requires |ps| == |segs|
  {
    DateTime(
      YearOf(Lookup(ps, segs, Year), Lookup(ps, segs, ShortYear)),
      FieldValue(Lookup(ps, segs, Month), 1),
      FieldValue(Lookup(ps, segs, Day), 1),
      HourOf(Lookup(ps, segs, Hour24), Lookup(ps, segs, Hour12), Lookup(ps, segs, AmPm)),
      FieldValue(Lookup(ps, segs, Minute), 0),
      FieldValue(Lookup(ps, segs, Second), 0))
  }

  /** `datetime.strptime(s, format)` for a compiled format: "does not match",
      "unconverted data remains", or a field out of range are the three ValueErrors. */
  function Parse(s: string, ps: seq<Piece>): (r: Result<DateTime, StrptimeError>)
    ensures r.Ok? ==> Valid(r.value)
  {
    match Match(ps, s)
    case None => Err(NoMatch)
    case Some((segs, rest)) =>
      if |rest| > 0 then Err(UnconvertedData)
      else
        var t := Assemble(ps, segs);
        if Valid(t) then Ok(t) else Err(OutOfRange)
  }
}
