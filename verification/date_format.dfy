/** Writing a date in a compiled format (zero-padded fields, `AM`/`PM`, one space per
    whitespace run), and the round trips showing that `Strptime.Parse` reads back
    exactly the date that was written. */
module DateFormat {
  import opened Wrappers
  import opened Text
  import opened Numbers
  import opened NumberText
  import opened Strptime

  function Pad2(v: nat): (s: string)
    requires v < 100
    ensures |s| == 2 && IsDigit(s[0]) && IsDigit(s[1])
  {
    [DigitChar(v / 10), DigitChar(v % 10)]
  }

  function Pad4(v: nat): (s: string)
    requires v < 10000
    ensures |s| == 4 && forall i :: 0 <= i < 4 ==> IsDigit(s[i])
  {
    Pad2(v / 100) + Pad2(v % 100)
  }

  lemma DigitRoundTrip(d: nat)
    requires d < 10
    ensures DigitValue(DigitChar(d)) == d
  {
  }

  lemma Pad2Value(v: nat)
    requires v < 100
    ensures DigitsValue(Pad2(v)) == v
  {
    var s := Pad2(v);
    DigitRoundTrip(v / 10);
    DigitRoundTrip(v % 10);
    assert s[..1][..0] == [];
    assert DigitsValue(s[..1]) == v / 10;
    assert DigitsValue(s) == DigitsValue(s[..1]) * 10 + DigitValue(s[1]);
  }

  lemma Pad4Value(v: nat)
    requires v < 10000
    ensures DigitsValue(Pad4(v)) == v
  {
    Pad2Value(v / 100);
    Pad2Value(v % 100);
    DigitsValueAppend(Pad2(v / 100), Pad2(v % 100));
    assert Pow10(2) == 100;
  }

  /** The 12-hour clock reading of a 24-hour hour, and whether it is PM. */
  function TwelveHour(h: int): (r: (int, bool))
    requires 0 <= h < 24
    ensures 1 <= r.0 <= 12 && r.1 == (h >= 12)
  {
    if h == 0 then (12, false)
    else if h < 12 then (h, false)
    else if h == 12 then (12, true)
    else (h - 12, true)
  }

  /** `%I %p` reading undoes the 12-hour writing: every hour of the day survives. */
  lemma ClockHourRoundTrip(h: int)
    requires 0 <= h < 24
    ensures ClockHour(TwelveHour(h).0, TwelveHour(h).1) == h
  {
  }

  /** And the other way: a 12-hour reading is recovered from the hour it denotes. */
  lemma TwelveHourRoundTrip(h: int, pm: bool)
    requires 1 <= h <= 12
    ensures 0 <= ClockHour(h, pm) < 24 && TwelveHour(ClockHour(h, pm)) == (h, pm)
  {
  }

  /** `%y` reading undoes `year % 100` exactly on the window 1969 to 2068. */
  lemma CenturyYearRoundTrip(y: int)
    requires 1969 <= y <= 2068
    ensures CenturyYear(y % 100) == y
  {
  }

  /** The text a directive writes for `t`. */
  function FieldText(d: Directive, t: DateTime): (s: string)
    requires Valid(t)
    ensures |s| > 0 && NoSpace(s)
    ensures d != AmPm ==> forall i :: 0 <= i < |s| ==> IsDigit(s[i])
  {
    match d
    case ShortYear => Pad2(t.year % 100)
    case Year => Pad4(t.year)
    case Month => Pad2(t.month)
    case Day => Pad2(t.day)
    case Hour24 => Pad2(t.hour)
    case Hour12 => Pad2(TwelveHour(t.hour).0)
    case Minute => Pad2(t.minute)
    case Second => Pad2(t.second)
    case AmPm => if TwelveHour(t.hour).1 then "PM" else "AM"
  }

  function PieceText(p: Piece, t: DateTime): (s: string)
    requires Valid(t)
    ensures |s| > 0
  {
    match p
    case Literal(c) => [c]
    case Whitespace => " "
    case Field(d) => FieldText(d, t)
  }

  /** What each piece writes, in order. */
  function Segments(ps: seq<Piece>, t: DateTime): (segs: seq<string>)
    requires Valid(t)
    ensures |segs| == |ps|
  {
    if |ps| == 0 then [] else [PieceText(ps[0], t)] + Segments(ps[1..], t)
  }

  /** `t` written in the format `ps`. */
  function Format(ps: seq<Piece>, t: DateTime): string
    requires Valid(t)
  {
    if |ps| == 0 then "" else PieceText(ps[0], t) + Format(ps[1..], t)
  }

  /** A piece whose text never starts with whitespace. */
  predicate Solid(p: Piece) {
    match p
    case Literal(c) => !IsSpace(c)
    case Whitespace => false
    case Field(_) => true
  }

  /** Every whitespace run of the format is followed by something solid, as in a
      format where whitespace runs have been merged into one `\s+`. */
  predicate SpacedWell(ps: seq<Piece>) {
    forall i, j :: 0 <= i < |ps| && j == i + 1 && j < |ps| && ps[i] == Whitespace ==> Solid(ps[j])
  }

  // ----- matching what was written -----

  /** The first length the regex engine tries for piece `p` on `seg + rest` is `|seg|`. */
  predicate Leads(p: Piece, seg: string, rest: string) {
    var ks := Candidates(p, seg + rest);
    |ks| > 0 && ks[0] == |seg|
  }

  lemma PrefixedPair(a: CharClass, b: CharClass, s: string)
    ensures Prefixed([a, b], s) <==> |s| >= 2 && ClassMatches(a, s[0]) && ClassMatches(b, s[1])
  {
  }

  /** The first matching alternative is the `j`-th: its length comes first. */
  lemma {:induction false} AltFirst(alts: seq<seq<CharClass>>, s: string, j: nat)
    requires j < |alts| && Prefixed(alts[j], s)
    requires forall i :: 0 <= i < j ==> !Prefixed(alts[i], s)
    ensures |AltLengths(alts, s)| > 0 && AltLengths(alts, s)[0] == |alts[j]|
  {
    if j > 0 {
      AltFirst(alts[1..], s, j - 1);
    }
  }

  /** A two-digit field whose text matches the `j`-th alternative first. */
  lemma TwoDigitLeads(d: Directive, v: nat, rest: string, j: nat)
    requires v < 100 && j < |Alternatives(d)| && |Alternatives(d)[j]| == 2
    requires Prefixed(Alternatives(d)[j], Pad2(v) + rest)
    requires forall i :: 0 <= i < j ==> !Prefixed(Alternatives(d)[i], Pad2(v) + rest)
    ensures Leads(Field(d), Pad2(v), rest)
  {
    AltFirst(Alternatives(d), Pad2(v) + rest, j);
  }

  lemma DayLeads(v: nat, rest: string)
    requires 1 <= v <= 31
    ensures Leads(Field(Day), Pad2(v), rest)
  {
    var s := Pad2(v) + rest;
    var alts := Alternatives(Day);
    PrefixedPair(Exactly('3'), Range('0', '1'), s);
    PrefixedPair(Range('1', '2'), AnyDigit, s);
    PrefixedPair(Exactly('0'), Range('1', '9'), s);
    if v / 10 == 3 {
      TwoDigitLeads(Day, v, rest, 0);
    } else if v / 10 >= 1 {
      TwoDigitLeads(Day, v, rest, 1);
    } else {
      TwoDigitLeads(Day, v, rest, 2);
    }
  }

  /** `%m` and `%I` share a pattern. */
  lemma MonthLeads(d: Directive, v: nat, rest: string)
    requires d == Month || d == Hour12
    requires 1 <= v <= 12
    ensures Leads(Field(d), Pad2(v), rest)
  {
    var s := Pad2(v) + rest;
    PrefixedPair(Exactly('1'), Range('0', '2'), s);
    PrefixedPair(Exactly('0'), Range('1', '9'), s);
    if v >= 10 {
      TwoDigitLeads(d, v, rest, 0);
    } else {
      TwoDigitLeads(d, v, rest, 1);
    }
  }

  lemma HourLeads(v: nat, rest: string)
    requires v < 24
    ensures Leads(Field(Hour24), Pad2(v), rest)
  {
    var s := Pad2(v) + rest;
    PrefixedPair(Exactly('2'), Range('0', '3'), s);
    PrefixedPair(Range('0', '1'), AnyDigit, s);
    if v >= 20 {
      TwoDigitLeads(Hour24, v, rest, 0);
    } else {
      TwoDigitLeads(Hour24, v, rest, 1);
    }
  }

  lemma MinuteLeads(v: nat, rest: string)
    requires v < 60
    ensures Leads(Field(Minute), Pad2(v), rest)
  {
    PrefixedPair(Range('0', '5'), AnyDigit, Pad2(v) + rest);
    TwoDigitLeads(Minute, v, rest, 0);
  }

  lemma SecondLeads(v: nat, rest: string)
    requires v < 60
    ensures Leads(Field(Second), Pad2(v), rest)
  {
    var s := Pad2(v) + rest;
    PrefixedPair(Exactly('6'), Range('0', '1'), s);
    PrefixedPair(Range('0', '5'), AnyDigit, s);
    TwoDigitLeads(Second, v, rest, 1);
  }

  lemma YearLeads(d: Directive, t: DateTime, rest: string)
    requires Valid(t) && (d == ShortYear || d == Year)
    ensures Leads(Field(d), FieldText(d, t), rest)
  {
    var s := FieldText(d, t) + rest;
    if d == ShortYear {
      PrefixedPair(AnyDigit, AnyDigit, s);
    } else {
      assert forall i :: 0 <= i < 4 ==> IsDigit(s[i]);
    }
    AltFirst(Alternatives(d), s, 0);
  }

  lemma AmPmLeads(t: DateTime, rest: string)
    requires Valid(t)
    ensures Leads(Field(AmPm), FieldText(AmPm, t), rest)
  {
    var s := FieldText(AmPm, t) + rest;
    PrefixedPair(Caseless('a'), Caseless('m'), s);
    PrefixedPair(Caseless('p'), Caseless('m'), s);
    if TwelveHour(t.hour).1 {
      AltFirst(Alternatives(AmPm), s, 1);
    } else {
      AltFirst(Alternatives(AmPm), s, 0);
    }
  }

  /** Whatever follows, the engine's first try for a field is the text written for it. */
  lemma FieldLeads(d: Directive, t: DateTime, rest: string)
    requires Valid(t)
    ensures Leads(Field(d), FieldText(d, t), rest)
  {
    match d
    case ShortYear => YearLeads(d, t, rest);
    case Year => YearLeads(d, t, rest);
    case Month => MonthLeads(d, t.month, rest);
    case Day => DayLeads(t.day, rest);
    case Hour24 => HourLeads(t.hour, rest);
    case Hour12 => MonthLeads(d, TwelveHour(t.hour).0, rest);
    case Minute => MinuteLeads(t.minute, rest);
    case Second => SecondLeads(t.second, rest);
    case AmPm => AmPmLeads(t, rest);
  }

  /** `\s+` before something solid takes exactly the one space written. */
  lemma SpaceLeads(rest: string)
    requires |rest| == 0 || !IsSpace(rest[0])
    ensures Leads(Whitespace, " ", rest)
  {
    var s := " " + rest;
    assert s[1..] == rest;
    assert TrimStart(s) == TrimStart(s[1..]);
  }

  lemma FormatStart(ps: seq<Piece>, t: DateTime)
    requires Valid(t) && |ps| > 0
    ensures |Format(ps, t)| > 0 && Format(ps, t)[0] == PieceText(ps[0], t)[0]
  {
  }

  /** `re.match` splits a written date back into the segments that were written. */
  lemma {:induction false} MatchFormat(ps: seq<Piece>, t: DateTime)
    requires Valid(t) && SpacedWell(ps)
    ensures Match(ps, Format(ps, t)) == Some((Segments(ps, t), ""))
  {
    if |ps| > 0 {
      var seg, rest := PieceText(ps[0], t), Format(ps[1..], t);
      var s := Format(ps, t);
      assert SpacedWell(ps[1..]) by {
        forall i, j | 0 <= i && j == i + 1 && j < |ps| - 1 && ps[1..][i] == Whitespace
          ensures Solid(ps[1..][j])
        {
          assert ps[1..][i] == ps[i + 1] && ps[1..][j] == ps[j + 1];
        }
      }
      MatchFormat(ps[1..], t);
      match ps[0]
      case Literal(c) =>
      case Whitespace =>
        if |ps| > 1 {
          FormatStart(ps[1..], t);
        }
        SpaceLeads(rest);
      case Field(d) =>
        FieldLeads(d, t, rest);
      assert s[..|seg|] == seg && s[|seg|..] == rest;
    }
  }

  /** The segment `Lookup` finds for a directive is the text written for it. */
  lemma {:induction false} LookupFormat(ps: seq<Piece>, t: DateTime, d: Directive)
    requires Valid(t)
    ensures Lookup(ps, Segments(ps, t), d) == if Field(d) in ps then Some(FieldText(d, t)) else None
  {
    if |ps| > 0 {
      LookupFormat(ps[1..], t, d);
      assert ps == [ps[0]] + ps[1..];
    }
  }

  /** The format has every field needed to recover `t`: a year (`%y` only for years it
      can express), month, day, minute, an hour (24-hour, or 12-hour with `%p`), and
      seconds unless they are zero. */
  predicate Complete(ps: seq<Piece>, t: DateTime) {
    && (Field(Year) in ps || (Field(ShortYear) in ps && 1969 <= t.year <= 2068))
    && Field(Month) in ps && Field(Day) in ps && Field(Minute) in ps
    && (Field(Hour24) in ps || (Field(Hour12) in ps && Field(AmPm) in ps))
    && (Field(Second) in ps || t.second == 0)
  }

  /** The text written for `d`, if the format has it. */
  function Written(ps: seq<Piece>, t: DateTime, d: Directive): Option<string>
    requires Valid(t)
  {
    if Field(d) in ps then Some(FieldText(d, t)) else None
  }

  lemma YearWritten(ps: seq<Piece>, t: DateTime)
    requires Valid(t) && Complete(ps, t)
    ensures YearOf(Written(ps, t, Year), Written(ps, t, ShortYear)) == t.year
  {
    if Field(Year) in ps {
      Pad4Value(t.year);
    } else {
      Pad2Value(t.year % 100);
      CenturyYearRoundTrip(t.year);
    }
  }

  lemma HourWritten(ps: seq<Piece>, t: DateTime)
    requires Valid(t) && Complete(ps, t)
    ensures HourOf(Written(ps, t, Hour24), Written(ps, t, Hour12), Written(ps, t, AmPm)) == t.hour
  {
    if Field(Hour24) in ps {
      Pad2Value(t.hour);
    } else {
      Pad2Value(TwelveHour(t.hour).0);
      assert LowerAscii("PM") == "pm";
      assert LowerAscii("AM") != "pm" by {
        assert LowerAscii("AM")[0] == 'a';
      }
      ClockHourRoundTrip(t.hour);
    }
  }

  lemma ValueWritten(ps: seq<Piece>, t: DateTime, d: Directive, v: nat, default: int)
    requires Valid(t) && d in {Month, Day, Minute, Second}
    requires v == match d case Month => t.month case Day => t.day case Minute => t.minute case _ => t.second
    requires Field(d) in ps || v == default
    ensures FieldValue(Written(ps, t, d), default) == v
  {
    if Field(d) in ps {
      Pad2Value(v);
    }
  }

  /** `strptime(Format(ps, t), ps)` is `t`. */
  lemma ParseFormat(ps: seq<Piece>, t: DateTime)
    requires Valid(t) && SpacedWell(ps) && Complete(ps, t)
    ensures Parse(Format(ps, t), ps) == Ok(t)
  {
    MatchFormat(ps, t);
    var segs := Segments(ps, t);
    forall d: Directive
      ensures Lookup(ps, segs, d) == Written(ps, t, d)
    {
      LookupFormat(ps, t, d);
    }
    YearWritten(ps, t);
    HourWritten(ps, t);
    ValueWritten(ps, t, Month, t.month, 1);
    ValueWritten(ps, t, Day, t.day, 1);
    ValueWritten(ps, t, Minute, t.minute, 0);
    ValueWritten(ps, t, Second, t.second, 0);
  }

  // ----- a format with %p needs a letter -----

  /** The letters `%p` can start with. */
  predicate MeridiemLetter(c: char) {
    LowerChar(c) == 'a' || LowerChar(c) == 'p'
  }

  predicate NoMeridiemLetter(s: string) {
    forall i :: 0 <= i < |s| ==> !MeridiemLetter(s[i])
  }

  /** Text without any `a`/`p` letter cannot match a format holding `%p`, however the
      engine backtracks. */
  lemma {:induction false} NoMeridiemNoMatch(ps: seq<Piece>, s: string)
    requires Field(AmPm) in ps && NoMeridiemLetter(s)
    ensures Match(ps, s) == None
    decreases |ps|, 1
  {
    if ps[0] == Field(AmPm) {
      PrefixedPair(Caseless('a'), Caseless('m'), s);
      PrefixedPair(Caseless('p'), Caseless('m'), s);
      var alts := Alternatives(AmPm);
      assert !Prefixed(alts[0], s) && !Prefixed(alts[1], s);
      assert AltLengths(alts[1..], s) == AltLengths(alts[2..], s);
      assert Candidates(ps[0], s) == [];
    } else {
      assert Field(AmPm) in ps[1..] by {
        assert ps == [ps[0]] + ps[1..];
      }
      NoMeridiemTry(ps, s, Candidates(ps[0], s));
    }
  }

  lemma {:induction false} NoMeridiemTry(ps: seq<Piece>, s: string, ks: seq<nat>)
    requires |ps| > 0 && Field(AmPm) in ps[1..] && NoMeridiemLetter(s)
    requires forall i :: 0 <= i < |ks| ==> ks[i] <= |s|
    ensures TryEach(ps, s, ks) == None
    decreases |ps|, 0, |ks|
  {
    if |ks| > 0 {
      NoMeridiemNoMatch(ps[1..], s[ks[0]..]);
      NoMeridiemTry(ps, s, ks[1..]);
    }
  }

  /** The literals of a format are neither `a` nor `p`. */
  predicate PlainLiterals(ps: seq<Piece>) {
    forall i :: 0 <= i < |ps| && ps[i].Literal? ==> !MeridiemLetter(ps[i].c)
  }

  /** A date written without `%p` has no `a`/`p` letter. */
  lemma {:induction false} FormatWithoutMeridiem(ps: seq<Piece>, t: DateTime)
    requires Valid(t) && Field(AmPm) !in ps && PlainLiterals(ps)
    ensures NoMeridiemLetter(Format(ps, t))
  {
    if |ps| > 0 {
      assert Field(AmPm) !in ps[1..] && PlainLiterals(ps[1..]) by {
        assert forall i :: 0 <= i < |ps| - 1 ==> ps[1..][i] == ps[i + 1];
      }
      FormatWithoutMeridiem(ps[1..], t);
      var seg, rest := PieceText(ps[0], t), Format(ps[1..], t);
      assert forall i :: 0 <= i < |seg| ==> !MeridiemLetter(seg[i]);
      assert forall i :: |seg| <= i < |seg + rest| ==> (seg + rest)[i] == rest[i - |seg|];
    }
  }

  // ----- whitespace in written dates -----

  lemma {:induction false} FormatAppend(ps: seq<Piece>, qs: seq<Piece>, t: DateTime)
    requires Valid(t)
    ensures Format(ps + qs, t) == Format(ps, t) + Format(qs, t)
  {
    if |ps| == 0 {
      assert ps + qs == qs;
    } else {
      assert (ps + qs)[1..] == ps[1..] + qs;
      FormatAppend(ps[1..], qs, t);
    }
  }

  /** A format without whitespace writes a single word. */
  lemma {:induction false} FormatIsWord(ps: seq<Piece>, t: DateTime)
    requires Valid(t) && |ps| > 0
    requires forall i :: 0 <= i < |ps| ==> Solid(ps[i])
    ensures |Format(ps, t)| > 0 && NoSpace(Format(ps, t))
  {
    if |ps| > 1 {
      FormatIsWord(ps[1..], t);
    }
    var seg, rest := PieceText(ps[0], t), Format(ps[1..], t);
    assert NoSpace(seg);
    assert forall i :: |seg| <= i < |seg + rest| ==> (seg + rest)[i] == rest[i - |seg|];
  }

  const DatePieces: seq<Piece> := [Field(Year), Literal('.'), Field(Month), Literal('.'), Field(Day)]
  const Clock12Pieces: seq<Piece> := [Field(Hour12), Literal(':'), Field(Minute), Literal(':'), Field(Second)]
  const Clock24Pieces: seq<Piece> := [Field(Hour24), Literal(':'), Field(Minute), Literal(':'), Field(Second)]

  /** The 12-hour dotted format writes the date, the clock and `AM`/`PM`, each followed
      by one space but the last. */
  lemma Dotted12Split(t: DateTime)
    requires Valid(t)
    ensures Format(Dotted12Pieces, t)
         == Format(DatePieces, t) + (" " + (Format(Clock12Pieces, t) + (" " + Format([Field(AmPm)], t))))
  {
    assert Dotted12Pieces == DatePieces + ([Whitespace] + (Clock12Pieces + ([Whitespace] + [Field(AmPm)])));
    FormatAppend(DatePieces, [Whitespace] + (Clock12Pieces + ([Whitespace] + [Field(AmPm)])), t);
    FormatAppend([Whitespace], Clock12Pieces + ([Whitespace] + [Field(AmPm)]), t);
    FormatAppend(Clock12Pieces, [Whitespace] + [Field(AmPm)], t);
    FormatAppend([Whitespace], [Field(AmPm)], t);
  }

  /** A date written in the 12-hour dotted format is three words joined by single
      spaces, so collapsing whitespace leaves it unchanged. */
  lemma Dotted12Words(t: DateTime)
    requires Valid(t)
    ensures CollapseSpaces(Format(Dotted12Pieces, t)) == Format(Dotted12Pieces, t)
  {
    var a, b, c := Format(DatePieces, t), Format(Clock12Pieces, t), Format([Field(AmPm)], t);
    Dotted12Split(t);
    FormatIsWord(DatePieces, t);
    FormatIsWord(Clock12Pieces, t);
    FormatIsWord([Field(AmPm)], t);
    var ws := [a, b, c];
    assert JoinSpaces(ws[1..]) == b + " " + c by {
      assert ws[1..] == [b, c] && ws[1..][1..] == [c];
    }
    assert Format(Dotted12Pieces, t) == JoinSpaces(ws);
    CollapseJoined(ws);
  }

  /** The same for the 24-hour dotted format: two words. */
  lemma Dotted24Words(t: DateTime)
    requires Valid(t)
    ensures CollapseSpaces(Format(Dotted24Pieces, t)) == Format(Dotted24Pieces, t)
  {
    var a, b := Format(DatePieces, t), Format(Clock24Pieces, t);
    assert Dotted24Pieces == DatePieces + ([Whitespace] + Clock24Pieces);
    FormatAppend(DatePieces, [Whitespace] + Clock24Pieces, t);
    FormatAppend([Whitespace], Clock24Pieces, t);
    FormatIsWord(DatePieces, t);
    FormatIsWord(Clock24Pieces, t);
    var ws := [a, b];
    assert JoinSpaces(ws[1..]) == b by {
      assert ws[1..] == [b];
    }
    assert Format(Dotted24Pieces, t) == JoinSpaces(ws);
    CollapseJoined(ws);
  }

  // ----- the characters of a written date -----

  /** A solid piece writes no whitespace at all. */
  lemma SolidText(p: Piece, t: DateTime)
    requires Valid(t) && Solid(p)
    ensures NoSpace(PieceText(p, t))
  {
  }

  lemma {:induction false} FormatEnd(ps: seq<Piece>, t: DateTime)
    requires Valid(t) && |ps| > 0
    ensures |Format(ps, t)| > 0
    ensures var s, seg := Format(ps, t), PieceText(ps[|ps| - 1], t); s[|s| - 1] == seg[|seg| - 1]
  {
    if |ps| > 1 {
      FormatEnd(ps[1..], t);
      assert ps[1..][|ps[1..]| - 1] == ps[|ps| - 1];
    }
  }

  /** A format that starts and ends with something solid writes text that `strip()`
      leaves alone. */
  lemma FormatTrimmed(ps: seq<Piece>, t: DateTime)
    requires Valid(t) && |ps| > 0 && Solid(ps[0]) && Solid(ps[|ps| - 1])
    ensures Trimmed(Format(ps, t))
  {
    FormatStart(ps, t);
    FormatEnd(ps, t);
    SolidText(ps[0], t);
    SolidText(ps[|ps| - 1], t);
  }

  /** Every literal of the format shows up in the written date. */
  lemma {:induction false} LiteralWritten(ps: seq<Piece>, t: DateTime, c: char)
    requires Valid(t) && Literal(c) in ps
    ensures c in Format(ps, t)
  {
    var seg, rest := PieceText(ps[0], t), Format(ps[1..], t);
    if ps[0] == Literal(c) {
      assert (seg + rest)[0] == c;
    } else {
      assert Literal(c) in ps[1..] by {
        assert ps == [ps[0]] + ps[1..];
      }
      LiteralWritten(ps[1..], t, c);
      var k :| 0 <= k < |rest| && rest[k] == c;
      assert (seg + rest)[|seg| + k] == c;
    }
  }

  /** The characters fields write: digits and the letters of `AM` and `PM`. */
  predicate FieldChar(c: char) {
    IsDigit(c) || c == 'A' || c == 'M' || c == 'P'
  }

  /** A character that is no field character, no space and no literal of the format
      does not occur in the written date. */
  lemma {:induction false} LiteralAbsent(ps: seq<Piece>, t: DateTime, c: char)
    requires Valid(t) && Literal(c) !in ps && !FieldChar(c) && c != ' '
    ensures c !in Format(ps, t)
  {
    if |ps| > 0 {
      assert Literal(c) !in ps[1..] by {
        assert ps == [ps[0]] + ps[1..];
      }
      LiteralAbsent(ps[1..], t, c);
      var seg := PieceText(ps[0], t);
      assert c !in seg by {
        if ps[0].Field? && ps[0].d != AmPm {
          DigitsHaveNoMarks(seg, c);
        }
      }
    }
  }

  // ----- the three formats -----

  /** `"%y-%m-%d %H:%M"` reads back every minute from 1969 to 2068. */
  lemma ShortRoundTrip(t: DateTime)
    requires Valid(t) && 1969 <= t.year <= 2068 && t.second == 0
    ensures Parse(Format(ShortPieces, t), ShortPieces) == Ok(t)
  {
    ParseFormat(ShortPieces, t);
  }

  lemma Dotted12Spaced()
    ensures SpacedWell(Dotted12Pieces)
  {
  }

  lemma Dotted12RoundTrip(t: DateTime)
    requires Valid(t)
    ensures Parse(Format(Dotted12Pieces, t), Dotted12Pieces) == Ok(t)
  {
    var ps := Dotted12Pieces;
    Dotted12Spaced();
    assert Field(Year) in ps && Field(Month) in ps && Field(Day) in ps;
    assert Field(Hour12) in ps && Field(AmPm) in ps && Field(Minute) in ps && Field(Second) in ps;
    ParseFormat(ps, t);
  }

  lemma Dotted24RoundTrip(t: DateTime)
    requires Valid(t)
    ensures Parse(Format(Dotted24Pieces, t), Dotted24Pieces) == Ok(t)
  {
    ParseFormat(Dotted24Pieces, t);
  }

  /** A 24-hour dotted date has no `AM`/`PM`, so the 12-hour format finds no match. */
  lemma Dotted24Not12(t: DateTime)
    requires Valid(t)
    ensures Parse(Format(Dotted24Pieces, t), Dotted12Pieces) == Err(NoMatch)
  {
    FormatWithoutMeridiem(Dotted24Pieces, t);
    NoMeridiemNoMatch(Dotted12Pieces, Format(Dotted24Pieces, t));
  }
}
