/** The date layouts `parse_datetime` documents, each shown on one concrete cell: the
    short form, a zero-padded dotted form, and the docstring's own dotted example with a
    one-digit month and a double space. */
module DateExamples {
  import opened Wrappers
  import opened Text
  import opened Strptime
  import opened DateFormat
  import opened BidUtils

  /** `YY-MM-DD HH:MM`, read as a date of this century. */
  lemma ShortExample()
    ensures ParseDatetime(StrValue("22-03-11 10:00")) == Ok(DateTime(2022, 3, 11, 10, 0, 0))
  {
    var t := DateTime(2022, 3, 11, 10, 0, 0);
    assert Format(ShortPieces, t) == "22-03-11 10:00";
    ShortDateRoundTrip(t);
  }

  /** `YYYY.MM.DD HH:MM:SS AM`, a morning time on the 12-hour clock. */
  lemma DottedExample()
    ensures ParseDatetime(StrValue("2024.01.18 10:00:00 AM")) == Ok(DateTime(2024, 1, 18, 10, 0, 0))
  {
    var t := DateTime(2024, 1, 18, 10, 0, 0);
    DottedExampleParts(t);
    DottedExampleJoined();
    Dotted12DateRoundTrip(t);
  }

  /** The text of that date, piece by piece. */
  lemma DottedExampleParts(t: DateTime)
    requires t == DateTime(2024, 1, 18, 10, 0, 0)
    ensures Format(Dotted12Pieces, t) == "2024.01.18" + (" " + ("10:00:00" + (" " + "AM")))
  {
    Dotted12Split(t);
    DatePart(t);
    ClockPart(t);
    MeridiemPart(t);
  }

  lemma DatePart(t: DateTime)
    requires t == DateTime(2024, 1, 18, 10, 0, 0)
    ensures Format(DatePieces, t) == "2024.01.18"
  {
  }

  lemma ClockPart(t: DateTime)
    requires t == DateTime(2024, 1, 18, 10, 0, 0)
    ensures Format(Clock12Pieces, t) == "10:00:00"
  {
  }

  lemma MeridiemPart(t: DateTime)
    requires t == DateTime(2024, 1, 18, 10, 0, 0)
    ensures Format([Field(AmPm)], t) == "AM"
  {
  }

  lemma DottedExampleJoined()
    ensures "2024.01.18" + (" " + ("10:00:00" + (" " + "AM"))) == "2024.01.18 10:00:00 AM"
  {
  }

  // ----- the docstring example, "2024.1.18  10:00:00 AM" -----

  /** One step of `re.match`: when the first piece's first candidate length `k` lets the
      other pieces match, that is the match. */
  lemma MatchStep(ps: seq<Piece>, s: string, k: nat, segs: seq<string>, rest: string)
    requires |ps| > 0 && |Candidates(ps[0], s)| > 0 && Candidates(ps[0], s)[0] == k
    requires Match(ps[1..], s[k..]) == Some((segs, rest))
    ensures Match(ps, s) == Some(([s[..k]] + segs, rest))
  {
  }

  /** A word at the front of the text is the first word `split()` finds. */
  lemma WordsCons(w: string, c: char, x: string)
    requires |w| > 0 && NoSpace(w) && IsSpace(c)
    ensures Words(w + ([c] + x)) == [w] + Words([c] + x)
  {
    var s := w + ([c] + x);
    assert s[0] == w[0];
    assert TrimStart(s) == s;
    WordLengthOfWord(w, [c] + x);
    assert s[..|w|] == w && s[|w|..] == [c] + x;
  }

  /** Two spaces after a leading word become one. */
  lemma CollapseAfterWord(w: string, x: string)
    requires |w| > 0 && NoSpace(w) && |Words(x)| > 0
    ensures CollapseSpaces(w + ([' '] + ([' '] + x))) == w + " " + CollapseSpaces(x)
  {
    WordsCons(w, ' ', [' '] + x);
    WordsAfterSpace(' ', [' '] + x);
    WordsAfterSpace(' ', x);
    var ws := Words(x);
    assert ([w] + ws)[1..] == ws;
  }

  lemma ClockWords()
    ensures CollapseSpaces("10:00:00 AM") == "10:00:00 AM" && |Words("10:00:00 AM")| > 0
  {
    var ws := ["10:00:00", "AM"];
    assert JoinSpaces(ws) == "10:00:00 AM" by {
      assert ws[1..] == ["AM"];
    }
    WordsOfJoin(ws);
  }

  lemma DocExampleSplit()
    ensures "2024.1.18  10:00:00 AM" == "2024.1.18" + ([' '] + ([' '] + "10:00:00 AM"))
    ensures "2024.1.18 10:00:00 AM" == "2024.1.18" + " " + "10:00:00 AM"
    ensures |"2024.1.18"| > 0 && NoSpace("2024.1.18")
  {
  }

  /** The docstring's dotted example with its double space collapses to single spaces. */
  lemma DocExampleCollapsed()
    ensures CollapseSpaces("2024.1.18  10:00:00 AM") == "2024.1.18 10:00:00 AM"
  {
    DocExampleSplit();
    ClockWords();
    CollapsedText("2024.1.18  10:00:00 AM", "2024.1.18", "10:00:00 AM", "2024.1.18 10:00:00 AM");
  }

  lemma CollapsedText(s: string, w: string, x: string, r: string)
    requires s == w + ([' '] + ([' '] + x)) && r == w + " " + x
    requires |w| > 0 && NoSpace(w) && |Words(x)| > 0 && CollapseSpaces(x) == x
    ensures CollapseSpaces(s) == r
  {
    CollapseAfterWord(w, x);
  }

  /** `re.match` from piece `i` on: the engine's first try for piece `i` is `seg`, and
      the later pieces match what follows it. */
  lemma MatchFrom(ps: seq<Piece>, i: nat, s: string, seg: string, rest: string, segs: seq<string>)
    requires i < |ps| && s == seg + rest && Leads(ps[i], seg, rest)
    requires Match(ps[i + 1..], rest) == Some((segs, ""))
    ensures Match(ps[i..], s) == Some(([seg] + segs, ""))
  {
    assert ps[i..][0] == ps[i] && ps[i..][1..] == ps[i + 1..];
    assert s[|seg|..] == rest && s[..|seg|] == seg;
    MatchStep(ps[i..], s, |seg|, segs, "");
  }

  /** A literal character leads when the text starts with it. */
  lemma LiteralLeads(c: char, rest: string)
    ensures Leads(Literal(c), [c], rest)
  {
  }

  /** An unpadded month digit followed by a dot: only the one-digit alternative fits. */
  lemma ShortMonthLeads(c: char, rest: string)
    requires '1' <= c <= '9' && |rest| > 0 && rest[0] == '.'
    ensures Leads(Field(Month), [c], rest)
  {
    var s := [c] + rest;
    PrefixedPair(Exactly('1'), Range('0', '2'), s);
    PrefixedPair(Exactly('0'), Range('1', '9'), s);
    AltFirst(Alternatives(Month), s, 2);
  }

  // After the whitespace collapse the text is matched piece by piece from the back:
  // `DocMatch<i>` is the match of the format's pieces from `i` on, `DocLead<i>` the
  // engine's first try for piece `i`.

  lemma DocMatch12(t: DateTime)
    requires t == DateTime(2024, 1, 18, 10, 0, 0)
    ensures Match(Dotted12Pieces[12..], "AM") == Some((["AM"], ""))
  {
    assert Dotted12Pieces[13..] == [];
    DocLead12(t);
    MatchFrom(Dotted12Pieces, 12, "AM", "AM", "", []);
  }

  lemma DocLead12(t: DateTime)
    requires t == DateTime(2024, 1, 18, 10, 0, 0)
    ensures "AM" == "AM" + "" && Leads(Dotted12Pieces[12], "AM", "")
    ensures ["AM"] + [] == ["AM"]
  {
    assert Dotted12Pieces[12] == Field(AmPm);
    assert FieldText(AmPm, t) == "AM";
    FieldLeads(AmPm, t, "");
  }

  lemma DocMatch11(t: DateTime)
    requires t == DateTime(2024, 1, 18, 10, 0, 0)
    ensures Match(Dotted12Pieces[11..], " AM") == Some(([" ", "AM"], ""))
  {
    DocMatch12(t);
    DocLead11(t);
    MatchFrom(Dotted12Pieces, 11, " AM", " ", "AM", ["AM"]);
  }

  lemma DocLead11(t: DateTime)
    requires t == DateTime(2024, 1, 18, 10, 0, 0)
    ensures " AM" == " " + "AM" && Leads(Dotted12Pieces[11], " ", "AM")
    ensures [" "] + ["AM"] == [" ", "AM"]
  {
    assert Dotted12Pieces[11] == Whitespace;
    SpaceLeads("AM");
  }

  lemma DocMatch10(t: DateTime)
    requires t == DateTime(2024, 1, 18, 10, 0, 0)
    ensures Match(Dotted12Pieces[10..], "00 AM") == Some((["00", " ", "AM"], ""))
  {
    DocMatch11(t);
    DocLead10(t);
    MatchFrom(Dotted12Pieces, 10, "00 AM", "00", " AM", [" ", "AM"]);
  }

  lemma DocLead10(t: DateTime)
    requires t == DateTime(2024, 1, 18, 10, 0, 0)
    ensures "00 AM" == "00" + " AM" && Leads(Dotted12Pieces[10], "00", " AM")
    ensures ["00"] + [" ", "AM"] == ["00", " ", "AM"]
  {
    assert Dotted12Pieces[10] == Field(Second);
    assert FieldText(Second, t) == "00";
    FieldLeads(Second, t, " AM");
  }

  lemma DocMatch9(t: DateTime)
    requires t == DateTime(2024, 1, 18, 10, 0, 0)
    ensures Match(Dotted12Pieces[9..], ":00 AM") == Some(([":", "00", " ", "AM"], ""))
  {
    DocMatch10(t);
    DocLead9(t);
    MatchFrom(Dotted12Pieces, 9, ":00 AM", ":", "00 AM", ["00", " ", "AM"]);
  }

  lemma DocLead9(t: DateTime)
    requires t == DateTime(2024, 1, 18, 10, 0, 0)
    ensures ":00 AM" == ":" + "00 AM" && Leads(Dotted12Pieces[9], ":", "00 AM")
    ensures [":"] + ["00", " ", "AM"] == [":", "00", " ", "AM"]
  {
    assert Dotted12Pieces[9] == Literal(':');
    LiteralLeads(':', "00 AM");
  }

  lemma DocMatch8(t: DateTime)
    requires t == DateTime(2024, 1, 18, 10, 0, 0)
    ensures Match(Dotted12Pieces[8..], "00:00 AM") == Some((["00", ":", "00", " ", "AM"], ""))
  {
    DocMatch9(t);
    DocLead8(t);
    MatchFrom(Dotted12Pieces, 8, "00:00 AM", "00", ":00 AM", [":", "00", " ", "AM"]);
  }

  lemma DocLead8(t: DateTime)
    requires t == DateTime(2024, 1, 18, 10, 0, 0)
    ensures "00:00 AM" == "00" + ":00 AM" && Leads(Dotted12Pieces[8], "00", ":00 AM")
    ensures ["00"] + [":", "00", " ", "AM"] == ["00", ":", "00", " ", "AM"]
  {
    assert Dotted12Pieces[8] == Field(Minute);
    assert FieldText(Minute, t) == "00";
    FieldLeads(Minute, t, ":00 AM");
  }

  lemma DocMatch7(t: DateTime)
    requires t == DateTime(2024, 1, 18, 10, 0, 0)
    ensures Match(Dotted12Pieces[7..], ":00:00 AM") == Some(([":", "00", ":", "00", " ", "AM"], ""))
  {
    DocMatch8(t);
    DocLead7(t);
    MatchFrom(Dotted12Pieces, 7, ":00:00 AM", ":", "00:00 AM", ["00", ":", "00", " ", "AM"]);
  }

  lemma DocLead7(t: DateTime)
    requires t == DateTime(2024, 1, 18, 10, 0, 0)
    ensures ":00:00 AM" == ":" + "00:00 AM" && Leads(Dotted12Pieces[7], ":", "00:00 AM")
    ensures [":"] + ["00", ":", "00", " ", "AM"] == [":", "00", ":", "00", " ", "AM"]
  {
    assert Dotted12Pieces[7] == Literal(':');
    LiteralLeads(':', "00:00 AM");
  }

  lemma DocMatch6(t: DateTime)
    requires t == DateTime(2024, 1, 18, 10, 0, 0)
    ensures Match(Dotted12Pieces[6..], "10:00:00 AM") == Some((["10", ":", "00", ":", "00", " ", "AM"], ""))
  {
    DocMatch7(t);
    DocLead6(t);
    MatchFrom(Dotted12Pieces, 6, "10:00:00 AM", "10", ":00:00 AM", [":", "00", ":", "00", " ", "AM"]);
  }

  lemma DocLead6(t: DateTime)
    requires t == DateTime(2024, 1, 18, 10, 0, 0)
    ensures "10:00:00 AM" == "10" + ":00:00 AM" && Leads(Dotted12Pieces[6], "10", ":00:00 AM")
    ensures ["10"] + [":", "00", ":", "00", " ", "AM"] == ["10", ":", "00", ":", "00", " ", "AM"]
  {
    assert Dotted12Pieces[6] == Field(Hour12);
    assert FieldText(Hour12, t) == "10";
    FieldLeads(Hour12, t, ":00:00 AM");
  }

  lemma DocMatch5(t: DateTime)
    requires t == DateTime(2024, 1, 18, 10, 0, 0)
    ensures Match(Dotted12Pieces[5..], " 10:00:00 AM") == Some(([" ", "10", ":", "00", ":", "00", " ", "AM"], ""))
  {
    DocMatch6(t);
    DocLead5(t);
    MatchFrom(Dotted12Pieces, 5, " 10:00:00 AM", " ", "10:00:00 AM", ["10", ":", "00", ":", "00", " ", "AM"]);
  }

  lemma DocLead5(t: DateTime)
    requires t == DateTime(2024, 1, 18, 10, 0, 0)
    ensures " 10:00:00 AM" == " " + "10:00:00 AM" && Leads(Dotted12Pieces[5], " ", "10:00:00 AM")
    ensures [" "] + ["10", ":", "00", ":", "00", " ", "AM"] == [" ", "10", ":", "00", ":", "00", " ", "AM"]
  {
    assert Dotted12Pieces[5] == Whitespace;
    SpaceLeads("10:00:00 AM");
  }

  lemma DocMatch4(t: DateTime)
    requires t == DateTime(2024, 1, 18, 10, 0, 0)
    ensures Match(Dotted12Pieces[4..], "18 10:00:00 AM") == Some((["18", " ", "10", ":", "00", ":", "00", " ", "AM"], ""))
  {
    DocMatch5(t);
    DocLead4(t);
    MatchFrom(Dotted12Pieces, 4, "18 10:00:00 AM", "18", " 10:00:00 AM", [" ", "10", ":", "00", ":", "00", " ", "AM"]);
  }

  lemma DocLead4(t: DateTime)
    requires t == DateTime(2024, 1, 18, 10, 0, 0)
    ensures "18 10:00:00 AM" == "18" + " 10:00:00 AM" && Leads(Dotted12Pieces[4], "18", " 10:00:00 AM")
    ensures ["18"] + [" ", "10", ":", "00", ":", "00", " ", "AM"] == ["18", " ", "10", ":", "00", ":", "00", " ", "AM"]
  {
    assert Dotted12Pieces[4] == Field(Day);
    assert FieldText(Day, t) == "18";
    FieldLeads(Day, t, " 10:00:00 AM");
  }

  lemma DocMatch3(t: DateTime)
    requires t == DateTime(2024, 1, 18, 10, 0, 0)
    ensures Match(Dotted12Pieces[3..], ".18 10:00:00 AM") == Some(([".", "18", " ", "10", ":", "00", ":", "00", " ", "AM"], ""))
  {
    DocMatch4(t);
    DocLead3(t);
    MatchFrom(Dotted12Pieces, 3, ".18 10:00:00 AM", ".", "18 10:00:00 AM", ["18", " ", "10", ":", "00", ":", "00", " ", "AM"]);
  }

  lemma DocLead3(t: DateTime)
    requires t == DateTime(2024, 1, 18, 10, 0, 0)
    ensures ".18 10:00:00 AM" == "." + "18 10:00:00 AM" && Leads(Dotted12Pieces[3], ".", "18 10:00:00 AM")
    ensures ["."] + ["18", " ", "10", ":", "00", ":", "00", " ", "AM"] == [".", "18", " ", "10", ":", "00", ":", "00", " ", "AM"]
  {
    assert Dotted12Pieces[3] == Literal('.');
    LiteralLeads('.', "18 10:00:00 AM");
  }

  lemma DocMatch2(t: DateTime)
    requires t == DateTime(2024, 1, 18, 10, 0, 0)
    ensures Match(Dotted12Pieces[2..], "1.18 10:00:00 AM") == Some((["1", ".", "18", " ", "10", ":", "00", ":", "00", " ", "AM"], ""))
  {
    DocMatch3(t);
    DocLead2(t);
    MatchFrom(Dotted12Pieces, 2, "1.18 10:00:00 AM", "1", ".18 10:00:00 AM", [".", "18", " ", "10", ":", "00", ":", "00", " ", "AM"]);
  }

  lemma DocLead2(t: DateTime)
    requires t == DateTime(2024, 1, 18, 10, 0, 0)
    ensures "1.18 10:00:00 AM" == "1" + ".18 10:00:00 AM" && Leads(Dotted12Pieces[2], "1", ".18 10:00:00 AM")
    ensures ["1"] + [".", "18", " ", "10", ":", "00", ":", "00", " ", "AM"] == ["1", ".", "18", " ", "10", ":", "00", ":", "00", " ", "AM"]
  {
    assert Dotted12Pieces[2] == Field(Month);
    ShortMonthLeads('1', ".18 10:00:00 AM");
  }

  lemma DocMatch1(t: DateTime)
    requires t == DateTime(2024, 1, 18, 10, 0, 0)
    ensures Match(Dotted12Pieces[1..], ".1.18 10:00:00 AM") == Some(([".", "1", ".", "18", " ", "10", ":", "00", ":", "00", " ", "AM"], ""))
  {
    DocMatch2(t);
    DocLead1(t);
    MatchFrom(Dotted12Pieces, 1, ".1.18 10:00:00 AM", ".", "1.18 10:00:00 AM", ["1", ".", "18", " ", "10", ":", "00", ":", "00", " ", "AM"]);
  }

  lemma DocLead1(t: DateTime)
    requires t == DateTime(2024, 1, 18, 10, 0, 0)
    ensures ".1.18 10:00:00 AM" == "." + "1.18 10:00:00 AM" && Leads(Dotted12Pieces[1], ".", "1.18 10:00:00 AM")
    ensures ["."] + ["1", ".", "18", " ", "10", ":", "00", ":", "00", " ", "AM"] == [".", "1", ".", "18", " ", "10", ":", "00", ":", "00", " ", "AM"]
  {
    assert Dotted12Pieces[1] == Literal('.');
    LiteralLeads('.', "1.18 10:00:00 AM");
  }

  lemma DocMatch0(t: DateTime)
    requires t == DateTime(2024, 1, 18, 10, 0, 0)
    ensures Match(Dotted12Pieces[0..], "2024.1.18 10:00:00 AM") == Some((["2024", ".", "1", ".", "18", " ", "10", ":", "00", ":", "00", " ", "AM"], ""))
  {
    DocMatch1(t);
    DocLead0(t);
    MatchFrom(Dotted12Pieces, 0, "2024.1.18 10:00:00 AM", "2024", ".1.18 10:00:00 AM", [".", "1", ".", "18", " ", "10", ":", "00", ":", "00", " ", "AM"]);
  }

  lemma DocLead0(t: DateTime)
    requires t == DateTime(2024, 1, 18, 10, 0, 0)
    ensures "2024.1.18 10:00:00 AM" == "2024" + ".1.18 10:00:00 AM" && Leads(Dotted12Pieces[0], "2024", ".1.18 10:00:00 AM")
    ensures ["2024"] + [".", "1", ".", "18", " ", "10", ":", "00", ":", "00", " ", "AM"] == ["2024", ".", "1", ".", "18", " ", "10", ":", "00", ":", "00", " ", "AM"]
  {
    assert Dotted12Pieces[0] == Field(Year);
    assert FieldText(Year, t) == "2024";
    FieldLeads(Year, t, ".1.18 10:00:00 AM");
  }

  const DocSegments: seq<string> := ["2024", ".", "1", ".", "18", " ", "10", ":", "00", ":", "00", " ", "AM"]

  /** `Lookup` finds the segment of a directive's first piece. */
  lemma {:induction false} LookupAt(ps: seq<Piece>, segs: seq<string>, d: Directive, i: nat)
    requires |ps| == |segs| && i < |ps| && ps[i] == Field(d)
    requires forall j :: 0 <= j < i ==> ps[j] != Field(d)
    ensures Lookup(ps, segs, d) == Some(segs[i])
  {
    if i > 0 {
      LookupAt(ps[1..], segs[1..], d, i - 1);
    }
  }

  /** `Lookup` finds nothing for a directive the format lacks. */
  lemma {:induction false} LookupAbsent(ps: seq<Piece>, segs: seq<string>, d: Directive)
    requires |ps| == |segs| && Field(d) !in ps
    ensures Lookup(ps, segs, d) == None
  {
    if |ps| > 0 {
      assert ps[0] != Field(d);
      LookupAbsent(ps[1..], segs[1..], d);
    }
  }

  lemma DocLookupYear()
    ensures Lookup(Dotted12Pieces, DocSegments, Year) == Some("2024")
  {
    LookupAt(Dotted12Pieces, DocSegments, Year, 0);
  }

  lemma DocLookupShortYear()
    ensures Lookup(Dotted12Pieces, DocSegments, ShortYear) == None
  {
    LookupAbsent(Dotted12Pieces, DocSegments, ShortYear);
  }

  lemma DocLookupMonth()
    ensures Lookup(Dotted12Pieces, DocSegments, Month) == Some("1")
  {
    LookupAt(Dotted12Pieces, DocSegments, Month, 2);
  }

  lemma DocLookupDay()
    ensures Lookup(Dotted12Pieces, DocSegments, Day) == Some("18")
  {
    LookupAt(Dotted12Pieces, DocSegments, Day, 4);
  }

  lemma DocLookupHour24()
    ensures Lookup(Dotted12Pieces, DocSegments, Hour24) == None
  {
    LookupAbsent(Dotted12Pieces, DocSegments, Hour24);
  }

  lemma DocLookupHour12()
    ensures Lookup(Dotted12Pieces, DocSegments, Hour12) == Some("10")
  {
    LookupAt(Dotted12Pieces, DocSegments, Hour12, 6);
  }

  lemma DocLookupMinute()
    ensures Lookup(Dotted12Pieces, DocSegments, Minute) == Some("00")
  {
    LookupAt(Dotted12Pieces, DocSegments, Minute, 8);
  }

  lemma DocLookupSecond()
    ensures Lookup(Dotted12Pieces, DocSegments, Second) == Some("00")
  {
    LookupAt(Dotted12Pieces, DocSegments, Second, 10);
  }

  lemma DocLookupAmPm()
    ensures Lookup(Dotted12Pieces, DocSegments, AmPm) == Some("AM")
  {
    LookupAt(Dotted12Pieces, DocSegments, AmPm, 12);
  }

  lemma DocValues()
    ensures DigitsValue("2024") == 2024 && DigitsValue("1") == 1 && DigitsValue("18") == 18
    ensures DigitsValue("10") == 10 && DigitsValue("00") == 0
    ensures LowerAscii("AM") != "pm"
  {
    assert "2024"[..3] == "202" && "202"[..2] == "20" && "20"[..1] == "2" && "2"[..0] == "";
    assert "1"[..0] == "";
    assert "18"[..1] == "1" && "10"[..1] == "1";
    assert "00"[..1] == "0" && "0"[..0] == "";
    assert LowerAscii("AM")[0] == 'a';
  }

  /** The fields read from those segments. */
  lemma DocAssemble()
    ensures Assemble(Dotted12Pieces, DocSegments) == DateTime(2024, 1, 18, 10, 0, 0)
  {
    DocLookupYear();
    DocLookupShortYear();
    DocLookupMonth();
    DocLookupDay();
    DocLookupHour24();
    DocLookupHour12();
    DocLookupMinute();
    DocLookupSecond();
    DocLookupAmPm();
    DocValues();
  }

  /** The collapsed text is read by the 12-hour dotted format. */
  lemma DocParse(t: DateTime)
    requires t == DateTime(2024, 1, 18, 10, 0, 0)
    ensures Parse("2024.1.18 10:00:00 AM", Dotted12Pieces) == Ok(t)
  {
    DocMatch0(t);
    assert Dotted12Pieces[0..] == Dotted12Pieces;
    DocAssemble();
  }

  /** The cell text is stripped, is no blank marker and not all digits, and has a dot
      but no dash. */
  lemma DocShape(s: string)
    requires s == "2024.1.18  10:00:00 AM"
    ensures Strip(s) == s && Candidate(s) && '-' !in s && '.' in s
  {
    assert s[4] == '.';
    assert s[0] == '2' && s[|s| - 1] == 'M';
    StripTrimmed(s);
    MarkNotDigits(s, '.');
    assert |LowerAscii(s)| != |"nan"|;
  }

  /** The docstring's own example, with its one-digit month and double space. */
  lemma DocstringExample()
    ensures ParseDatetime(StrValue("2024.1.18  10:00:00 AM")) == Ok(DateTime(2024, 1, 18, 10, 0, 0))
  {
    var s := "2024.1.18  10:00:00 AM";
    var t := DateTime(2024, 1, 18, 10, 0, 0);
    DocShape(s);
    DocExampleCollapsed();
    DocParse(t);
    Dotted12Branch(s, t);
  }
}

