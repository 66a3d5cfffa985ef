/**
 * The documented examples of `Duration.parse`, and the texts it refuses,
 * read through the model of the pattern in IsoDuration.
 */
module IsoDurationExamples {

  import opened Wrappers
  import opened JavaText
  import opened IsoDuration

  /** No number starts at i, so no component is captured there. */
  lemma NoComponentAt(s: string, i: nat, letter: char)
    requires 'A' <= letter <= 'Z'
    requires i <= |s| && (i == |s| || !(IsDigit(s[i]) || s[i] == '-' || s[i] == '+'))
    ensures Designated(s, i, letter) == (None, i)
    ensures SecondsGroup(s, i) == (None, None, i)
  {
    assert DigitRun(s, i) == 0;
  }

  /** A number at i followed by another designator is not this component. */
  lemma OtherComponentAt(s: string, i: nat, e: nat, letter: char)
    requires 'A' <= letter <= 'Z'
    requires i < e < |s| && SignedValue(s[i..e]).Some? && !IsDigit(s[e]) && !IsLetter(s[e], letter)
    ensures Designated(s, i, letter) == (None, i)
  {
    NumberEndAt(s, i, e);
  }

  /** A seconds component `n.fS` ending the text. */
  lemma SecondsFractionAt(s: string, i: nat, e: nat, f: nat)
    requires i < e < f && f + 1 == |s| && SignedValue(s[i..e]).Some?
    requires s[e] == '.' && f - (e + 1) <= 9 && IsLetter(s[f], 'S')
    requires forall k :: e + 1 <= k < f ==> IsDigit(s[k])
    ensures SecondsGroup(s, i) == (Some(s[i..e]), Some(s[e + 1..f]), |s|)
  {
    NumberEndAt(s, i, e);
    DigitRunIs(s, e + 1, f - (e + 1));
  }

  /** Match of a text with no time part: `[-+]?P` and at most a days component. */
  lemma MatchDateOnly(s: string, i0: nat, days: Option<string>)
    requires i0 < |s| && IsLetter(s[i0], 'P')
    requires i0 == (if s[0] == '-' || s[0] == '+' then 1 else 0)
    requires Designated(s, i0 + 1, 'D') == (days, |s|)
    ensures Match(s) == Some(Groups(s[..i0], days, None, None, None, None, None))
  {
    assert Match(s) == MatchAfterP(s, i0);
  }

  /** "PT15M" is fifteen minutes. */
  lemma ParseFifteenMinutes(s: string)
    requires s == "PT15M"
    ensures Parse(s) == Some(Duration(900, 0))
  {
    assert s[0] == 'P' && s[1] == 'T' && s[4] == 'M';
    assert s[2..4] == "15" && s[1..] == "T15M" && s[..0] == "";
    assert DigitsValue("15") == 15 by { assert "15"[..1] == "1"; }
    NoComponentAt(s, 1, 'D');
    OtherComponentAt(s, 2, 4, 'H');
    DesignatedAt(s, 2, 4, 'M');
    NoComponentAt(s, 5, 'H');
    TimePartOf(s, 2, None, 2, Some("15"), 5, None, None);
    MatchOf(s, 0, None, 1, TimeGroups(None, Some("15"), None, None));
    ParseOf(s, Groups("", None, Some("T15M"), None, Some("15"), None, None));
  }

  /** "PT20.345S" is twenty seconds and 345 milliseconds. */
  lemma ParseFractionalSeconds(s: string)
    requires s == "PT20.345S"
    ensures Parse(s) == Some(Duration(20, 345_000_000))
  {
    FractionalSecondsText(s);
    NoComponentAt(s, 1, 'D');
    OtherComponentAt(s, 2, 4, 'H');
    OtherComponentAt(s, 2, 4, 'M');
    SecondsFractionAt(s, 2, 4, 8);
    TimePartOf(s, 2, None, 2, None, 2, Some("20"), Some("345"));
    MatchOf(s, 0, None, 1, TimeGroups(None, None, Some("20"), Some("345")));
    ParseOf(s, Groups("", None, Some("T20.345S"), None, None, Some("20"), Some("345")));
  }

  /** The characters and slices of "PT20.345S" that the match reads. */
  lemma FractionalSecondsText(s: string)
    requires s == "PT20.345S"
    ensures s[0] == 'P' && s[1] == 'T' && s[4] == '.' && s[8] == 'S'
    ensures s[2..4] == "20" && s[5..8] == "345" && s[1..] == "T20.345S" && s[..0] == ""
    ensures DigitsValue("20") == 20 && DigitsValue("345") == 345 && Pow10(6) == 1_000_000
  {
    assert "20"[..1] == "2";
    assert "345"[..2] == "34" && "34"[..1] == "3";
  }

  /** "P2DT3H4M" is two days, three hours and four minutes. */
  lemma ParseDaysHoursMinutes(s: string)
    requires s == "P2DT3H4M"
    ensures Parse(s) == Some(Duration(183_840, 0))
  {
    assert s[0] == 'P' && s[2] == 'D' && s[3] == 'T' && s[5] == 'H' && s[7] == 'M';
    assert s[1..2] == "2" && s[4..5] == "3" && s[6..7] == "4" && s[3..] == "T3H4M" && s[..0] == "";
    DesignatedAt(s, 1, 2, 'D');
    DesignatedAt(s, 4, 5, 'H');
    DesignatedAt(s, 6, 7, 'M');
    NoComponentAt(s, 8, 'H');
    TimePartOf(s, 4, Some("3"), 6, Some("4"), 8, None, None);
    MatchOf(s, 0, Some("2"), 3, TimeGroups(Some("3"), Some("4"), None, None));
    ParseOf(s, Groups("", Some("2"), Some("T3H4M"), Some("3"), Some("4"), None, None));
  }

  /** "-PT6H3M": the leading sign negates the whole, minus six hours and minus three minutes. */
  lemma ParseNegatedWhole(s: string)
    requires s == "-PT6H3M"
    ensures Parse(s) == Some(Duration(-21_780, 0))
  {
    assert s[0] == '-' && s[1] == 'P' && s[2] == 'T' && s[4] == 'H' && s[6] == 'M';
    assert s[3..4] == "6" && s[5..6] == "3" && s[2..] == "T6H3M" && s[..1] == "-";
    NoComponentAt(s, 2, 'D');
    DesignatedAt(s, 3, 4, 'H');
    DesignatedAt(s, 5, 6, 'M');
    NoComponentAt(s, 7, 'H');
    TimePartOf(s, 3, Some("6"), 5, Some("3"), 7, None, None);
    MatchOf(s, 1, None, 2, TimeGroups(Some("6"), Some("3"), None, None));
    ParseOf(s, Groups("-", None, Some("T6H3M"), Some("6"), Some("3"), None, None));
  }

  /** "PT-6H3M": a sign on one component negates that component only, minus six hours and plus three minutes. */
  lemma ParseNegatedComponent(s: string)
    requires s == "PT-6H3M"
    ensures Parse(s) == Some(Duration(-21_420, 0))
  {
    assert s[0] == 'P' && s[1] == 'T' && s[4] == 'H' && s[6] == 'M';
    assert s[2..4] == "-6" && s[5..6] == "3" && s[1..] == "T-6H3M" && s[..0] == "";
    assert "-6"[1..] == "6";
    NoComponentAt(s, 1, 'D');
    DesignatedAt(s, 2, 4, 'H');
    DesignatedAt(s, 5, 6, 'M');
    NoComponentAt(s, 7, 'H');
    TimePartOf(s, 2, Some("-6"), 5, Some("3"), 7, None, None);
    MatchOf(s, 0, None, 1, TimeGroups(Some("-6"), Some("3"), None, None));
    ParseOf(s, Groups("", None, Some("T-6H3M"), Some("-6"), Some("3"), None, None));
  }

  /** "-PT-6H+3M": both signs, plus six hours and minus three minutes. */
  lemma ParseBothSigns(s: string)
    requires s == "-PT-6H+3M"
    ensures Parse(s) == Some(Duration(21_420, 0))
  {
    assert s[0] == '-' && s[1] == 'P' && s[2] == 'T' && s[5] == 'H' && s[8] == 'M';
    assert s[3..5] == "-6" && s[6..8] == "+3" && s[2..] == "T-6H+3M" && s[..1] == "-";
    assert "-6"[1..] == "6" && "+3"[1..] == "3";
    NoComponentAt(s, 2, 'D');
    DesignatedAt(s, 3, 5, 'H');
    DesignatedAt(s, 6, 8, 'M');
    NoComponentAt(s, 9, 'H');
    TimePartOf(s, 3, Some("-6"), 6, Some("+3"), 9, None, None);
    MatchOf(s, 1, None, 2, TimeGroups(Some("-6"), Some("+3"), None, None));
    ParseOf(s, Groups("-", None, Some("T-6H+3M"), Some("-6"), Some("+3"), None, None));
  }

  /** "P" writes no component and is refused. */
  lemma ParseNoComponent(s: string)
    requires s == "P"
    ensures Parse(s) == None
  {
    NoComponentAt(s, 1, 'D');
    MatchDateOnly(s, 0, None);
  }

  /** "PT" has a time designator with nothing after it and is refused. */
  lemma ParseBareTime(s: string)
    requires s == "PT"
    ensures Parse(s) == None
  {
    assert s[1..] == "T";
    NoComponentAt(s, 1, 'D');
    NoComponentAt(s, 2, 'H');
    NoComponentAt(s, 2, 'M');
    TimePartOf(s, 2, None, 2, None, 2, None, None);
    MatchOf(s, 0, None, 1, TimeGroups(None, None, None, None));
  }

  /** "P1DT" is refused for its empty time part, although it writes a day. */
  lemma ParseDayBareTime(s: string)
    requires s == "P1DT"
    ensures Parse(s) == None
  {
    assert s[1..2] == "1" && s[3..] == "T";
    DesignatedAt(s, 1, 2, 'D');
    NoComponentAt(s, 4, 'H');
    NoComponentAt(s, 4, 'M');
    TimePartOf(s, 4, None, 4, None, 4, None, None);
    MatchOf(s, 0, Some("1"), 3, TimeGroups(None, None, None, None));
  }

  /**
   * "P1Dt" is one day: the empty-time check compares with an upper-case `T`
   * only, while the pattern accepts either case.
   */
  lemma ParseDayLowerTime(s: string)
    requires s == "P1Dt"
    ensures Parse(s) == Some(Duration(86_400, 0))
  {
    assert s[1..2] == "1" && s[3..] == "t" && s[..0] == "";
    DesignatedAt(s, 1, 2, 'D');
    NoComponentAt(s, 4, 'H');
    NoComponentAt(s, 4, 'M');
    TimePartOf(s, 4, None, 4, None, 4, None, None);
    MatchOf(s, 0, Some("1"), 3, TimeGroups(None, None, None, None));
    ParseOf(s, Groups("", Some("1"), Some("t"), None, None, None, None));
  }

  /** A text that does not start with `P` after an optional sign is refused. */
  lemma ParseNoDesignator(s: string)
    requires s == "1D"
    ensures Parse(s) == None
  {
    assert Match(s) == None;
  }
}
