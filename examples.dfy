/**
 * `process_salary` on particular salary texts, one group of lemmas per text: where
 * the pattern matches (`...Find`), what the captured groups convert to (`...Bound`,
 * `...Lower`, `...Upper`), and the resulting salary.
 */
module SalaryExamples {
  import opened Wrappers
  import opened Text
  import opened Decimal
  import opened Pattern
  import opened HhruSpider

  // ---------------------------------------------------------------------------
  // A floor alone: "от 80 000 ₽"

  const FromText := "от 80 000 ₽"

  lemma FromNumber()
    ensures FirstDigit(FromText, 0) == 3
    ensures NumberEnd(FromText, 3) == 9
  {
    var t := FromText;
    assert IsFrom(t, 0) && SkipSpaces(t, 2) == 3;
    assert SkipDigits(t, 7) == 9 && SkipSpaces(t, 9) == 10;
    assert ChainEnd(t, 6) == 9;
    assert SkipDigits(t, 4) == 5 && SkipSpaces(t, 5) == 6;
    assert ChainEnd(t, 3) == 9;
  }

  lemma FromSuffix()
    ensures SuffixAt(FromText, 9) == Some(Suffix(10, 10, 10))
  {
    var t := FromText;
    assert SkipSpaces(t, 9) == 10 && !IsTo(t, 10);
    assert ConnectorEnd(t, 9) == 10;
  }

  lemma FromFind()
    ensures Find(FromText) == Some(Match(0, 3, 9, 10, 10, 10))
  {
    FromNumber();
    FromSuffix();
    MatchAtEnd(FromText, 0, 9, Suffix(10, 10, 10));
    FindAtStart(FromText);
  }

  lemma FromBound()
    ensures Bound(FromText, 3, 9) == Ok(80000.0)
  {
    assert FromText[3..9] == "80" + " " + "000";
    NormalisedGroups("80", "000");
    Tens("80", 8, 0);
    ThousandsValue("80", 80);
    assert "80" + "000" == "80000";
    ToFloatWhole("80000");
  }

  lemma FromOnly()
    ensures ProcessSalary([FromText]) == Ok(Single(80000.0))
  {
    assert Nbsp !in FromText;
    SingleFragment(FromText);
    FromFind();
    FromBound();
    assert Classify(80000.0, None) == Single(80000.0);
  }

  // ---------------------------------------------------------------------------
  // A range: "от 100 до 150 ₽"

  const RangeText := "от 100 до 150 ₽"

  lemma RangeNumber()
    ensures FirstDigit(RangeText, 0) == 3
    ensures NumberEnd(RangeText, 3) == 6
  {
    var t := RangeText;
    assert IsFrom(t, 0) && SkipSpaces(t, 2) == 3;
    assert SkipDigits(t, 4) == 6 && SkipSpaces(t, 6) == 7;
    assert ChainEnd(t, 3) == 6;
  }

  lemma RangeTail()
    ensures TailAt(RangeText, 10) == Some(Suffix(10, 13, 14))
  {
    var t := RangeText;
    assert SkipDigits(t, 11) == 13 && SkipSpaces(t, 13) == 14;
    assert ChainEnd(t, 10) == 13;
    assert NumberEnd(t, 10) == 13;
  }

  lemma RangeSuffix()
    ensures SuffixAt(RangeText, 6) == Some(Suffix(10, 13, 14))
  {
    var t := RangeText;
    assert SkipSpaces(t, 6) == 7 && IsTo(t, 7) && SkipSpaces(t, 9) == 10;
    assert ConnectorEnd(t, 6) == 10;
    RangeTail();
  }

  lemma RangeFind()
    ensures Find(RangeText) == Some(Match(0, 3, 6, 10, 13, 14))
  {
    assert RangeText[3] == '1' && RangeText[5] == '0';
    RangeNumber();
    RangeSuffix();
    MatchAtEnd(RangeText, 0, 6, Suffix(10, 13, 14));
    FindAtStart(RangeText);
  }

  lemma RangeLower()
    ensures Bound(RangeText, 3, 6) == Ok(100.0)
  {
    assert RangeText[3..6] == "100";
    Hundreds("100", 1, 0, 0);
    WholeBound(RangeText, 3, 6);
  }

  lemma RangeUpper()
    ensures Bound(RangeText, 10, 13) == Ok(150.0)
  {
    assert RangeText[10..13] == "150";
    Hundreds("150", 1, 5, 0);
    assert AllDigits(RangeText[10..13]) && Natural(RangeText[10..13]) == 150;
    WholeBound(RangeText, 10, 13);
  }

  lemma FromTo()
    ensures ProcessSalary([RangeText]) == Ok(Range(100.0, 150.0))
  {
    assert Nbsp !in RangeText;
    SingleFragment(RangeText);
    RangeFind();
    RangeLower();
    RangeUpper();
    assert Classify(100.0, Some(150.0)) == Range(100.0, 150.0);
  }

  // ---------------------------------------------------------------------------
  // A non-breaking space as thousands separator: "100 000 ₽"

  const NbspText := "100\U{A0}000 ₽"
  const SpacedText := "100 000 ₽"

  lemma NbspReplaced()
    ensures SalaryText([NbspText]) == SpacedText
  {
    assert NbspText == "100" + [Nbsp] + "000 ₽";
    NbspBecomesSpace("100", "000 ₽");
    SpacedPieces();
  }

  lemma SpacedPieces()
    ensures "100" + " " + "000 ₽" == SpacedText
  {
  }

  lemma SpacedNumber()
    ensures FirstDigit(SpacedText, 0) == 0
    ensures NumberEnd(SpacedText, 0) == 7
  {
    var t := SpacedText;
    assert SkipDigits(t, 5) == 7 && SkipSpaces(t, 7) == 8;
    assert ChainEnd(t, 4) == 7;
    assert SkipDigits(t, 1) == 3 && SkipSpaces(t, 3) == 4;
    assert ChainEnd(t, 0) == 7;
  }

  lemma SpacedSuffix()
    ensures SuffixAt(SpacedText, 7) == Some(Suffix(8, 8, 8))
  {
    var t := SpacedText;
    assert SkipSpaces(t, 7) == 8 && !IsTo(t, 8);
    assert ConnectorEnd(t, 7) == 8;
  }

  lemma NbspFind()
    ensures Find(SpacedText) == Some(Match(0, 0, 7, 8, 8, 8))
  {
    assert SpacedText[0] == '1' && SpacedText[6] == '0';
    SpacedNumber();
    SpacedSuffix();
    MatchAtEnd(SpacedText, 0, 7, Suffix(8, 8, 8));
    FindAtStart(SpacedText);
  }

  lemma NbspBound()
    ensures Bound(SpacedText, 0, 7) == Ok(100000.0)
  {
    assert SpacedText[0..7] == "100" + " " + "000";
    NormalisedGroups("100", "000");
    Hundreds("100", 1, 0, 0);
    ThousandsValue("100", 100);
    assert "100" + "000" == "100000";
    ToFloatWhole("100000");
  }

  lemma NonBreakingSpace()
    ensures ProcessSalary([NbspText]) == Ok(Single(100000.0))
  {
    NbspReplaced();
    NbspFind();
    NbspBound();
    assert Classify(100000.0, None) == Single(100000.0);
  }

  // ---------------------------------------------------------------------------
  // A decimal comma: "50 000,50 ₽"

  const CommaText := "50 000,50 ₽"

  lemma CommaChain()
    ensures ChainEnd(CommaText, 0) == 6
  {
    var t := CommaText;
    assert SkipDigits(t, 4) == 6 && SkipSpaces(t, 6) == 6;
    assert ChainEnd(t, 3) == 6;
    assert SkipDigits(t, 1) == 2 && SkipSpaces(t, 2) == 3;
  }

  lemma CommaNumber()
    ensures FirstDigit(CommaText, 0) == 0
    ensures NumberEnd(CommaText, 0) == 9
  {
    var t := CommaText;
    CommaChain();
    assert t[6] == ',' && IsDigit(t[7]);
    assert SkipDigits(t, 7) == 9;
  }

  lemma CommaSuffix()
    ensures SuffixAt(CommaText, 9) == Some(Suffix(10, 10, 10))
  {
    var t := CommaText;
    assert SkipSpaces(t, 9) == 10 && !IsTo(t, 10);
    assert ConnectorEnd(t, 9) == 10;
  }

  lemma CommaFind()
    ensures Find(CommaText) == Some(Match(0, 0, 9, 10, 10, 10))
  {
    CommaNumber();
    CommaSuffix();
    MatchAtEnd(CommaText, 0, 9, Suffix(10, 10, 10));
    FindAtStart(CommaText);
  }

  lemma CommaNormalised()
    ensures Normalised(CommaText[0..9]) == "50000" + "." + "50"
  {
    assert CommaText[0..9] == "50" + " " + "000" + "," + "50";
    NormalisedGroupsComma("50", "000", "50");
    assert "50" + "000" == "50000";
  }

  lemma CommaBound()
    ensures Bound(CommaText, 0, 9) == Ok(50000.5)
  {
    CommaNormalised();
    CommaValue();
  }

  lemma CommaValue()
    ensures ToFloat("50000" + "." + "50") == Some(50000.5)
  {
    Tens("50", 5, 0);
    ThousandsValue("50", 50);
    assert "50" + "000" == "50000";
    ToFloatPoint("50000", "50");
    assert Pow10(2) == 100;
    assert Fraction("50") == 0.5;
  }

  lemma DecimalComma()
    ensures ProcessSalary([CommaText]) == Ok(Single(50000.5))
  {
    assert Nbsp !in CommaText;
    SingleFragment(CommaText);
    CommaFind();
    CommaBound();
    assert Classify(50000.5, None) == Single(50000.5);
  }

  // ---------------------------------------------------------------------------
  // Backtracking into group 1: "1,55,6 ₽" reads as the range 1.5 to 5.6

  const SplitText := "1,55,6 ₽"

  lemma SplitNumber()
    ensures FirstDigit(SplitText, 0) == 0
    ensures NumberEnd(SplitText, 0) == 4
  {
    var t := SplitText;
    assert SkipDigits(t, 1) == 1 && SkipSpaces(t, 1) == 1;
    assert ChainEnd(t, 0) == 1;
    assert t[1] == ',' && IsDigit(t[2]);
    assert SkipDigits(t, 2) == 4;
  }

  /** The longest group 1, `1,55`, leaves `,6 ₽`, where the rest of the pattern fails. */
  lemma SplitLongest()
    ensures AfterEnd(SplitText, 4) == None
  {
    var t := SplitText;
    assert SkipSpaces(t, 4) == 4 && !IsTo(t, 4);
    assert ConnectorEnd(t, 4) == 4;
    assert TailAt(t, 4) == None;
  }

  /** Group 1 one digit shorter, `1,5`, leaves `5,6 ₽`: group 2 and the sign. */
  lemma SplitSuffix()
    ensures SuffixAt(SplitText, 3) == Some(Suffix(3, 6, 7))
  {
    var t := SplitText;
    assert SkipSpaces(t, 3) == 3 && !IsTo(t, 3);
    assert ConnectorEnd(t, 3) == 3;
    assert SkipDigits(t, 4) == 4 && SkipSpaces(t, 4) == 4;
    assert ChainEnd(t, 3) == 4;
    assert t[4] == ',' && IsDigit(t[5]) && SkipDigits(t, 5) == 6;
    assert NumberEnd(t, 3) == 6;
    assert SkipSpaces(t, 6) == 7;
  }

  lemma SplitMatch()
    ensures MatchAt(SplitText, 0) == Some(Match(0, 0, 3, 3, 6, 7))
  {
    assert SplitText[0] == '1' && SplitText[2] == '5';
    SplitNumber();
    forall e' | 3 < e' <= NumberEnd(SplitText, FirstDigit(SplitText, 0)) ensures AfterEnd(SplitText, e').None? {
      assert e' == 4;
      SplitLongest();
    }
    SplitSuffix();
    MatchAtEnd(SplitText, 0, 3, Suffix(3, 6, 7));
  }

  lemma SplitFind()
    ensures Find(SplitText) == Some(Match(0, 0, 3, 3, 6, 7))
  {
    SplitMatch();
    FindAtStart(SplitText);
  }

  lemma SplitLower()
    ensures Bound(SplitText, 0, 3) == Ok(1.5)
  {
    assert SplitText[0..3] == "1" + "," + "5";
    NormalisedComma("1", "5");
    assert Normalised("1") == "1";
    SplitLowerValue();
  }

  lemma SplitLowerValue()
    ensures ToFloat("1" + "." + "5") == Some(1.5)
  {
    Units("1", 1);
    Units("5", 5);
    ToFloatPoint("1", "5");
    assert Fraction("5") == 0.5;
  }

  lemma SplitUpper()
    ensures Bound(SplitText, 3, 6) == Ok(5.6)
  {
    assert SplitText[3..6] == "5" + "," + "6";
    NormalisedComma("5", "6");
    assert Normalised("5") == "5";
    SplitUpperValue();
  }

  lemma SplitUpperValue()
    ensures ToFloat("5" + "." + "6") == Some(5.6)
  {
    Units("5", 5);
    Units("6", 6);
    ToFloatPoint("5", "6");
    assert Fraction("6") == 0.6;
  }

  lemma Backtracking()
    ensures ProcessSalary([SplitText]) == Ok(Range(1.5, 5.6))
  {
    assert Nbsp !in SplitText;
    SingleFragment(SplitText);
    SplitFind();
    SplitLower();
    SplitUpper();
    assert Classify(1.5, Some(5.6)) == Range(1.5, 5.6);
  }

  // ---------------------------------------------------------------------------
  // A zero floor is no salary: "0 ₽"

  const ZeroText := "0 ₽"

  lemma ZeroFind()
    ensures Find(ZeroText) == Some(Match(0, 0, 1, 2, 2, 2))
  {
    var t := ZeroText;
    assert FirstDigit(t, 0) == 0;
    assert SkipDigits(t, 1) == 1 && SkipSpaces(t, 1) == 2;
    assert NumberEnd(t, 0) == 1;
    assert ConnectorEnd(t, 1) == 2;
    assert SuffixAt(t, 1) == Some(Suffix(2, 2, 2));
    MatchAtEnd(t, 0, 1, Suffix(2, 2, 2));
    FindAtStart(t);
  }

  lemma ZeroBound()
    ensures Bound(ZeroText, 0, 1) == Ok(0.0)
  {
    assert ZeroText[0..1] == "0";
    Units("0", 0);
    WholeBound(ZeroText, 0, 1);
  }

  lemma ZeroFloor()
    ensures ProcessSalary([ZeroText]) == Ok(Absent)
  {
    assert Nbsp !in ZeroText;
    SingleFragment(ZeroText);
    ZeroFind();
    ZeroBound();
  }

  // ---------------------------------------------------------------------------
  // Whitespace other than a plain space inside a number: "100 000 ₽"

  const NarrowText := "100\U{202F}000 ₽"

  lemma NarrowNumber()
    ensures FirstDigit(NarrowText, 0) == 0
    ensures NumberEnd(NarrowText, 0) == 7
  {
    var t := NarrowText;
    assert SkipDigits(t, 5) == 7 && SkipSpaces(t, 7) == 8;
    assert ChainEnd(t, 4) == 7;
    assert SkipDigits(t, 1) == 3 && SkipSpaces(t, 3) == 4;
    assert ChainEnd(t, 0) == 7;
  }

  lemma NarrowSuffix()
    ensures SuffixAt(NarrowText, 7) == Some(Suffix(8, 8, 8))
  {
    var t := NarrowText;
    assert SkipSpaces(t, 7) == 8 && !IsTo(t, 8);
    assert ConnectorEnd(t, 7) == 8;
  }

  lemma NarrowFind()
    ensures Find(NarrowText) == Some(Match(0, 0, 7, 8, 8, 8))
  {
    NarrowNumber();
    NarrowSuffix();
    MatchAtEnd(NarrowText, 0, 7, Suffix(8, 8, 8));
    FindAtStart(NarrowText);
  }

  lemma NarrowBound()
    ensures Bound(NarrowText, 0, 7) == Err("100\U{202F}000")
  {
    var g := NarrowText[0..7];
    assert g == "100\U{202F}000";
    assert ' ' !in g && ',' !in g;
    assert Normalised(g) == g;
    assert IndexOf(g, '.') == 7;
    assert !IsDigit(g[3]);
    assert ToFloat(g) == None;
  }

  lemma NarrowSpace()
    ensures ProcessSalary([NarrowText]) == Err("100\U{202F}000")
  {
    assert Nbsp !in NarrowText;
    SingleFragment(NarrowText);
    NarrowFind();
    NarrowBound();
  }

  // ---------------------------------------------------------------------------
  // Negotiable salary: no rouble sign, no salary

  lemma Negotiable()
    ensures ProcessSalary(["По договорённости"]) == Ok(Absent)
  {
    assert Join(["По договорённости"], " ") == "По договорённости";
    NoRoubleIsAbsent(["По договорённости"]);
  }

  // ---------------------------------------------------------------------------
  // A range with separators and trailing words: "от 100 000 до 150 000 ₽ на руки"

  const HandsText := "от 100 000 до 150 000 ₽ на руки"

  lemma HandsFirst()
    ensures FirstDigit(HandsText, 0) == 3
  {
    assert IsFrom(HandsText, 0) && SkipSpaces(HandsText, 2) == 3;
  }

  lemma HandsNumber()
    ensures NumberEnd(HandsText, 3) == 10
  {
    var t := HandsText;
    assert SkipDigits(t, 8) == 10 && SkipSpaces(t, 10) == 11;
    assert ChainEnd(t, 7) == 10;
    assert SkipDigits(t, 4) == 6 && SkipSpaces(t, 6) == 7;
    assert ChainEnd(t, 3) == 10;
  }

  lemma HandsTail()
    ensures TailAt(HandsText, 14) == Some(Suffix(14, 21, 22))
  {
    var t := HandsText;
    assert SkipDigits(t, 19) == 21 && SkipSpaces(t, 21) == 22;
    assert ChainEnd(t, 18) == 21;
    assert SkipDigits(t, 15) == 17 && SkipSpaces(t, 17) == 18;
    assert ChainEnd(t, 14) == 21;
    assert NumberEnd(t, 14) == 21;
  }

  lemma HandsSuffix()
    ensures SuffixAt(HandsText, 10) == Some(Suffix(14, 21, 22))
  {
    var t := HandsText;
    assert SkipSpaces(t, 10) == 11 && IsTo(t, 11) && SkipSpaces(t, 13) == 14;
    assert ConnectorEnd(t, 10) == 14;
    HandsTail();
  }

  lemma HandsMatch()
    ensures MatchAt(HandsText, 0) == Some(Match(0, 3, 10, 14, 21, 22))
  {
    assert HandsText[3] == '1' && HandsText[9] == '0';
    HandsFirst();
    HandsNumber();
    HandsSuffix();
    MatchAtEnd(HandsText, 0, 10, Suffix(14, 21, 22));
  }

  lemma HandsFind()
    ensures Find(HandsText) == Some(Match(0, 3, 10, 14, 21, 22))
  {
    HandsMatch();
    FindAtStart(HandsText);
  }

  lemma HandsLower()
    ensures Bound(HandsText, 3, 10) == Ok(100000.0)
  {
    var t := HandsText;
    assert t[3] == '1' && t[4] == '0' && t[5] == '0' && t[6] == ' ' && t[7] == '0' && t[8] == '0' && t[9] == '0';
    assert t[3..10] == SpacedText[0..7];
    NbspBound();
  }

  lemma HandsUpper()
    ensures Bound(HandsText, 14, 21) == Ok(150000.0)
  {
    assert HandsText[14..21] == "150" + " " + "000";
    NormalisedGroups("150", "000");
    Hundreds("150", 1, 5, 0);
    ThousandsValue("150", 150);
    assert "150" + "000" == "150000";
    ToFloatWhole("150000");
  }

  lemma RangeInHand()
    ensures ProcessSalary([HandsText]) == Ok(Range(100000.0, 150000.0))
  {
    assert Nbsp !in HandsText;
    SingleFragment(HandsText);
    HandsFind();
    HandsLower();
    HandsUpper();
    assert Classify(100000.0, Some(150000.0)) == Range(100000.0, 150000.0);
  }

  // ---------------------------------------------------------------------------
  // Two numbers with only a space between them are one group: ["100", "150 ₽"]

  const MergedText := "100 150 ₽"

  lemma MergedJoin()
    ensures Join(["100", "150 ₽"], " ") == MergedText
  {
    assert Join(["100", "150 ₽"], " ") == "100" + " " + "150 ₽";
  }

  lemma MergedJoined()
    ensures SalaryText(["100", "150 ₽"]) == MergedText
  {
    MergedJoin();
    assert Nbsp !in MergedText;
  }

  lemma MergedNumber()
    ensures FirstDigit(MergedText, 0) == 0
    ensures NumberEnd(MergedText, 0) == 7
  {
    var t := MergedText;
    assert SkipDigits(t, 5) == 7 && SkipSpaces(t, 7) == 8;
    assert ChainEnd(t, 4) == 7;
    assert SkipDigits(t, 1) == 3 && SkipSpaces(t, 3) == 4;
    assert ChainEnd(t, 0) == 7;
  }

  lemma MergedSuffix()
    ensures SuffixAt(MergedText, 7) == Some(Suffix(8, 8, 8))
  {
    var t := MergedText;
    assert SkipSpaces(t, 7) == 8 && !IsTo(t, 8);
    assert ConnectorEnd(t, 7) == 8;
  }

  lemma MergedFind()
    ensures Find(MergedText) == Some(Match(0, 0, 7, 8, 8, 8))
  {
    MergedNumber();
    MergedSuffix();
    MatchAtEnd(MergedText, 0, 7, Suffix(8, 8, 8));
    FindAtStart(MergedText);
  }

  lemma MergedBound()
    ensures Bound(MergedText, 0, 7) == Ok(100150.0)
  {
    assert MergedText[0..7] == "100" + " " + "150";
    NormalisedGroups("100", "150");
    assert "100" + "150" == "100150";
    MergedDigits();
    ToFloatWhole("100150");
  }

  lemma MergedDigits()
    ensures AllDigits("100150") && Natural("100150") == 100150
  {
    Hundreds("100", 1, 0, 0);
    Hundreds("150", 1, 5, 0);
    NaturalConcat("100", "150");
    assert Pow10(3) == 1000;
    assert "100" + "150" == "100150";
  }

  lemma SpaceJoinsNumbers()
    ensures ProcessSalary(["100", "150 ₽"]) == Ok(Single(100150.0))
  {
    MergedJoined();
    MergedFind();
    MergedBound();
    assert Classify(100150.0, None) == Single(100150.0);
  }

  /** Written as one fragment, the two numbers are still one bound. */
  lemma SpaceInsideNumber()
    ensures ProcessSalary([MergedText]) == Ok(Single(100150.0))
  {
    assert Nbsp !in MergedText;
    SingleFragment(MergedText);
    MergedFind();
    MergedBound();
    assert Classify(100150.0, None) == Single(100150.0);
  }

  // ---------------------------------------------------------------------------
  // Numerals

  /** A one-digit numeral. */
  lemma Units(s: string, d: nat)
    requires |s| == 1 && IsDigit(s[0]) && DigitValue(s[0]) == d
    ensures AllDigits(s) && Natural(s) == d
  {
    assert s[..0] == [];
  }

  /** A two-digit numeral. */
  lemma Tens(s: string, d1: nat, d0: nat)
    requires |s| == 2 && IsDigit(s[0]) && IsDigit(s[1])
    requires DigitValue(s[0]) == d1 && DigitValue(s[1]) == d0
    ensures AllDigits(s) && Natural(s) == 10 * d1 + d0
  {
    Units(s[..1], d1);
  }

  /** A three-digit numeral. */
  lemma Hundreds(s: string, d2: nat, d1: nat, d0: nat)
    requires |s| == 3 && IsDigit(s[0]) && IsDigit(s[1]) && IsDigit(s[2])
    requires DigitValue(s[0]) == d2 && DigitValue(s[1]) == d1 && DigitValue(s[2]) == d0
    ensures AllDigits(s) && Natural(s) == 100 * d2 + 10 * d1 + d0
  {
    Tens(s[..2], d2, d1);
  }

  /** `n` followed by three zeros reads as `n` thousand. */
  lemma ThousandsValue(a: string, n: nat)
    requires AllDigits(a) && Natural(a) == n
    ensures AllDigits(a + "000") && Natural(a + "000") == 1000 * n
  {
    NaturalConcat(a, "000");
    NaturalZero("000");
    assert Pow10(3) == 1000;
  }
}
