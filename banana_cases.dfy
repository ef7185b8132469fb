/**
 * The concrete cases the property unit tests pin down, each derived from
 * the general lemmas of `BaseProperties`.
 */
module BananaCases {
  import opened Errors
  import opened Text
  import opened BaseProperties

  /** "3" reads as 3 and prints back as "3"; "-1" and "not integer" are refused. */
  lemma NumBananaCases()
    ensures Convert(NumBanana, "3") == Ok(IntValue(3)) && Print(IntValue(3)) == "3"
    ensures Print(IntValue(123)) == "123"
    ensures Convert(NumBanana, "-1") == Throw(InvalidArgument(BadValue))
    ensures Convert(NumBanana, "not integer") == Throw(InvalidArgument(BadValue))
  {
    assert IntToString(3) == "3";
    NumBananaAcceptsNonNegative(3);
    assert IntToString(-1) == "-1";
    NumBananaAcceptsNonNegative(-1);
    assert !IsDigit("not integer"[0]);
  }

  /** "this is good" is stored and printed unchanged; "invalid_str" is refused. */
  lemma QualityCases()
    ensures Convert(QualityOfBanana, "this is good") == Ok(StrValue("this is good"))
    ensures Print(StrValue("this is good")) == "this is good"
    ensures Convert(QualityOfBanana, "invalid_str") == Throw(InvalidArgument(BadValue))
  {
    QualityAcceptsGood("this is good");
    QualityAcceptsGood("invalid_str");
    assert "invalid_str"[7..] == "_str";
  }

  /** "true" reads as true and prints as "true"; "no" is refused. */
  lemma MarkAsGoodCases()
    ensures Convert(MarkAsGoodBanana, "true") == Ok(BoolValue(true))
    ensures Print(BoolValue(true)) == "true"
    ensures Convert(MarkAsGoodBanana, "no") == Throw(InvalidArgument(BadValue))
  {
  }

  /** Joining a first piece to at least one more puts the separator between them. */
  lemma JoinCons(p: string, rest: seq<string>, sep: char)
    requires |rest| >= 1
    ensures Join([p] + rest, sep) == p + [sep] + Join(rest, sep)
  {
    assert ([p] + rest)[1..] == rest;
  }

  /**
   * A text whose ':' pieces are the numerals of `ns` is the dimension built
   * from `ns`, and `from_string` keeps it exactly when that succeeds with
   * batch 1.
   */
  lemma DimensionOfNumerals(s: string, ns: seq<nat>)
    requires Split(s, ':') == NatStrings(ns)
    ensures ParseDim(s) == MakeDim(ns)
    ensures Convert(DimensionOfBanana, s) ==
              if MakeDim(ns).Ok? && MakeDim(ns).value.batch == 1 then Ok(DimValue(MakeDim(ns).value))
              else Throw(InvalidArgument(BadValue))
  {
    ParseNatsOfNatStrings(ns);
  }

  /** A text that is the ':'-joined numerals of `ns` splits back into them. */
  lemma SplitOfNumeralText(s: string, ns: seq<nat>, parts: seq<string>)
    requires |ns| >= 1 && NatStrings(ns) == parts && Join(parts, ':') == s
    ensures Split(s, ':') == NatStrings(ns)
  {
    NumeralsSplitBack(ns);
  }

  lemma JoinOneTwoThreeFour()
    ensures Join(["1", "2", "3", "4"], ':') == "1:2:3:4"
  {
    JoinCons("3", ["4"], ':');
    JoinCons("2", ["3", "4"], ':');
    JoinCons("1", ["2", "3", "4"], ':');
  }

  /** A text whose ':' pieces are the four numerals of `d` reads as `d`. */
  lemma DimensionOfAxes(s: string, d: Dim)
    requires d.batch > 0 && d.channel > 0 && d.height > 0 && d.width > 0
    requires Split(s, ':') == NatStrings(Axes(d))
    ensures Convert(DimensionOfBanana, s) ==
              if d.batch == 1 then Ok(DimValue(d)) else Throw(InvalidArgument(BadValue))
  {
    DimensionOfNumerals(s, Axes(d));
    assert Axes(MakeDim(Axes(d)).value) == Axes(d);
  }

  lemma FullDimensionText()
    ensures Split("1:2:3:4", ':') == NatStrings(Axes(Dim(1, 2, 3, 4)))
    ensures DimToString(Dim(1, 2, 3, 4)) == "1:2:3:4"
  {
    JoinOneTwoThreeFour();
    SplitOfNumeralText("1:2:3:4", [1, 2, 3, 4], ["1", "2", "3", "4"]);
  }

  /** "1:2:3:4" reads as that dimension. */
  lemma FullDimension()
    ensures Convert(DimensionOfBanana, "1:2:3:4") == Ok(DimValue(Dim(1, 2, 3, 4)))
  {
    FullDimensionText();
    DimensionOfAxes("1:2:3:4", Dim(1, 2, 3, 4));
  }

  /** That dimension prints back as "1:2:3:4". */
  lemma FullDimensionPrint()
    ensures Print(DimValue(Dim(1, 2, 3, 4))) == "1:2:3:4"
  {
    FullDimensionText();
  }

  lemma JoinOneOneThreeFour()
    ensures Join(["1", "1", "3", "4"], ':') == "1:1:3:4"
  {
    JoinCons("3", ["4"], ':');
    JoinCons("1", ["3", "4"], ':');
    JoinCons("1", ["1", "3", "4"], ':');
  }

  /** "3:4" is padded with 1s in front. */
  lemma ShortDimension()
    ensures Convert(DimensionOfBanana, "3:4") == Ok(DimValue(Dim(1, 1, 3, 4)))
  {
    ShortDimensionText();
    DimensionOfNumerals("3:4", [3, 4]);
    assert Axes(MakeDim([3, 4]).value) == [1, 1, 3, 4];
  }

  /** The padded dimension prints in full as "1:1:3:4". */
  lemma ShortDimensionPrint()
    ensures Print(DimValue(Dim(1, 1, 3, 4))) == "1:1:3:4"
  {
    ShortDimensionText();
  }

  lemma ShortDimensionText()
    ensures Split("3:4", ':') == NatStrings([3, 4])
    ensures DimToString(Dim(1, 1, 3, 4)) == "1:1:3:4"
  {
    JoinCons("3", ["4"], ':');
    SplitOfNumeralText("3:4", [3, 4], ["3", "4"]);
    JoinOneOneThreeFour();
    assert NatStrings(Axes(Dim(1, 1, 3, 4))) == ["1", "1", "3", "4"];
  }

  lemma JoinFiveAxes()
    ensures Join(["1", "1", "2", "3", "5"], ':') == "1:1:2:3:5"
  {
    JoinCons("3", ["5"], ':');
    JoinCons("2", ["3", "5"], ':');
    JoinCons("1", ["2", "3", "5"], ':');
    JoinCons("1", ["1", "2", "3", "5"], ':');
  }

  lemma FiveAxesText()
    ensures Split("1:1:2:3:5", ':') == NatStrings([1, 1, 2, 3, 5])
  {
    JoinFiveAxes();
    SplitOfNumeralText("1:1:2:3:5", [1, 1, 2, 3, 5], ["1", "1", "2", "3", "5"]);
  }

  /** Five axes are one too many, for `from_string` and for building the dimension (`set`). */
  lemma FiveAxesRefused()
    ensures Convert(DimensionOfBanana, "1:1:2:3:5") == Throw(InvalidArgument(BadValue))
    ensures MakeDim([1, 2, 3, 4, 5]) == Throw(InvalidArgument(BadValue))
  {
    FiveAxesText();
    DimensionOfNumerals("1:1:2:3:5", [1, 1, 2, 3, 5]);
  }

  /** An axis of length 0 is refused when the dimension is built (`set`). */
  lemma ZeroAxisRefused()
    ensures MakeDim([0]) == Throw(InvalidArgument(BadValue))
    ensures MakeDim([0, 1]) == Throw(InvalidArgument(BadValue))
  {
    assert [0][0] == 0;
    assert [0, 1][0] == 0;
  }

  lemma JoinBatchTwo()
    ensures Join(["2", "2", "3", "5"], ':') == "2:2:3:5"
  {
    JoinCons("3", ["5"], ':');
    JoinCons("2", ["3", "5"], ':');
    JoinCons("2", ["2", "3", "5"], ':');
  }

  lemma BatchTwoText()
    ensures Split("2:2:3:5", ':') == NatStrings(Axes(Dim(2, 2, 3, 5)))
  {
    JoinBatchTwo();
    SplitOfNumeralText("2:2:3:5", [2, 2, 3, 5], ["2", "2", "3", "5"]);
  }

  /** A batch other than 1 fails the validator. */
  lemma BatchTwoRefused()
    ensures Convert(DimensionOfBanana, "2:2:3:5") == Throw(InvalidArgument(BadValue))
    ensures !IsValid(DimensionOfBanana, DimValue(Dim(3, 3, 2, 4)))
  {
    BatchTwoText();
    DimensionOfAxes("2:2:3:5", Dim(2, 2, 3, 5));
  }

  /** The empty text and a text with an empty leading axis are not dimensions. */
  lemma EmptyAxisRefused()
    ensures Convert(DimensionOfBanana, "") == Throw(InvalidArgument(BadValue))
    ensures Convert(DimensionOfBanana, ":2:3:5") == Throw(InvalidArgument(BadValue))
  {
    assert Split("", ':') == [""];
    var parts := ["", "2", "3", "5"];
    assert Join(parts, ':') == ":2:3:5";
    SplitOfJoin(parts, ':');
  }

  /** Enum text is read ignoring case and printed with the canonical name. */
  lemma BananaTypeCases()
    ensures Convert(BananaType, "CAVENDISH") == Ok(EnumValue(Cavendish))
    ensures Convert(BananaType, "Plantain") == Ok(EnumValue(Plantain))
    ensures Convert(BananaType, "manzano") == Ok(EnumValue(Manzano))
    ensures Print(EnumValue(Cavendish)) == "Cavendish"
  {
    assert EqualsIgnoreCase("CAVENDISH", "Cavendish");
    ParseBananaOfName(Plantain);
    assert EqualsIgnoreCase("manzano", "Manzano");
    ParseBananaIgnoresCase("manzano", Manzano);
  }

  /** A single digit reads as its value for `NumBanana`. */
  lemma DigitReads(n: nat)
    requires n < 10
    ensures Convert(NumBanana, [DigitChar(n)]) == Ok(IntValue(n))
    ensures Print(IntValue(n)) == [DigitChar(n)]
  {
    NumBananaAcceptsNonNegative(n);
  }

  lemma OneToFiveRead()
    ensures ConvertAll(NumBanana, ["1", "2", "3", "4", "5"]) ==
              Ok([IntValue(1), IntValue(2), IntValue(3), IntValue(4), IntValue(5)])
  {
    DigitReads(1);
    DigitReads(2);
    DigitReads(3);
    DigitReads(4);
    DigitReads(5);
    ConvertAllPointwise(NumBanana, ["1", "2", "3", "4", "5"],
                        [IntValue(1), IntValue(2), IntValue(3), IntValue(4), IntValue(5)]);
  }

  /** A text that is pieces free of `sep` joined by `sep` splits back into them. */
  lemma SplitOfText(s: string, parts: seq<string>, sep: char)
    requires |parts| >= 1 && (forall p :: p in parts ==> sep !in p) && Join(parts, sep) == s
    ensures Split(s, sep) == parts
  {
    SplitOfJoin(parts, sep);
  }

  lemma JoinVectorText()
    ensures Join(["1", " 2", "3", " 4", " 5"], ',') == "1, 2,3, 4, 5"
  {
    JoinCons(" 4", [" 5"], ',');
    JoinCons("3", [" 4", " 5"], ',');
    JoinCons(" 2", ["3", " 4", " 5"], ',');
    JoinCons("1", [" 2", "3", " 4", " 5"], ',');
  }

  lemma VectorText()
    ensures Split("1, 2,3, 4, 5", ',') == ["1", " 2", "3", " 4", " 5"]
  {
    JoinVectorText();
    SplitOfText("1, 2,3, 4, 5", ["1", " 2", "3", " 4", " 5"], ',');
  }

  /** A word, bare or after one space, trims to itself when it has no spaces at its ends. */
  lemma TrimOfPadded(w: string, x: string)
    requires |x| > 0 && Trimmed(x) && (w == x || w == [' '] + x)
    ensures Trim(w) == x
  {
    TrimLeftOfPadded(w, x);
    TrimRightOfTrimmed(x);
  }

  lemma TrimLeftOfPadded(w: string, x: string)
    requires |x| > 0 && x[0] != ' ' && (w == x || w == [' '] + x)
    ensures TrimLeft(w) == x
  {
    TrimLeftOfLeadingSpace(x);
    if w != x {
      TrimLeftOfLeadingSpace(w);
      assert w[1..] == x;
    }
  }

  lemma TrimRightOfTrimmed(x: string)
    requires |x| > 0 && x[|x| - 1] != ' '
    ensures TrimRight(x) == x
  {
  }

  /** Dropping one leading space does not change the left-trimmed word. */
  lemma TrimLeftOfLeadingSpace(s: string)
    requires |s| > 0
    ensures TrimLeft(s) == if s[0] == ' ' then TrimLeft(s[1..]) else s
  {
  }

  /** `piece` is `word`, bare or after one space, and `word` has no spaces at its ends. */
  predicate Padded(piece: string, word: string)
  {
    |word| > 0 && Trimmed(word) && (piece == word || piece == [' '] + word)
  }

  /** Each piece is padded from the word at the same place. */
  predicate AllPadded(pieces: seq<string>, words: seq<string>)
  {
    |pieces| == |words| && (|pieces| == 0 || (Padded(pieces[0], words[0]) && AllPadded(pieces[1..], words[1..])))
  }

  lemma {:induction false} TrimAllOfPadded(pieces: seq<string>, words: seq<string>)
    requires AllPadded(pieces, words)
    ensures TrimAll(pieces) == words
  {
    if |pieces| > 0 {
      TrimOfPadded(pieces[0], words[0]);
      TrimAllOfPadded(pieces[1..], words[1..]);
      assert words == [words[0]] + words[1..];
    }
  }

  /** A list text whose ',' pieces are padded words has exactly those words as its elements. */
  lemma ElementsOfPadded(s: string, pieces: seq<string>, words: seq<string>)
    requires Split(s, ',') == pieces && AllPadded(pieces, words)
    ensures Elements(s) == words
  {
    TrimAllOfPadded(pieces, words);
  }

  lemma VectorPadded()
    ensures AllPadded(["1", " 2", "3", " 4", " 5"], ["1", "2", "3", "4", "5"])
  {
  }

  lemma VectorElements()
    ensures Elements("1, 2,3, 4, 5") == ["1", "2", "3", "4", "5"]
  {
    VectorText();
    VectorPadded();
    ElementsOfPadded("1, 2,3, 4, 5", ["1", " 2", "3", " 4", " 5"], ["1", "2", "3", "4", "5"]);
  }

  /** "1, 2,3, 4, 5" is split on ',' and trimmed into the numbers 1 to 5. */
  lemma VectorRead()
    ensures ConvertProperty(NumBanana, Vector, "1, 2,3, 4, 5") ==
              Ok([IntValue(1), IntValue(2), IntValue(3), IntValue(4), IntValue(5)])
  {
    VectorElements();
    OneToFiveRead();
  }

  lemma OneToFiveTexts()
    ensures PrintAll([IntValue(1), IntValue(2), IntValue(3), IntValue(4), IntValue(5)]) == ["1", "2", "3", "4", "5"]
  {
    DigitReads(1);
    DigitReads(2);
    DigitReads(3);
    DigitReads(4);
    DigitReads(5);
  }

  lemma JoinOneToFive()
    ensures Join(["1", "2", "3", "4", "5"], ',') == "1,2,3,4,5"
  {
    JoinCons("4", ["5"], ',');
    JoinCons("3", ["4", "5"], ',');
    JoinCons("2", ["3", "4", "5"], ',');
    JoinCons("1", ["2", "3", "4", "5"], ',');
  }

  /** The numbers 1 to 5 print joined with "," and no spaces. */
  lemma VectorPrint()
    ensures PrintValues([IntValue(1), IntValue(2), IntValue(3), IntValue(4), IntValue(5)]) == "1,2,3,4,5"
  {
    OneToFiveTexts();
    JoinOneToFive();
  }

  /** A word that starts with neither a digit nor '-' is not a number. */
  lemma NonNumeralRefused(w: string)
    requires |w| > 0 && !IsDigit(w[0]) && w[0] != '-'
    ensures Convert(NumBanana, w) == Throw(InvalidArgument(BadValue))
  {
  }

  // from_string on std::array<NumBanana, 4>: "1, 2,3, 4" reads as 1 to 4 and prints as "1,2,3,4".

  lemma ArrayText()
    ensures Split("1, 2,3, 4", ',') == ["1", " 2", "3", " 4"]
  {
    JoinCons("3", [" 4"], ',');
    JoinCons(" 2", ["3", " 4"], ',');
    JoinCons("1", [" 2", "3", " 4"], ',');
    SplitOfText("1, 2,3, 4", ["1", " 2", "3", " 4"], ',');
  }

  lemma ArrayPadded()
    ensures AllPadded(["1", " 2", "3", " 4"], ["1", "2", "3", "4"])
  {
  }

  lemma ArrayElements()
    ensures Elements("1, 2,3, 4") == ["1", "2", "3", "4"]
  {
    ArrayText();
    ArrayPadded();
    ElementsOfPadded("1, 2,3, 4", ["1", " 2", "3", " 4"], ["1", "2", "3", "4"]);
  }

  lemma OneToFourRead()
    ensures ConvertAll(NumBanana, ["1", "2", "3", "4"]) ==
              Ok([IntValue(1), IntValue(2), IntValue(3), IntValue(4)])
  {
    DigitReads(1);
    DigitReads(2);
    DigitReads(3);
    DigitReads(4);
    ConvertAllPointwise(NumBanana, ["1", "2", "3", "4"],
                        [IntValue(1), IntValue(2), IntValue(3), IntValue(4)]);
  }

  /** "1, 2,3, 4" fills an array of four with 1 to 4. */
  lemma ArrayRead()
    ensures ConvertProperty(NumBanana, Array(4), "1, 2,3, 4") ==
              Ok([IntValue(1), IntValue(2), IntValue(3), IntValue(4)])
  {
    ArrayElements();
    OneToFourRead();
  }

  lemma OneToFourTexts()
    ensures PrintAll([IntValue(1), IntValue(2), IntValue(3), IntValue(4)]) == ["1", "2", "3", "4"]
  {
    DigitReads(1);
    DigitReads(2);
    DigitReads(3);
    DigitReads(4);
  }

  lemma JoinOneToFour()
    ensures Join(["1", "2", "3", "4"], ',') == "1,2,3,4"
  {
    JoinCons("3", ["4"], ',');
    JoinCons("2", ["3", "4"], ',');
    JoinCons("1", ["2", "3", "4"], ',');
  }

  /** The array 1 to 4 prints as "1,2,3,4". */
  lemma ArrayPrint()
    ensures PrintValues([IntValue(1), IntValue(2), IntValue(3), IntValue(4)]) == "1,2,3,4"
  {
    OneToFourTexts();
    JoinOneToFour();
  }

  // An array of four refuses three or five elements.

  lemma ThreeElementsText()
    ensures Split("1, 2, 3", ',') == ["1", " 2", " 3"]
  {
    JoinCons(" 2", [" 3"], ',');
    JoinCons("1", [" 2", " 3"], ',');
    SplitOfText("1, 2, 3", ["1", " 2", " 3"], ',');
  }

  lemma FiveElementsText()
    ensures Split("1, 2, 3,4,5", ',') == ["1", " 2", " 3", "4", "5"]
  {
    JoinCons("4", ["5"], ',');
    JoinCons(" 3", ["4", "5"], ',');
    JoinCons(" 2", [" 3", "4", "5"], ',');
    JoinCons("1", [" 2", " 3", "4", "5"], ',');
    SplitOfText("1, 2, 3,4,5", ["1", " 2", " 3", "4", "5"], ',');
  }

  /** "1, 2, 3" and "1, 2, 3,4,5" do not fit an array of four. */
  lemma ArrayLengthRefused()
    ensures ConvertProperty(NumBanana, Array(4), "1, 2, 3") == Throw(InvalidArgument(BadValue))
    ensures ConvertProperty(NumBanana, Array(4), "1, 2, 3,4,5") == Throw(InvalidArgument(BadValue))
  {
    ThreeElementsText();
    FiveElementsText();
  }

  // A list is refused as a whole when one element is not a number or is negative.

  lemma NotValidElementsText()
    ensures Split("1, 2, 3, not_valid", ',') == ["1", " 2", " 3", " not_valid"]
  {
    JoinCons(" 3", [" not_valid"], ',');
    JoinCons(" 2", [" 3", " not_valid"], ',');
    JoinCons("1", [" 2", " 3", " not_valid"], ',');
    SplitOfText("1, 2, 3, not_valid", ["1", " 2", " 3", " not_valid"], ',');
  }

  lemma NotValidElementsPadded()
    ensures AllPadded(["1", " 2", " 3", " not_valid"], ["1", "2", "3", "not_valid"])
  {
  }

  lemma NotValidElements()
    ensures Elements("1, 2, 3, not_valid") == ["1", "2", "3", "not_valid"]
  {
    NotValidElementsText();
    NotValidElementsPadded();
    ElementsOfPadded("1, 2, 3, not_valid", ["1", " 2", " 3", " not_valid"], ["1", "2", "3", "not_valid"]);
  }

  lemma NegativeElementsText()
    ensures Split("1, 2, 3, -1", ',') == ["1", " 2", " 3", " -1"]
  {
    JoinCons(" 3", [" -1"], ',');
    JoinCons(" 2", [" 3", " -1"], ',');
    JoinCons("1", [" 2", " 3", " -1"], ',');
    SplitOfText("1, 2, 3, -1", ["1", " 2", " 3", " -1"], ',');
  }

  lemma NegativeElementsPadded()
    ensures AllPadded(["1", " 2", " 3", " -1"], ["1", "2", "3", "-1"])
  {
  }

  lemma NegativeElements()
    ensures Elements("1, 2, 3, -1") == ["1", "2", "3", "-1"]
  {
    NegativeElementsText();
    NegativeElementsPadded();
    ElementsOfPadded("1, 2, 3, -1", ["1", " 2", " 3", " -1"], ["1", "2", "3", "-1"]);
  }

  /** Reading stops at a bad fourth word after three good ones. */
  lemma FourthWordRefused(w: string)
    requires Convert(NumBanana, w) == Throw(InvalidArgument(BadValue))
    ensures ConvertAll(NumBanana, ["1", "2", "3", w]) == Throw(InvalidArgument(BadValue))
  {
    DigitReads(1);
    DigitReads(2);
    DigitReads(3);
    ConvertAllFirstFailure(NumBanana, ["1", "2", "3", w], 3, InvalidArgument(BadValue));
  }

  lemma MinusOneRefused()
    ensures Convert(NumBanana, "-1") == Throw(InvalidArgument(BadValue))
  {
    assert IntToString(-1) == "-1";
    NumBananaAcceptsNonNegative(-1);
  }

  lemma NotValidRefused()
    ensures Convert(NumBanana, "not_valid") == Throw(InvalidArgument(BadValue))
  {
    NonNumeralRefused("not_valid");
  }

  lemma InvalidRefused()
    ensures Convert(NumBanana, "invalid") == Throw(InvalidArgument(BadValue))
  {
    NonNumeralRefused("invalid");
  }

  /** "1, 2, 3, not_valid" is refused for a vector. */
  lemma VectorNotValidRefused()
    ensures ConvertProperty(NumBanana, Vector, "1, 2, 3, not_valid") == Throw(InvalidArgument(BadValue))
  {
    NotValidElements();
    NotValidRefused();
    FourthWordRefused("not_valid");
  }

  /** "1, 2, 3, -1" is refused for a vector. */
  lemma VectorNegativeRefused()
    ensures ConvertProperty(NumBanana, Vector, "1, 2, 3, -1") == Throw(InvalidArgument(BadValue))
  {
    NegativeElements();
    MinusOneRefused();
    FourthWordRefused("-1");
  }

  lemma InvalidThirdText()
    ensures Split("1, 2, invalid, 4", ',') == ["1", " 2", " invalid", " 4"]
  {
    JoinCons(" invalid", [" 4"], ',');
    JoinCons(" 2", [" invalid", " 4"], ',');
    JoinCons("1", [" 2", " invalid", " 4"], ',');
    SplitOfText("1, 2, invalid, 4", ["1", " 2", " invalid", " 4"], ',');
  }

  lemma InvalidThirdPadded()
    ensures AllPadded(["1", " 2", " invalid", " 4"], ["1", "2", "invalid", "4"])
  {
  }

  lemma InvalidThird()
    ensures Elements("1, 2, invalid, 4") == ["1", "2", "invalid", "4"]
  {
    InvalidThirdText();
    InvalidThirdPadded();
    ElementsOfPadded("1, 2, invalid, 4", ["1", " 2", " invalid", " 4"], ["1", "2", "invalid", "4"]);
  }

  lemma NegativeThirdText()
    ensures Split("1, 2, -1, 4", ',') == ["1", " 2", " -1", " 4"]
  {
    JoinCons(" -1", [" 4"], ',');
    JoinCons(" 2", [" -1", " 4"], ',');
    JoinCons("1", [" 2", " -1", " 4"], ',');
    SplitOfText("1, 2, -1, 4", ["1", " 2", " -1", " 4"], ',');
  }

  lemma NegativeThirdPadded()
    ensures AllPadded(["1", " 2", " -1", " 4"], ["1", "2", "-1", "4"])
  {
  }

  lemma NegativeThird()
    ensures Elements("1, 2, -1, 4") == ["1", "2", "-1", "4"]
  {
    NegativeThirdText();
    NegativeThirdPadded();
    ElementsOfPadded("1, 2, -1, 4", ["1", " 2", " -1", " 4"], ["1", "2", "-1", "4"]);
  }

  /** Reading stops at a bad third word after two good ones. */
  lemma ThirdWordRefused(w: string)
    requires Convert(NumBanana, w) == Throw(InvalidArgument(BadValue))
    ensures ConvertAll(NumBanana, ["1", "2", w, "4"]) == Throw(InvalidArgument(BadValue))
  {
    DigitReads(1);
    DigitReads(2);
    ConvertAllFirstFailure(NumBanana, ["1", "2", w, "4"], 2, InvalidArgument(BadValue));
  }

  /** "1, 2, invalid, 4" is refused for an array of four. */
  lemma ArrayInvalidRefused()
    ensures ConvertProperty(NumBanana, Array(4), "1, 2, invalid, 4") == Throw(InvalidArgument(BadValue))
  {
    InvalidThird();
    InvalidRefused();
    ThirdWordRefused("invalid");
  }

  /** "1, 2, -1, 4" is refused for an array of four. */
  lemma ArrayNegativeRefused()
    ensures ConvertProperty(NumBanana, Array(4), "1, 2, -1, 4") == Throw(InvalidArgument(BadValue))
  {
    NegativeThird();
    MinusOneRefused();
    ThirdWordRefused("-1");
  }
}
