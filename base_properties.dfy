/**
 * Typed properties of the banana example: how a value is read from text
 * (`from_string`), written back to text (`to_string`) and checked by the
 * property's validator (`isValid`) before it is stored.
 *
 * A property holds one value (`Single`), a `std::vector` of values
 * (`Vector`) or a `std::array` of a fixed length (`Array`); lists are
 * written with ',' between elements.
 */
module BaseProperties {
  import opened Errors
  import opened Text

  // ---------------------------------------------------------------------
  // Values
  // ---------------------------------------------------------------------

  /** The banana kinds of the enum property, in `EnumList` order. */
  datatype Banana = Cavendish | Plantain | Manzano

  /** Canonical name of each banana kind (`EnumStr`). */
  function BananaName(b: Banana): string
  {
    match b
    case Cavendish => "Cavendish"
    case Plantain => "Plantain"
    case Manzano => "Manzano"
  }

  /** A tensor dimension: batch, channel, height, width. */
  datatype Dim = Dim(batch: nat, channel: nat, height: nat, width: nat)

  /** The four axes of `d`, batch first. */
  function Axes(d: Dim): seq<nat>
  {
    [d.batch, d.channel, d.height, d.width]
  }

  /** A stored property value. */
  datatype Value =
    | IntValue(i: int)
    | StrValue(s: string)
    | BoolValue(b: bool)
    | DimValue(d: Dim)
    | EnumValue(e: Banana)

  /** The property classes of the example. */
  datatype Kind =
    | NumBanana          // Property<int>, default 1
    | QualityOfBanana    // Property<std::string>, no default
    | MarkAsGoodBanana   // Property<bool>, default true
    | DimensionOfBanana  // Property<TensorDim>, no default
    | BananaType         // EnumProperty<BananaEnumInfo>, no default

  /** The unique key each property class is loaded by. */
  function Key(k: Kind): string
  {
    match k
    case NumBanana => "num_banana"
    case QualityOfBanana => "quality_banana"
    case MarkAsGoodBanana => "mark_good"
    case DimensionOfBanana => "banana_size"
    case BananaType => "banana_type"
  }

  const INT_MIN: int := -0x8000_0000
  const INT_MAX: int := 0x7fff_ffff

  /** `v` is a value of the C++ type behind property `k`. */
  predicate OfType(k: Kind, v: Value)
  {
    match k
    case NumBanana => v.IntValue? && INT_MIN <= v.i <= INT_MAX
    case QualityOfBanana => v.StrValue?
    case MarkAsGoodBanana => v.BoolValue?
    case DimensionOfBanana =>
      v.DimValue? && v.d.batch > 0 && v.d.channel > 0 && v.d.height > 0 && v.d.width > 0
    case BananaType => v.EnumValue?
  }

  /** The validator (`isValid`) of property `k`; classes without one accept everything. */
  predicate IsValid(k: Kind, v: Value)
    requires OfType(k, v)
  {
    match k
    case NumBanana => v.i >= 0
    case QualityOfBanana => EndsWith(v.s, "good")
    case DimensionOfBanana => v.d.batch == 1
    case _ => true
  }

  /** `v` can be stored in property `k`. */
  predicate Admissible(k: Kind, v: Value)
  {
    OfType(k, v) && IsValid(k, v)
  }

  /** The value a freshly constructed property `k` holds, if any. */
  function Default(k: Kind): Option<Value>
  {
    match k
    case NumBanana => Some(IntValue(1))
    case MarkAsGoodBanana => Some(BoolValue(true))
    case _ => None
  }

  datatype Option<T> = None | Some(value: T)

  /** The default of every property class passes that class's validator. */
  lemma DefaultIsAdmissible(k: Kind)
    ensures Default(k).Some? ==> Admissible(k, Default(k).value)
    ensures Default(k).Some? <==> k == NumBanana || k == MarkAsGoodBanana
  {
  }

  // ---------------------------------------------------------------------
  // Integers
  // ---------------------------------------------------------------------

  /** An integer that must fit the 32-bit `int` of the property. */
  function Int32(i: int): (r: Result<int>)
    ensures r.Ok? <==> INT_MIN <= i <= INT_MAX
    ensures r.Ok? ==> r.value == i
    ensures r.Throw? ==> r.ex == OutOfRange(ValueOutOfRange)
  {
    if INT_MIN <= i <= INT_MAX then Ok(i) else Throw(OutOfRange(ValueOutOfRange))
  }

  /** Decimal text of `i`, with '-' in front of a negative number. */
  function IntToString(i: int): string
  {
    if i < 0 then "-" + NatToString(-i) else NatToString(i)
  }

  /**
   * The exceptions reading a property value can throw: `invalid_argument`
   * for text that does not parse or a value the validator refuses, and
   * `out_of_range` for a number too large for `int`.
   */
  predicate Rejection(x: Exception)
  {
    x == InvalidArgument(BadValue) || x == OutOfRange(ValueOutOfRange)
  }

  /** Reads an optionally negative decimal numeral that fits 32 bits. */
  function ParseInt(s: string): (r: Result<int>)
    ensures r.Throw? ==> Rejection(r.ex)
  {
    if |s| > 0 && s[0] == '-' then
      if IsNumeral(s[1..]) then Int32(-(ParseNat(s[1..]) as int)) else Throw(InvalidArgument(BadValue))
    else if IsNumeral(s) then Int32(ParseNat(s))
    else Throw(InvalidArgument(BadValue))
  }

  /** Every 32-bit integer reads back from its decimal text. */
  lemma ParseIntOfIntToString(i: int)
    requires INT_MIN <= i <= INT_MAX
    ensures ParseInt(IntToString(i)) == Ok(i)
  {
    if i < 0 {
      var s := IntToString(i);
      assert s[1..] == NatToString(-i);
      ParseNatToString(-i);
    } else {
      ParseNatToString(i);
    }
  }

  /** A canonical numeral that reads as an integer is that integer's decimal text. */
  lemma IntToStringOfParseInt(s: string)
    requires IsCanonicalNumeral(s) && ParseInt(s).Ok?
    ensures IntToString(ParseInt(s).value) == s
  {
    NatToStringOfParse(s);
  }

  // ---------------------------------------------------------------------
  // Dimensions
  // ---------------------------------------------------------------------

  /**
   * The dimension built from 1 to 4 axis lengths, listed from the
   * innermost axis outwards and padded with 1s in front (`TensorDim`'s
   * initializer-list constructor).
   */
  function MakeDim(axes: seq<nat>): (r: Result<Dim>)
    ensures r.Ok? <==> 1 <= |axes| <= 4 && forall i :: 0 <= i < |axes| ==> axes[i] > 0
    ensures r.Ok? ==> Axes(r.value) == seq(4 - |axes|, _ => 1) + axes
    ensures r.Throw? ==> r.ex == InvalidArgument(BadValue)
  {
    if 1 <= |axes| <= 4 && forall i :: 0 <= i < |axes| ==> axes[i] > 0 then
      var p := seq(4 - |axes|, _ => 1) + axes;
      assert Axes(Dim(p[0], p[1], p[2], p[3])) == p;
      Ok(Dim(p[0], p[1], p[2], p[3]))
    else Throw(InvalidArgument(BadValue))
  }

  /** The values of the decimal numerals `words`, failing on any other word. */
  function ParseNats(words: seq<string>): (r: Result<seq<nat>>)
    ensures r.Ok? <==> forall i :: 0 <= i < |words| ==> IsNumeral(words[i])
    ensures r.Ok? ==> |r.value| == |words|
    ensures r.Ok? ==> forall i :: 0 <= i < |words| ==> r.value[i] == ParseNat(words[i])
    ensures r.Throw? ==> r.ex == InvalidArgument(BadValue)
  {
    if |words| == 0 then Ok([])
    else if !IsNumeral(words[0]) then Throw(InvalidArgument(BadValue))
    else
      match ParseNats(words[1..])
      case Ok(rest) => Ok([ParseNat(words[0])] + rest)
      case Throw(e) => Throw(e)
  }

  /** Reads "a:b:c:d", or fewer ':'-separated axes padded with 1s in front. */
  function ParseDim(s: string): (r: Result<Dim>)
    ensures r.Ok? ==> r.value.batch > 0 && r.value.channel > 0 && r.value.height > 0 && r.value.width > 0
    ensures r.Throw? ==> r.ex == InvalidArgument(BadValue)
  {
    var axes :- ParseNats(Split(s, ':'));
    var r := MakeDim(axes);
    assert r.Ok? ==> forall i :: 0 <= i < 4 ==> Axes(r.value)[i] > 0;
    r
  }

  /** The decimal texts of `ns`, in order. */
  function NatStrings(ns: seq<nat>): (r: seq<string>)
    ensures |r| == |ns|
    ensures forall i :: 0 <= i < |ns| ==> r[i] == NatToString(ns[i])
  {
    if |ns| == 0 then [] else [NatToString(ns[0])] + NatStrings(ns[1..])
  }

  /** "batch:channel:height:width". */
  function DimToString(d: Dim): string
  {
    Join(NatStrings(Axes(d)), ':')
  }

  /**
   * Reading the ':'-joined numerals of 1 to 4 axis lengths is building
   * the dimension from them: shorter lists are padded with 1s in front.
   */
  lemma ParseDimOfJoin(axes: seq<nat>)
    requires |axes| >= 1
    ensures ParseDim(Join(NatStrings(axes), ':')) == MakeDim(axes)
  {
    var words := NatStrings(axes);
    NumeralsSplitBack(axes);
    ParseNatsOfNatStrings(axes);
    assert ParseNats(Split(Join(words, ':'), ':')) == Ok(axes);
  }

  /** The ':'-joined numerals of `ns` split back into those numerals. */
  lemma NumeralsSplitBack(ns: seq<nat>)
    requires |ns| >= 1
    ensures Split(Join(NatStrings(ns), ':'), ':') == NatStrings(ns)
  {
    var words := NatStrings(ns);
    forall w | w in words ensures ':' !in w {
      var i :| 0 <= i < |words| && words[i] == w;
      assert IsNumeral(w);
    }
    SplitOfJoin(words, ':');
  }

  /** Reading the numerals of `ns` gives `ns` back. */
  lemma ParseNatsOfNatStrings(ns: seq<nat>)
    ensures ParseNats(NatStrings(ns)) == Ok(ns)
  {
    var words := NatStrings(ns);
    forall i | 0 <= i < |ns| ensures IsNumeral(words[i]) && ParseNat(words[i]) == ns[i] {
      ParseNatToString(ns[i]);
    }
    var r := ParseNats(words);
    assert r.Ok?;
    assert r.value == ns;
  }

  /** Every dimension with positive axes reads back from its text. */
  lemma ParseDimOfDimToString(d: Dim)
    requires d.batch > 0 && d.channel > 0 && d.height > 0 && d.width > 0
    ensures ParseDim(DimToString(d)) == Ok(d)
  {
    ParseDimOfJoin(Axes(d));
    var r := MakeDim(Axes(d));
    assert Axes(r.value) == Axes(d);
  }

  // ---------------------------------------------------------------------
  // Enum
  // ---------------------------------------------------------------------

  /** The banana kind whose name equals `s` ignoring case. */
  function ParseBanana(s: string): (r: Result<Banana>)
    ensures r.Throw? ==> r.ex == InvalidArgument(BadValue)
  {
    if EqualsIgnoreCase(s, "Cavendish") then Ok(Cavendish)
    else if EqualsIgnoreCase(s, "Plantain") then Ok(Plantain)
    else if EqualsIgnoreCase(s, "Manzano") then Ok(Manzano)
    else Throw(InvalidArgument(BadValue))
  }

  /** Enum text is read case-insensitively: exactly the spellings of a name. */
  lemma ParseBananaIgnoresCase(s: string, b: Banana)
    ensures ParseBanana(s) == Ok(b) <==> EqualsIgnoreCase(s, BananaName(b))
  {
  }

  /** Every banana kind reads back from its canonical name. */
  lemma ParseBananaOfName(b: Banana)
    ensures ParseBanana(BananaName(b)) == Ok(b)
  {
    ParseBananaIgnoresCase(BananaName(b), b);
  }

  // ---------------------------------------------------------------------
  // One value
  // ---------------------------------------------------------------------

  /** Text of one value (`str_converter::to_string`). */
  function Print(v: Value): string
  {
    match v
    case IntValue(i) => IntToString(i)
    case StrValue(s) => s
    case BoolValue(b) => if b then "true" else "false"
    case DimValue(d) => DimToString(d)
    case EnumValue(e) => BananaName(e)
  }

  /** Value of property type `k` read from `s` (`str_converter::from_string`). */
  function Parse(k: Kind, s: string): (r: Result<Value>)
    ensures r.Ok? ==> OfType(k, r.value)
    ensures r.Throw? ==> Rejection(r.ex)
  {
    match k
    case NumBanana =>
      var i :- ParseInt(s);
      Ok(IntValue(i))
    case QualityOfBanana => Ok(StrValue(s))
    case MarkAsGoodBanana =>
      if s == "true" then Ok(BoolValue(true))
      else if s == "false" then Ok(BoolValue(false))
      else Throw(InvalidArgument(BadValue))
    case DimensionOfBanana =>
      var d :- ParseDim(s);
      Ok(DimValue(d))
    case BananaType =>
      var b :- ParseBanana(s);
      Ok(EnumValue(b))
  }

  /** Every value of the property's type reads back from its text. */
  lemma ParseOfPrint(k: Kind, v: Value)
    requires OfType(k, v)
    ensures Parse(k, Print(v)) == Ok(v)
  {
    match k
    case NumBanana => ParseIntOfIntToString(v.i);
    case QualityOfBanana =>
    case MarkAsGoodBanana =>
    case DimensionOfBanana => ParseDimOfDimToString(v.d);
    case BananaType => ParseBananaOfName(v.e);
  }

  /** A bool property reads exactly the two texts it prints. */
  lemma ParseBoolExactly(s: string, b: bool)
    ensures Parse(MarkAsGoodBanana, s) == Ok(BoolValue(b)) <==> s == Print(BoolValue(b))
  {
  }

  /**
   * `from_string(s, prop)`: the value read from `s`, accepted only when
   * the property's validator accepts it (otherwise `set` throws
   * `invalid_argument`).
   */
  function Convert(k: Kind, s: string): (r: Result<Value>)
    ensures r.Ok? <==> Parse(k, s).Ok? && IsValid(k, Parse(k, s).value)
    ensures r.Ok? ==> Admissible(k, r.value) && r.value == Parse(k, s).value
    ensures Parse(k, s).Ok? && r.Throw? ==> r.ex == InvalidArgument(BadValue)
    ensures r.Throw? ==> Rejection(r.ex)
  {
    var v :- Parse(k, s);
    if IsValid(k, v) then Ok(v) else Throw(InvalidArgument(BadValue))
  }

  /** `NumBanana` accepts exactly the 32-bit numbers that are not negative. */
  lemma NumBananaAcceptsNonNegative(i: int)
    requires INT_MIN <= i <= INT_MAX
    ensures Convert(NumBanana, IntToString(i)).Ok? <==> i >= 0
    ensures i >= 0 ==> Convert(NumBanana, IntToString(i)) == Ok(IntValue(i))
    ensures i < 0 ==> Convert(NumBanana, IntToString(i)) == Throw(InvalidArgument(BadValue))
  {
    ParseIntOfIntToString(i);
  }

  /** `QualityOfBanana` stores its text unchanged, exactly when it ends with "good". */
  lemma QualityAcceptsGood(s: string)
    ensures Convert(QualityOfBanana, s).Ok? <==> EndsWith(s, "good")
    ensures EndsWith(s, "good") ==> Convert(QualityOfBanana, s) == Ok(StrValue(s))
    ensures !EndsWith(s, "good") ==> Convert(QualityOfBanana, s) == Throw(InvalidArgument(BadValue))
  {
  }

  /** `DimensionOfBanana` accepts a dimension exactly when its batch is 1. */
  lemma DimensionAcceptsBatchOne(d: Dim)
    requires d.batch > 0 && d.channel > 0 && d.height > 0 && d.width > 0
    ensures Convert(DimensionOfBanana, DimToString(d)).Ok? <==> d.batch == 1
    ensures d.batch == 1 ==> Convert(DimensionOfBanana, DimToString(d)) == Ok(DimValue(d))
  {
    ParseDimOfDimToString(d);
  }

  // ---------------------------------------------------------------------
  // Lists
  // ---------------------------------------------------------------------

  /** How many values a property holds. */
  datatype Shape = Single | Vector | Array(length: nat)

  /** `n` values fit a property of shape `shape`. */
  predicate Fits(shape: Shape, n: nat)
  {
    match shape
    case Single => n == 1
    case Vector => true
    case Array(len) => n == len
  }

  /** The elements of a list text: split on ',' and trimmed of spaces. */
  function Elements(s: string): (r: seq<string>)
    ensures |r| == |Split(s, ',')|
    ensures forall i :: 0 <= i < |r| ==> r[i] == Trim(Split(s, ',')[i])
  {
    TrimAll(Split(s, ','))
  }

  function TrimAll(words: seq<string>): (r: seq<string>)
    ensures |r| == |words|
    ensures forall i :: 0 <= i < |r| ==> r[i] == Trim(words[i])
  {
    if |words| == 0 then [] else [Trim(words[0])] + TrimAll(words[1..])
  }

  /** Every word converted for property `k`, or the first failure. */
  function ConvertAll(k: Kind, words: seq<string>): (r: Result<seq<Value>>)
    ensures r.Ok? <==> forall i :: 0 <= i < |words| ==> Convert(k, words[i]).Ok?
    ensures r.Ok? ==> |r.value| == |words|
    ensures r.Ok? ==> forall i :: 0 <= i < |words| ==> Convert(k, words[i]) == Ok(r.value[i])
    ensures r.Throw? ==> Rejection(r.ex)
  {
    if |words| == 0 then Ok([])
    else
      match Convert(k, words[0])
      case Throw(e) => Throw(e)
      case Ok(v) =>
        match ConvertAll(k, words[1..])
        case Throw(e) => Throw(e)
        case Ok(rest) => Ok([v] + rest)
  }

  /** Reading a list stops at its first bad element and throws what that element threw. */
  lemma {:induction false} ConvertAllFirstFailure(k: Kind, words: seq<string>, j: nat, e: Exception)
    requires j < |words|
    requires forall i :: 0 <= i < j ==> Convert(k, words[i]).Ok?
    requires Convert(k, words[j]) == Throw(e)
    ensures ConvertAll(k, words) == Throw(e)
  {
    if j > 0 {
      assert forall i :: 0 <= i < j - 1 ==> words[1..][i] == words[i + 1];
      ConvertAllFirstFailure(k, words[1..], j - 1, e);
    }
  }

  /**
   * `from_string` on a property of shape `shape`: one value, or every
   * element of a ',' list, all or nothing.  A fixed-size array needs
   * exactly its length in elements.
   */
  function ConvertProperty(k: Kind, shape: Shape, s: string): (r: Result<seq<Value>>)
    ensures r.Ok? ==> Fits(shape, |r.value|)
    ensures r.Ok? ==> forall i :: 0 <= i < |r.value| ==> Admissible(k, r.value[i])
    ensures shape.Array? && |Elements(s)| != shape.length ==> r == Throw(InvalidArgument(BadValue))
    ensures r.Throw? ==> Rejection(r.ex)
  {
    match shape
    case Single =>
      var v :- Convert(k, s);
      Ok([v])
    case Vector => ConvertAll(k, Elements(s))
    case Array(len) =>
      var words := Elements(s);
      if |words| != len then Throw(InvalidArgument(BadValue)) else ConvertAll(k, words)
  }

  /** The texts of `vs`, in order. */
  function PrintAll(vs: seq<Value>): (r: seq<string>)
    ensures |r| == |vs|
    ensures forall i :: 0 <= i < |vs| ==> r[i] == Print(vs[i])
  {
    if |vs| == 0 then [] else [Print(vs[0])] + PrintAll(vs[1..])
  }

  /** `to_string` of a property: its values joined with "," and no spaces. */
  function PrintValues(vs: seq<Value>): string
  {
    Join(PrintAll(vs), ',')
  }

  /** A text that survives being a list element: no ',' and no space at either end. */
  predicate ListSafe(t: string)
  {
    ',' !in t && Trimmed(t)
  }

  /** Every value of a non-string property prints as a safe list element. */
  lemma PrintIsListSafe(k: Kind, v: Value)
    requires OfType(k, v) && k != QualityOfBanana
    ensures ListSafe(Print(v))
  {
    match k
    case NumBanana =>
      var s := Print(v);
      if v.i < 0 {
        assert s == "-" + NatToString(-v.i);
        assert forall j :: 1 <= j < |s| ==> IsDigit(s[j]);
      }
    case DimensionOfBanana =>
      JoinedNumeralsAreDigitsOrColons(Axes(v.d));
    case _ =>
  }

  /** Every character of ':'-joined numerals is a digit or ':'. */
  lemma {:induction false} JoinedNumeralsAreDigitsOrColons(ns: seq<nat>)
    ensures forall j :: 0 <= j < |Join(NatStrings(ns), ':')| ==>
              IsDigit(Join(NatStrings(ns), ':')[j]) || Join(NatStrings(ns), ':')[j] == ':'
  {
    var words := NatStrings(ns);
    if |ns| > 1 {
      JoinedNumeralsAreDigitsOrColons(ns[1..]);
      assert words[1..] == NatStrings(ns[1..]);
      assert IsNumeral(words[0]);
    } else if |ns| == 1 {
      assert IsNumeral(words[0]);
    }
  }

  /**
   * Printing values a property accepts and reading the text back gives
   * the same values, for every shape: list elements must not contain ','
   * nor begin or end with a space.
   */
  lemma ConvertPropertyOfPrint(k: Kind, shape: Shape, vs: seq<Value>)
    requires Fits(shape, |vs|) && |vs| >= 1
    requires forall i :: 0 <= i < |vs| ==> Admissible(k, vs[i])
    requires shape != Single ==> forall i :: 0 <= i < |vs| ==> ListSafe(Print(vs[i]))
    ensures ConvertProperty(k, shape, PrintValues(vs)) == Ok(vs)
  {
    if shape == Single {
      assert PrintValues(vs) == Print(vs[0]);
      ParseOfPrint(k, vs[0]);
      assert vs == [vs[0]];
    } else {
      ConvertAllOfPrint(k, vs);
    }
  }

  /** The elements of a printed list of safe, accepted values convert back to them. */
  lemma ConvertAllOfPrint(k: Kind, vs: seq<Value>)
    requires |vs| >= 1
    requires forall i :: 0 <= i < |vs| ==> Admissible(k, vs[i]) && ListSafe(Print(vs[i]))
    ensures ConvertAll(k, Elements(PrintValues(vs))) == Ok(vs)
  {
    var texts := PrintAll(vs);
    ElementsOfJoin(texts);
    forall i | 0 <= i < |texts| ensures Convert(k, texts[i]) == Ok(vs[i]) {
      ConvertOfPrint(k, vs[i]);
    }
    ConvertAllPointwise(k, texts, vs);
  }

  /** An accepted value converts back from its text. */
  lemma ConvertOfPrint(k: Kind, v: Value)
    requires Admissible(k, v)
    ensures Convert(k, Print(v)) == Ok(v)
  {
    ParseOfPrint(k, v);
  }

  /** Words that each convert to the matching value convert to the whole list. */
  lemma ConvertAllPointwise(k: Kind, words: seq<string>, vs: seq<Value>)
    requires |words| == |vs|
    requires forall i :: 0 <= i < |words| ==> Convert(k, words[i]) == Ok(vs[i])
    ensures ConvertAll(k, words) == Ok(vs)
  {
    var r := ConvertAll(k, words);
    assert r.Ok?;
    forall i | 0 <= i < |vs| ensures r.value[i] == vs[i] {
      assert Convert(k, words[i]) == Ok(r.value[i]);
    }
    assert r.value == vs;
  }

  /** A ','-joined list of safe texts has exactly those texts as elements. */
  lemma ElementsOfJoin(texts: seq<string>)
    requires |texts| >= 1
    requires forall i :: 0 <= i < |texts| ==> ListSafe(texts[i])
    ensures Elements(Join(texts, ',')) == texts
  {
    forall t | t in texts ensures ',' !in t {
      var i :| 0 <= i < |texts| && texts[i] == t;
    }
    SplitOfJoin(texts, ',');
    forall i | 0 <= i < |texts| ensures Trim(texts[i]) == texts[i] {
      TrimOfTrimmed(texts[i]);
    }
  }

  // ---------------------------------------------------------------------
  // A property object
  // ---------------------------------------------------------------------

  /** The initial contents of a property of kind `k` and shape `shape`. */
  function Initial(k: Kind, shape: Shape): seq<Option<Value>>
  {
    match shape
    case Single => [Default(k)]
    case Vector => []
    case Array(len) => seq(len, _ => Default(k))
  }

  /** Stored form of values that were all given. */
  function Given(vs: seq<Value>): (r: seq<Option<Value>>)
    ensures |r| == |vs|
    ensures forall i :: 0 <= i < |vs| ==> r[i] == Some(vs[i])
  {
    seq(|vs|, i requires 0 <= i < |vs| => Some(vs[i]))
  }

  /** `to_string` of stored contents: fails when a value is missing. */
  function PrintStored(stored: seq<Option<Value>>): (r: Result<string>)
    ensures r.Ok? <==> forall i :: 0 <= i < |stored| ==> stored[i].Some?
    ensures r.Throw? ==> r.ex == InvalidArgument(EmptyProperty)
  {
    if forall i :: 0 <= i < |stored| ==> stored[i].Some? then
      Ok(PrintValues(seq(|stored|, i requires 0 <= i < |stored| => stored[i].value)))
    else Throw(InvalidArgument(EmptyProperty))
  }

  /**
   * One property (or a vector or array of properties of one class).
   * Each slot holds a value or is still empty.
   */
  class Property {
    const kind: Kind
    const shape: Shape
    var values: seq<Option<Value>>

    /** The slots fit the shape and every stored value is one the validator accepts. */
    ghost predicate Valid()
      reads this
    {
      Fits(shape, |values|) &&
      forall i :: 0 <= i < |values| && values[i].Some? ==> Admissible(kind, values[i].value)
    }

    constructor (kind: Kind, shape: Shape)
      ensures Valid()
      ensures this.kind == kind && this.shape == shape
      ensures values == Initial(kind, shape)
    {
      this.kind := kind;
      this.shape := shape;
      values := Initial(kind, shape);
    }

    /** `set(v)`: stores `v` when the validator accepts it, and throws otherwise. */
    method Set(v: Value) returns (o: Outcome)
      requires Valid() && shape == Single && OfType(kind, v)
      modifies this
      ensures Valid()
      ensures IsValid(kind, v) ==> o == Pass && values == [Some(v)]
      ensures !IsValid(kind, v) ==> o == Fail(InvalidArgument(BadValue)) && values == old(values)
    {
      if IsValid(kind, v) {
        values := [Some(v)];
        o := Pass;
      } else {
        o := Fail(InvalidArgument(BadValue));
      }
    }

    /** `from_string(s, prop)`: replaces every slot, or throws and keeps the old contents. */
    method FromString(s: string) returns (o: Outcome)
      requires Valid()
      modifies this
      ensures Valid()
      ensures ConvertProperty(kind, shape, s).Ok? ==>
                o == Pass && values == Given(ConvertProperty(kind, shape, s).value)
      ensures ConvertProperty(kind, shape, s).Throw? ==>
                o == Fail(ConvertProperty(kind, shape, s).ex) && values == old(values)
    {
      var r := ConvertProperty(kind, shape, s);
      if r.Ok? {
        values := Given(r.value);
        o := Pass;
      } else {
        o := Fail(r.ex);
      }
    }

    /** `to_string(prop)`. */
    function ToString(): Result<string>
      reads this
    {
      PrintStored(values)
    }
  }
}
