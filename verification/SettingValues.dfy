/** Comparing and displaying a setting's value, whichever side of the wire it
    came from: `valuesEqual` and `formatSettingValue`. */
module SettingValues {
  import opened Options
  import opened Text

  /** A JSON value. `NotFinite` is NaN or an infinity, `Other` an object or an
      array; both carry what `String` prints for them. */
  datatype Value =
    | Undefined
    | Null
    | Bool(b: bool)
    | Num(n: real)
    | NotFinite(text: string)
    | Str(s: string)
    | Other(text: string)

  /** The two conversions between numbers and text that JavaScript supplies:
      `Number(text)` where it is finite, and `String(number)`. `has` says which
      reals are numbers of the program. */
  datatype Numbers = Numbers(has: real -> bool, parse: string -> Option<real>, show: real -> string)

  predicate ReadsBool(s: string) {
    Lower(Trim(s)) == "true" || Lower(Trim(s)) == "false"
  }

  predicate IsWord(t: string) {
    || t == "Enabled" || t == "Disabled" || t == "-"
    || t == "NaN" || t == "Infinity" || t == "-Infinity"
  }

  /** What the language promises of them: a printed number reads back as itself,
      the words are no numbers, and rounding stays among the numbers. */
  ghost predicate Faithful(js: Numbers) {
    && (forall x :: js.has(x) ==>
          js.parse(js.show(x)) == Some(x) && js.show(x) != "" && Trim(js.show(x)) == js.show(x))
    && (forall t :: js.parse(t).Some? ==> js.has(js.parse(t).value) && !ReadsBool(t) && !IsWord(t))
    && (forall x :: js.has(x) ==> js.has(Round4(x)))
  }

  ghost predicate Scalar(js: Numbers, v: Value) {
    match v
    case Num(n) => js.has(n)
    case NotFinite(t) => t == "NaN" || t == "Infinity" || t == "-Infinity"
    case Undefined => false
    case Null => false
    case Other(_) => false
    case _ => true
  }

  function ToNumber(js: Numbers, v: Value): Option<real> {
    match v
    case Num(n) => Some(n)
    case Str(s) => if Trim(s) == "" then None else js.parse(Trim(s))
    case _ => None
  }

  function ToBool(v: Value): Option<bool> {
    match v
    case Bool(b) => Some(b)
    case Str(s) =>
      if Lower(Trim(s)) == "true" then Some(true) else if Lower(Trim(s)) == "false" then Some(false) else None
    case _ => None
  }

  function StringOf(js: Numbers, v: Value): string {
    match v
    case Undefined => "undefined"
    case Null => "null"
    case Bool(b) => if b then "true" else "false"
    case Num(n) => js.show(n)
    case NotFinite(t) => t
    case Str(s) => s
    case Other(t) => t
  }

  function Abs(x: real): real {
    if x < 0.0 then -x else x
  }

  function ValuesEqual(js: Numbers, a: Value, b: Value): bool {
    if a == Null || a == Undefined || b == Null || b == Undefined then false
    else
      var boolA, boolB := ToBool(a), ToBool(b);
      if boolA.Some? && boolB.Some? then boolA == boolB
      else if boolA.Some? || boolB.Some? then false
      else
        var numA, numB := ToNumber(js, a), ToNumber(js, b);
        if numA.Some? && numB.Some? then Abs(numA.value - numB.value) < 0.001
        else Lower(StringOf(js, a)) == Lower(StringOf(js, b))
  }

  /** `Number(x.toFixed(4))`: four places, halves away from zero. */
  function Round4(x: real): real
    decreases x < 0.0
  {
    if x < 0.0 then -Round4(-x) else (x * 10000.0 + 0.5).Floor as real / 10000.0
  }

  predicate IsInteger(x: real) {
    x.Floor as real == x
  }

  function Format(js: Numbers, v: Value): string {
    match v
    case Undefined => "-"
    case Null => "-"
    case Bool(b) => if b then "Enabled" else "Disabled"
    case _ =>
      var n := ToNumber(js, v);
      if n.Some? then js.show(if IsInteger(n.value) then n.value else Round4(n.value)) else StringOf(js, v)
  }

  // ---- what equality and display come to, value by value -----------------

  /** The value is the switch `on`, or a text that says so. */
  predicate SaysSwitch(v: Value, on: bool) {
    v == Bool(on) || (v.Str? && Lower(Trim(v.s)) == if on then "true" else "false")
  }

  /** The value is the number `x`, or a text with something in it that reads as `x`. */
  predicate SaysNumber(js: Numbers, v: Value, x: real) {
    v == Num(x) || (v.Str? && Trim(v.s) != "" && js.parse(Trim(v.s)) == Some(x))
  }

  predicate SaysNothing(v: Value) {
    v == Null || v == Undefined
  }

  /** The value prints as `text`. */
  predicate SaysText(js: Numbers, v: Value, text: string) {
    || v == Str(text) || v == NotFinite(text) || v == Other(text) || (v.Num? && js.show(v.n) == text)
  }

  /** One letter, in either case. */
  predicate SameLetter(c: char, d: char) {
    c == d || ('A' <= c <= 'Z' && d as int == c as int + 32) || ('A' <= d <= 'Z' && c as int == d as int + 32)
  }

  predicate SameWords(s: string, t: string) {
    |s| == |t| && forall i :: 0 <= i < |s| ==> SameLetter(s[i], t[i])
  }

  lemma LowerExactly(s: string, t: string)
    ensures Lower(s) == Lower(t) <==> SameWords(s, t)
  {
    if Lower(s) == Lower(t) {
      forall i | 0 <= i < |s|
        ensures SameLetter(s[i], t[i])
      {
        assert LowerChar(s[i]) == Lower(s)[i] == Lower(t)[i] == LowerChar(t[i]);
      }
    }
  }

  lemma SwitchIsOne(v: Value, on: bool)
    ensures SaysSwitch(v, on) <==> ToBool(v) == Some(on)
  {
    assert "true"[0] != "false"[0];
  }

  /** Two values are equal exactly when they are the same switch, numbers less than
      a thousandth apart, or, where they are not both numbers, the same text in any
      letter case; nothing equals no value, and no switch anything but a switch. */
  lemma EqualExactly(js: Numbers, a: Value, b: Value)
    ensures SaysNothing(a) || SaysNothing(b) ==> !ValuesEqual(js, a, b)
    ensures forall x, y :: SaysSwitch(a, x) && SaysSwitch(b, y) ==> (ValuesEqual(js, a, b) <==> x == y)
    ensures forall x :: SaysSwitch(a, x) && !SaysSwitch(b, true) && !SaysSwitch(b, false) ==> !ValuesEqual(js, a, b)
    ensures forall y :: SaysSwitch(b, y) && !SaysSwitch(a, true) && !SaysSwitch(a, false) ==> !ValuesEqual(js, a, b)
    ensures NoSwitch(a) && NoSwitch(b) ==>
              forall x, y :: SaysNumber(js, a, x) && SaysNumber(js, b, y) ==>
                (ValuesEqual(js, a, b) <==> -0.001 < x - y < 0.001)
    ensures NoSwitch(a) && NoSwitch(b) && ((forall x :: !SaysNumber(js, a, x)) || (forall y :: !SaysNumber(js, b, y))) ==>
              forall s, t :: SaysText(js, a, s) && SaysText(js, b, t) ==>
                (ValuesEqual(js, a, b) <==> SameWords(s, t))
  {
    SwitchesRead(a);
    SwitchesRead(b);
    NumbersRead(js, a);
    NumbersRead(js, b);
    forall s, t
      ensures Lower(s) == Lower(t) <==> SameWords(s, t)
    {
      LowerExactly(s, t);
    }
  }

  predicate NoSwitch(v: Value) {
    !SaysNothing(v) && !SaysSwitch(v, true) && !SaysSwitch(v, false)
  }

  lemma SwitchesRead(v: Value)
    ensures forall on :: SaysSwitch(v, on) <==> ToBool(v) == Some(on)
  {
    SwitchIsOne(v, true);
    SwitchIsOne(v, false);
  }

  lemma NumbersRead(js: Numbers, v: Value)
    ensures forall x :: SaysNumber(js, v, x) <==> ToNumber(js, v) == Some(x)
  {
  }

  /** `k` ten-thousandths are nearest to `x`, a half going away from zero. */
  predicate Nearest(x: real, k: int) {
    var off := x * 10000.0 - k as real;
    -0.5 <= off <= 0.5 && (off == 0.5 ==> x < 0.0) && (off == -0.5 ==> x > 0.0)
  }

  lemma RoundsToNearest(x: real) returns (k: int)
    ensures Nearest(x, k) && Round4(x) == k as real / 10000.0
    decreases x < 0.0
  {
    if x < 0.0 {
      k := RoundsToNearest(-x);
      k := -k;
    } else {
      k := (x * 10000.0 + 0.5).Floor;
    }
  }

  /** What every value is displayed as. */
  lemma FormatExactly(js: Numbers, v: Value)
    ensures SaysNothing(v) ==> Format(js, v) == "-"
    ensures v == Bool(true) ==> Format(js, v) == "Enabled"
    ensures v == Bool(false) ==> Format(js, v) == "Disabled"
    ensures forall x :: SaysNumber(js, v, x) && x.Floor as real == x ==> Format(js, v) == js.show(x)
    ensures forall x :: SaysNumber(js, v, x) && x.Floor as real != x ==>
              exists k: int :: Nearest(x, k) && Format(js, v) == js.show(k as real / 10000.0)
    ensures (forall x :: !SaysNumber(js, v, x)) ==> forall t :: SaysText(js, v, t) ==> Format(js, v) == t
  {
    NumbersRead(js, v);
    forall x | SaysNumber(js, v, x) && x.Floor as real != x
      ensures exists k: int :: Nearest(x, k) && Format(js, v) == js.show(k as real / 10000.0)
    {
      var k := RoundsToNearest(x);
    }
  }

  lemma EqualIsSymmetric(js: Numbers, a: Value, b: Value)
    ensures ValuesEqual(js, a, b) == ValuesEqual(js, b, a)
  {
  }

  lemma EqualIsReflexiveExactly(js: Numbers, v: Value)
    ensures ValuesEqual(js, v, v) <==> v != Null && v != Undefined
  {
  }

  lemma Round4Near(x: real)
    ensures Abs(x - Round4(x)) <= 0.00005
    decreases x < 0.0
  {
    if x < 0.0 {
      Round4Near(-x);
    }
  }

  lemma Round4Idempotent(x: real)
    ensures Round4(Round4(x)) == Round4(x)
    decreases x < 0.0
  {
    if x < 0.0 {
      Round4Idempotent(-x);
      if Round4(-x) > 0.0 {
        assert Round4(Round4(x)) == -Round4(-Round4(x));
      } else {
        assert Round4(-x) == 0.0;
      }
    } else {
      var k := (x * 10000.0 + 0.5).Floor;
      assert k >= 0;
      assert Round4(x) * 10000.0 == k as real;
      assert (k as real + 0.5).Floor == k;
    }
  }

  /** What a displayed value reads back as. */
  lemma DisplayReadsBack(js: Numbers, v: Value)
    requires Faithful(js) && Scalar(js, v) && ToNumber(js, v).Some?
    ensures var x := ToNumber(js, v).value;
            js.parse(Format(js, v)) == Some(if IsInteger(x) then x else Round4(x))
    ensures ToNumber(js, Str(Format(js, v))) == js.parse(Format(js, v))
  {
    var x := ToNumber(js, v).value;
    assert js.has(x);
  }

  /** Two numbers, as numbers or as text, that display alike compare equal. */
  lemma NumbersDisplayedAlikeAreEqual(js: Numbers, a: Value, b: Value)
    requires Faithful(js) && Scalar(js, a) && Scalar(js, b)
    requires ToNumber(js, a).Some? && ToNumber(js, b).Some?
    requires Format(js, a) == Format(js, b)
    ensures ValuesEqual(js, a, b)
  {
    DisplayReadsBack(js, a);
    DisplayReadsBack(js, b);
    Round4Near(ToNumber(js, a).value);
    Round4Near(ToNumber(js, b).value);
    NumbersAreNotBools(js, a);
    NumbersAreNotBools(js, b);
  }

  lemma NumbersAreNotBools(js: Numbers, v: Value)
    requires Faithful(js) && ToNumber(js, v).Some?
    ensures ToBool(v) == None
  {
    if v.Str? {
      assert js.parse(Trim(v.s)).Some?;
      TrimTwice(v.s);
    }
  }

  /** Scalars that display alike compare equal, except that a switch never
      equals a text that happens to spell its label. */
  lemma DisplayedAlikeExactly(js: Numbers, a: Value, b: Value)
    requires Faithful(js) && Scalar(js, a) && Scalar(js, b)
    requires Format(js, a) == Format(js, b)
    ensures ValuesEqual(js, a, b) <==> (a.Bool? <==> b.Bool?)
  {
    if ToNumber(js, a).Some? && ToNumber(js, b).Some? {
      NumbersDisplayedAlikeAreEqual(js, a, b);
    } else if ToNumber(js, a).Some? {
      NumberOrTextNotBoth(js, a, b);
    } else if ToNumber(js, b).Some? {
      NumberOrTextNotBoth(js, b, a);
    } else if a.Bool? && !b.Bool? {
      LabelIsNoSwitch(js, a, b);
    } else if b.Bool? && !a.Bool? {
      LabelIsNoSwitch(js, b, a);
    }
  }

  lemma LabelIsNoSwitch(js: Numbers, switch: Value, text: Value)
    requires Scalar(js, switch) && Scalar(js, text) && switch.Bool? && !text.Bool?
    requires ToNumber(js, switch).None? && ToNumber(js, text).None? && Format(js, switch) == Format(js, text)
    ensures !ValuesEqual(js, switch, text) && !ValuesEqual(js, text, switch)
  {
    assert StringOf(js, text) == "Enabled" || StringOf(js, text) == "Disabled";
    if text.Str? {
      TrimIdentity(text.s);
      assert Lower(text.s)[0] == LowerChar(text.s[0]) != 't';
      assert Lower(text.s)[0] != 'f';
    }
  }

  lemma NumberOrTextNotBoth(js: Numbers, number: Value, other: Value)
    requires Faithful(js) && Scalar(js, number) && Scalar(js, other)
    requires ToNumber(js, number).Some? && ToNumber(js, other).None?
    ensures Format(js, number) != Format(js, other)
  {
    DisplayReadsBack(js, number);
    var shown := Format(js, number);
    assert !IsWord(shown);
  }

  /** Displaying what is displayed changes nothing. */
  lemma FormatIdempotent(js: Numbers, v: Value)
    requires Faithful(js) && (Scalar(js, v) || v == Null || v == Undefined)
    ensures Format(js, Str(Format(js, v))) == Format(js, v)
  {
    var shown := Format(js, v);
    if Scalar(js, v) && ToNumber(js, v).Some? {
      DisplayReadsBack(js, v);
      Round4Idempotent(ToNumber(js, v).value);
    } else if v.Str? {
    } else {
      assert IsWord(shown);
      TrimIdentity(shown);
    }
  }

  /** A switch and the text that spells its label display alike and are unequal. */
  lemma SwitchIsNotItsLabel(js: Numbers)
    requires Faithful(js)
    ensures Format(js, Bool(true)) == Format(js, Str("Enabled"))
    ensures !ValuesEqual(js, Bool(true), Str("Enabled"))
  {
    TrimIdentity("Enabled");
    assert IsWord("Enabled");
    assert Lower("Enabled")[0] == 'e' && "true"[0] == 't' && "false"[0] == 'f';
  }

  // ---- the assumptions about JavaScript can be met -----------------------

  /** The decimals of at most five places, printed without a point when whole and
      with all five places otherwise. */
  function Units(x: real): nat {
    (Abs(x) * 100000.0).Floor
  }

  predicate IsDecimal(x: real) {
    Units(x) as real == Abs(x) * 100000.0
  }

  function ShowUnits(n: nat): string {
    if n % 100000 == 0 then Numeral(n / 100000)
    else Numeral(n / 100000) + "." + Places(n % 100000)
  }

  function Places(n: nat): string {
    Numeral(100000 + n)[1..]
  }

  function ShowDecimal(x: real): string {
    if x < 0.0 then "-" + ShowUnits(Units(x)) else ShowUnits(Units(x))
  }

  function ParseUnits(t: string): Option<nat> {
    if AllDigits(t) then Some(DigitsValue(t) * 100000)
    else if |t| >= 7 && t[|t| - 6] == '.' && AllDigits(t[..|t| - 6]) && AllDigits(t[|t| - 5..]) then
      Some(DigitsValue(t[..|t| - 6]) * 100000 + DigitsValue(t[|t| - 5..]))
    else None
  }

  function ParseDecimal(t: string): Option<real> {
    if ParseUnits(t).Some? then Some(ParseUnits(t).value as real / 100000.0)
    else if t != "" && t[0] == '-' && ParseUnits(t[1..]).Some? then
      Some(-(ParseUnits(t[1..]).value as real / 100000.0))
    else None
  }

  const Decimals := Numbers(x => IsDecimal(x), t => ParseDecimal(t), x => ShowDecimal(x))

  lemma PlacesReadBack(n: nat)
    requires n < 100000
    ensures |Places(n)| == 5 && AllDigits(Places(n)) && DigitsValue(Places(n)) == n
  {
    var s := Numeral(100000 + n);
    assert Power10(5) == 100000;
    NumeralOfPower(100000 + n, 5);
    assert s == ['1'] + s[1..];
    LeadingDigit('1', s[1..]);
    NumeralReadsBack(100000 + n);
  }

  lemma UnitsReadBack(n: nat)
    ensures ParseUnits(ShowUnits(n)) == Some(n)
    ensures ShowUnits(n) != "" && IsDigit(ShowUnits(n)[0]) && IsDigit(ShowUnits(n)[|ShowUnits(n)| - 1])
  {
    var whole := Numeral(n / 100000);
    NumeralReadsBack(n / 100000);
    assert IsDigit(whole[0]) && IsDigit(whole[|whole| - 1]);
    if n % 100000 != 0 {
      var places := Places(n % 100000);
      PlacesReadBack(n % 100000);
      var t := whole + "." + places;
      assert t[|whole|] == '.' && !IsDigit('.') && |t| - 6 == |whole|;
      assert t[..|t| - 6] == whole && t[|t| - 5..] == places;
      assert IsDigit(places[4]) && t[|t| - 1] == places[4];
    }
  }

  lemma ShownDecimalReadsBack(x: real)
    requires IsDecimal(x)
    ensures ParseDecimal(ShowDecimal(x)) == Some(x)
    ensures ShowDecimal(x) != "" && Trim(ShowDecimal(x)) == ShowDecimal(x)
  {
    UnitsReadBack(Units(x));
    SignedReadsBack(ShowUnits(Units(x)), Units(x));
    UnitsOf(x, Units(x));
    TrimIdentity(ShowDecimal(x));
  }

  lemma UnitsOf(x: real, n: nat)
    requires n as real == Abs(x) * 100000.0
    ensures x == if x < 0.0 then -(n as real / 100000.0) else n as real / 100000.0
  {
  }

  lemma SignedReadsBack(s: string, n: nat)
    requires ParseUnits(s) == Some(n) && s != "" && IsDigit(s[0]) && IsDigit(s[|s| - 1])
    ensures ParseDecimal(s) == Some(n as real / 100000.0)
    ensures ParseDecimal("-" + s) == Some(-(n as real / 100000.0))
    ensures !IsSpace(s[0]) && !IsSpace(s[|s| - 1]) && !IsSpace(("-" + s)[0]) && !IsSpace(("-" + s)[|s|])
  {
    assert ("-" + s)[1..] == s && ("-" + s)[0] == '-';
    NoSign(s);
  }

  lemma NoSign(s: string)
    ensures ParseUnits("-" + s) == None
  {
    var t := "-" + s;
    assert t[0] == '-' && !IsDigit('-');
    if |t| >= 7 {
      assert t[..|t| - 6][0] == '-';
    }
  }

  predicate EndsInDigit(t: string) {
    t != "" && IsDigit(t[|t| - 1])
  }

  lemma NoWordEndsInDigit(t: string)
    requires EndsInDigit(t)
    ensures !IsWord(t)
  {
  }

  lemma NoBoolEndsInDigit(t: string)
    requires EndsInDigit(t) && !IsSpace(t[0])
    ensures !ReadsBool(t)
  {
    TrimIdentity(t);
    assert Lower(t)[|t| - 1] == t[|t| - 1];
    assert !EndsInDigit("true") && !EndsInDigit("false");
  }

  lemma ParsedUnitsAreDigits(t: string)
    requires ParseUnits(t).Some?
    ensures EndsInDigit(t) && !IsSpace(t[0])
  {
    if AllDigits(t) {
      assert IsDigit(t[0]) && IsDigit(t[|t| - 1]);
    } else {
      var whole, places := t[..|t| - 6], t[|t| - 5..];
      assert IsDigit(whole[0]) && whole[0] == t[0];
      assert IsDigit(places[|places| - 1]) && places[|places| - 1] == t[|t| - 1];
    }
  }

  lemma ParsedDecimal(t: string)
    requires ParseDecimal(t).Some?
    ensures EndsInDigit(t) && !IsSpace(t[0])
    ensures IsDecimal(ParseDecimal(t).value)
  {
    if ParseUnits(t).Some? {
      ParsedUnitsAreDigits(t);
      UnitsAreDecimal(ParseUnits(t).value);
    } else {
      ParsedUnitsAreDigits(t[1..]);
      UnitsAreDecimal(ParseUnits(t[1..]).value);
    }
  }

  lemma UnitsAreDecimal(n: nat)
    ensures IsDecimal(n as real / 100000.0) && IsDecimal(-(n as real / 100000.0))
  {
    assert n as real / 100000.0 * 100000.0 == n as real;
  }

  lemma RoundedIsDecimal(x: real)
    ensures IsDecimal(Round4(x))
    decreases x < 0.0
  {
    if x < 0.0 {
      RoundedIsDecimal(-x);
      assert Abs(Round4(x)) == Abs(Round4(-x));
    } else {
      var k := (x * 10000.0 + 0.5).Floor;
      assert Round4(x) == (10 * k) as real / 100000.0;
      UnitsAreDecimal(10 * k);
    }
  }

  lemma DecimalsAreFaithful()
    ensures Faithful(Decimals)
  {
    forall x | Decimals.has(x)
      ensures Decimals.parse(Decimals.show(x)) == Some(x) && Decimals.show(x) != ""
      ensures Trim(Decimals.show(x)) == Decimals.show(x) && Decimals.has(Round4(x))
    {
      ShownDecimalReadsBack(x);
      RoundedIsDecimal(x);
    }
    forall t | Decimals.parse(t).Some?
      ensures Decimals.has(Decimals.parse(t).value) && !ReadsBool(t) && !IsWord(t)
    {
      ParsedDecimal(t);
      NoWordEndsInDigit(t);
      NoBoolEndsInDigit(t);
    }
  }

  /** Among them, two different numbers that display alike, and so compare equal. */
  lemma TwoNumbersDisplayAlike()
    ensures Scalar(Decimals, Num(1.00001)) && Scalar(Decimals, Num(1.00002))
    ensures Format(Decimals, Num(1.00001)) == Format(Decimals, Num(1.00002))
    ensures ValuesEqual(Decimals, Num(1.00001), Num(1.00002))
  {
    UnitsAreDecimal(100001);
    UnitsAreDecimal(100002);
    RoundToOne();
    SameRounding(Decimals, 1.00001, 1.00002);
    DecimalsAreFaithful();
    NumbersDisplayedAlikeAreEqual(Decimals, Num(1.00001), Num(1.00002));
  }

  lemma RoundToOne()
    ensures Round4(1.00001) == Round4(1.00002) == 1.0
    ensures !IsInteger(1.00001) && !IsInteger(1.00002)
  {
    assert (10000.1 + 0.5).Floor == 10000 && (10000.2 + 0.5).Floor == 10000;
    assert 1.00001.Floor == 1 && 1.00002.Floor == 1;
  }

  lemma SameRounding(js: Numbers, x: real, y: real)
    requires Round4(x) == Round4(y) && !IsInteger(x) && !IsInteger(y)
    ensures Format(js, Num(x)) == Format(js, Num(y))
  {
  }
}
