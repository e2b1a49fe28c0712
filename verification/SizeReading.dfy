/** What an action's detected value reads as: `lib/cleanupSize.ts`,
    `lib/actionReading.ts` and the printer in `store/actionRun.ts`.
    A value is a text; other values are read as nothing. */
module SizeReading {
  import opened Options
  import opened Text

  const BYTES_PER_MB := 1048576

  /** `Math.round(bytes / BYTES_PER_MB)`: the nearest whole, halves upwards. */
  function RoundMB(bytes: nat): nat {
    (bytes as real / BYTES_PER_MB as real + 0.5).Floor
  }

  /** `ready|${n} MB`. */
  function Printed(mb: nat): string {
    "ready|" + Numeral(mb) + " MB"
  }

  /** `value.split("|")[1].trim()`. */
  function ParseCleanupSize(value: string): Option<string> {
    if |Split('|', value)| >= 2 then Some(Trim(Split('|', value)[1])) else None
  }

  /** The leading characters of `s` the test accepts. */
  function Run(accept: char -> bool, s: string): (run: string)
    ensures |run| <= |s| && run == s[..|run|]
    ensures forall i :: 0 <= i < |run| ==> accept(run[i])
    ensures |run| < |s| ==> !accept(s[|run|])
  {
    if s != "" && accept(s[0]) then [s[0]] + Run(accept, s[1..]) else ""
  }

  function Digit(): char -> bool {
    c => IsDigit(c)
  }

  function DigitOrDot(): char -> bool {
    c => IsDigit(c) || c == '.'
  }

  /** What digits behind a point come to. */
  function Fraction(digits: string): real
    requires forall i :: 0 <= i < |digits| ==> IsDigit(digits[i])
  {
    if digits == "" then 0.0 else DigitsValue(digits) as real / Power10(|digits|) as real
  }

  /** `parseFloat` of digits and dots; `None` is NaN. */
  function ParseFloat(s: string): Option<real> {
    var whole := Run(Digit(), s);
    var rest := s[|whole|..];
    var fraction := if rest != "" && rest[0] == '.' then Run(Digit(), rest[1..]) else "";
    if whole == "" && fraction == "" then None
    else Some(DigitsValue(whole) as real + Fraction(fraction))
  }

  datatype Size = Unreadable | NotANumber | Megabytes(mb: real)

  /** `/^([\d.]+)\s*(MB|GB)/i` on the size, in megabytes. */
  function ParseSizeToMB(value: string): Size {
    match ParseCleanupSize(value)
    case None => Unreadable
    case Some(s) =>
      var number := Run(DigitOrDot(), s);
      var rest := TrimStart(s[|number|..]);
      if number == "" || |rest| < 2 then Unreadable
      else
        var unit := Lower(rest[..2]);
        if unit != "mb" && unit != "gb" then Unreadable
        else
          match ParseFloat(number)
          case None => NotANumber
          case Some(n) => Megabytes(if unit == "gb" then n * 1024.0 else n)
  }

  datatype Reading = SizeOf(size: string) | OverdueNever | Overdue(days: nat) | Current(days: nat)

  /** `/^(\d+)\s*days?$/`. */
  function ParseDays(payload: string): Option<nat> {
    var digits := Run(Digit(), payload);
    var rest := TrimStart(payload[|digits|..]);
    if digits != "" && (rest == "day" || rest == "days") then Some(DigitsValue(digits)) else None
  }

  /** `value.slice(0, value.indexOf("|"))` and what comes after it. */
  function BeforeBar(value: string): string {
    Split('|', value)[0]
  }

  function AfterBar(value: string): string {
    Join("|", Split('|', value)[1..])
  }

  function Kind(value: string): string {
    Lower(Trim(BeforeBar(value)))
  }

  function ParseActionReading(value: string): Option<Reading> {
    if '|' !in value then None
    else
      var payload := Trim(AfterBar(value));
      if payload == "" then None
      else if Kind(value) == "overdue" then
        if Lower(payload) == "never" then Some(OverdueNever)
        else match ParseDays(payload) case None => None case Some(d) => Some(Overdue(d))
      else if Kind(value) == "ok" then
        match ParseDays(payload) case None => None case Some(d) => Some(Current(d))
      else
        match ParseCleanupSize(value)
        case None => None
        case Some(size) => if size == "" then None else Some(SizeOf(size))
  }

  // ---------------------------------------------------------------------
  // Splitting at bars
  // ---------------------------------------------------------------------

  lemma {:induction false} SplitWithoutBar(s: string)
    requires '|' !in s
    ensures Split('|', s) == [s]
  {
    SplitPrepend('|', s, "");
    assert s + "" == s;
  }

  lemma {:induction false} SplitAtBar(a: string, b: string)
    requires '|' !in a
    ensures Split('|', a + "|" + b) == [a] + Split('|', b)
  {
    var tail := "|" + b;
    assert a + "|" + b == a + tail && tail[1..] == b;
    assert Split('|', tail) == [""] + Split('|', b);
    SplitPrepend('|', a, tail);
    assert a + "" == a;
  }

  lemma {:induction false} SplitCounts(s: string)
    ensures |Split('|', s)| >= 2 <==> '|' in s
  {
    if s != "" {
      SplitCounts(s[1..]);
      assert s == [s[0]] + s[1..];
    }
  }

  /** A value is its kind, a bar and its payload. */
  lemma BarCutsValue(value: string)
    requires '|' in value
    ensures value == BeforeBar(value) + "|" + AfterBar(value)
    ensures '|' !in BeforeBar(value)
  {
    SplitCounts(value);
    SplitThenJoin('|', value);
    assert BeforeBar(value) in Split('|', value);
  }

  // ---------------------------------------------------------------------
  // Round trips
  // ---------------------------------------------------------------------

  lemma {:induction false} RunOf(accept: char -> bool, a: string, b: string)
    requires forall i :: 0 <= i < |a| ==> accept(a[i])
    requires b == "" || !accept(b[0])
    ensures Run(accept, a + b) == a
  {
    if a == "" {
      assert a + b == b;
    } else {
      assert (a + b)[1..] == a[1..] + b;
      RunOf(accept, a[1..], b);
    }
  }

  lemma WholeNumberParses(n: nat)
    ensures ParseFloat(Numeral(n)) == Some(n as real)
  {
    var s := Numeral(n);
    RunOf(Digit(), s, "");
    assert s + "" == s;
    assert s[|s|..] == "";
    NumeralReadsBack(n);
    assert DigitsValue("") == 0;
  }

  lemma NumeralTrims(n: nat, unit: string)
    requires unit != "" && !IsSpace(unit[|unit| - 1])
    ensures Trim(Numeral(n) + " " + unit) == Numeral(n) + " " + unit
  {
    assert IsDigit(Numeral(n)[0]);
    TrimIdentity(Numeral(n) + " " + unit);
  }

  lemma PrintedSplits(n: nat)
    ensures Split('|', Printed(n)) == ["ready", Numeral(n) + " " + "MB"]
  {
    var size := Numeral(n) + " " + "MB";
    assert Printed(n) == "ready" + "|" + size;
    assert forall i :: 0 <= i < |Numeral(n)| ==> IsDigit(Numeral(n)[i]);
    assert '|' !in size && '|' !in "ready";
    SplitAtBar("ready", size);
    SplitWithoutBar(size);
  }

  lemma SizeTextReads(n: nat)
    ensures var size := Numeral(n) + " " + "MB";
            Run(DigitOrDot(), size) == Numeral(n) && TrimStart(size[|Numeral(n)|..]) == "MB"
  {
    var number := Numeral(n);
    assert number + " " + "MB" == number + " MB";
    RunOf(DigitOrDot(), number, " MB");
    assert (number + " MB")[|number|..] == " MB";
    assert " MB"[1..] == "MB";
  }

  /** The printed size parses back to the number printed, for every natural number. */
  lemma PrintedParsesBack(n: nat)
    ensures ParseSizeToMB(Printed(n)) == Megabytes(n as real)
  {
    PrintedSplits(n);
    NumeralTrims(n, "MB");
    SizeTextReads(n);
    assert "MB"[..2] == "MB" && Lower("MB") == "mb";
    WholeNumberParses(n);
  }

  lemma ReadyIsSize(value: string)
    requires BeforeBar(value) == "ready"
    ensures Kind(value) == "ready"
  {
    TrimIdentity("ready");
    assert Lower("ready") == "ready";
  }

  /** It is always classified as a size, and shown as printed. */
  lemma PrintedIsASize(n: nat)
    ensures ParseActionReading(Printed(n)) == Some(SizeOf(Numeral(n) + " MB"))
  {
    var size := Numeral(n) + " " + "MB";
    assert size == Numeral(n) + " MB";
    PrintedSplits(n);
    SplitCounts(Printed(n));
    NumeralTrims(n, "MB");
    assert ["ready", size][1..] == [size];
    assert AfterBar(Printed(n)) == size;
    ReadyIsSize(Printed(n));
  }

  /** The size shown is within half a megabyte of the bytes measured. */
  lemma PrintedIsClose(bytes: nat)
    ensures var shown := ParseSizeToMB(Printed(RoundMB(bytes)));
            && shown.Megabytes?
            && -0.5 < shown.mb - bytes as real / 1048576.0 <= 0.5
  {
    PrintedParsesBack(RoundMB(bytes));
  }

  /** What a row adds to its group: an unreadable one nothing. `None` is NaN. */
  function RowMB(value: string): Option<real> {
    match ParseSizeToMB(value)
    case Unreadable => Some(0.0)
    case NotANumber => None
    case Megabytes(mb) => Some(mb)
  }

  function Total(values: seq<string>): Option<real> {
    if values == [] then Some(0.0)
    else
      var front, last := Total(values[..|values| - 1]), RowMB(values[|values| - 1]);
      if front.Some? && last.Some? then Some(front.value + last.value) else None
  }

  function Largest(values: seq<string>): Option<real> {
    if values == [] then Some(0.0)
    else
      var front, last := Largest(values[..|values| - 1]), RowMB(values[|values| - 1]);
      if front.Some? && last.Some? then Some(if front.value < last.value then last.value else front.value) else None
  }

  /** A group's size: the sum of its rows, or the largest where they reclaim the same bytes. */
  function GroupMB(overlapping: bool, values: seq<string>): Option<real> {
    if overlapping then Largest(values) else Total(values)
  }

  function Bytes(measured: seq<nat>): nat {
    if measured == [] then 0 else Bytes(measured[..|measured| - 1]) + measured[|measured| - 1]
  }

  function MostBytes(measured: seq<nat>): nat {
    if measured == [] then 0
    else
      var front := MostBytes(measured[..|measured| - 1]);
      if front < measured[|measured| - 1] then measured[|measured| - 1] else front
  }

  function InMB(bytes: nat): real {
    bytes as real / BYTES_PER_MB as real
  }

  predicate PrintedFrom(values: seq<string>, measured: seq<nat>) {
    |values| == |measured| && forall i :: 0 <= i < |values| ==> values[i] == Printed(RoundMB(measured[i]))
  }

  lemma {:induction false} TotalIsClose(values: seq<string>, measured: seq<nat>)
    requires PrintedFrom(values, measured)
    ensures Total(values).Some?
    ensures -0.5 * |values| as real <= Total(values).value - InMB(Bytes(measured)) <= 0.5 * |values| as real
  {
    if values != [] {
      var n := |values| - 1;
      TotalIsClose(values[..n], measured[..n]);
      PrintedIsClose(measured[n]);
    }
  }

  lemma {:induction false} LargestIsClose(values: seq<string>, measured: seq<nat>)
    requires PrintedFrom(values, measured)
    ensures Largest(values).Some?
    ensures -0.5 <= Largest(values).value - InMB(MostBytes(measured)) <= 0.5
  {
    if values != [] {
      var n := |values| - 1;
      LargestIsClose(values[..n], measured[..n]);
      PrintedIsClose(measured[n]);
    }
  }

  /** A group of k printed rows is within k/2 megabytes of what its rows hold, or,
      where they reclaim the same bytes, within half a megabyte of the largest. */
  lemma GroupIsClose(overlapping: bool, values: seq<string>, measured: seq<nat>)
    requires PrintedFrom(values, measured)
    ensures GroupMB(overlapping, values).Some?
    ensures var off := GroupMB(overlapping, values).value - InMB(if overlapping then MostBytes(measured) else Bytes(measured));
            var bound := if overlapping then 0.5 else 0.5 * |values| as real;
            -bound <= off <= bound
  {
    if overlapping {
      LargestIsClose(values, measured);
    } else {
      TotalIsClose(values, measured);
    }
  }

  // ---------------------------------------------------------------------
  // A reading names its own kind
  // ---------------------------------------------------------------------

  lemma {:induction false} BlankHasNoBar(s: string)
    requires Blank(s)
    ensures '|' !in s
  {
  }

  /** A size is shown exactly when the kind is no upkeep kind and
      `parseCleanupSize` finds one: an upkeep date is never shown as disk space. */
  lemma SizeExactly(value: string, size: string)
    ensures ParseActionReading(value) == Some(SizeOf(size))
            <==> Kind(value) !in {"overdue", "ok"} && ParseCleanupSize(value) == Some(size) && size != ""
  {
    SplitCounts(value);
    if '|' in value && Trim(AfterBar(value)) == "" {
      var pieces := Split('|', value);
      BarCutsValue(value);
      TrimBlank(AfterBar(value));
      BlankHasNoBar(AfterBar(value));
      SplitAtBar(BeforeBar(value), AfterBar(value));
      SplitWithoutBar(AfterBar(value));
    }
  }

  /** `payload` is an age: digits, white space, and "day" or "days". */
  predicate AgeAt(payload: string, k: int, b: int, d: nat) {
    && 0 < k <= b <= |payload| && AllDigits(payload[..k]) && DigitsValue(payload[..k]) == d
    && Blank(payload[k..b]) && (payload[b..] == "day" || payload[b..] == "days")
  }

  ghost predicate IsAge(payload: string, d: nat) {
    exists k, b :: AgeAt(payload, k, b, d)
  }

  lemma {:induction false} TrimStartOf(white: string, rest: string)
    requires Blank(white) && rest != "" && !IsSpace(rest[0])
    ensures TrimStart(white + rest) == rest
  {
    if white == "" {
      assert white + rest == rest;
    } else {
      assert (white + rest)[1..] == white[1..] + rest;
      TrimStartOf(white[1..], rest);
    }
  }

  lemma {:induction false} TrimStartCuts(s: string) returns (b: nat)
    ensures b <= |s| && Blank(s[..b]) && TrimStart(s) == s[b..]
  {
    b := 0;
    if s != "" && IsSpace(s[0]) {
      b := TrimStartCuts(s[1..]);
      b := b + 1;
      assert s[..b] == [s[0]] + s[1..][..b - 1];
    }
  }

  lemma AgeParses(payload: string, k: nat, b: nat, d: nat)
    requires AgeAt(payload, k, b, d)
    ensures ParseDays(payload) == Some(d)
  {
    var digits, rest := payload[..k], payload[k..];
    assert payload == digits + rest && rest == payload[k..b] + payload[b..];
    assert payload[b..][0] == 'd';
    if b == k {
      assert payload[k..b] == "" && rest == payload[b..];
    } else {
      assert IsSpace(payload[k..b][0]);
    }
    RunOf(Digit(), digits, rest);
    TrimStartOf(payload[k..b], payload[b..]);
  }

  lemma ParsedIsAge(payload: string)
    requires ParseDays(payload).Some?
    ensures IsAge(payload, ParseDays(payload).value)
  {
    var k := |Run(Digit(), payload)|;
    var gap := TrimStartCuts(payload[k..]);
    assert payload[k..][..gap] == payload[k..k + gap] && payload[k..][gap..] == payload[k + gap..];
    assert AgeAt(payload, k, k + gap, ParseDays(payload).value);
  }

  /** Upkeep is overdue since ever exactly when it says "never", for a number of days
      exactly when it says an age, and with anything else is not shown; likewise
      upkeep that is current, which knows no "never". */
  lemma UpkeepExactly(value: string)
    requires Kind(value) in {"overdue", "ok"}
    ensures var payload, reading := Trim(AfterBar(value)), ParseActionReading(value);
            && (reading == Some(OverdueNever) <==> '|' in value && Kind(value) == "overdue" && Lower(payload) == "never")
            && (forall d :: reading == Some(Overdue(d)) <==>
                  '|' in value && Kind(value) == "overdue" && Lower(payload) != "never" && IsAge(payload, d))
            && (forall d :: reading == Some(Current(d)) <==> '|' in value && Kind(value) == "ok" && IsAge(payload, d))
            && (reading.Some? ==> !reading.value.SizeOf?)
  {
    var payload := Trim(AfterBar(value));
    forall d: nat
      ensures IsAge(payload, d) <==> ParseDays(payload) == Some(d)
    {
      if IsAge(payload, d) {
        var k, b :| AgeAt(payload, k, b, d);
        AgeParses(payload, k, b, d);
      }
      if ParseDays(payload) == Some(d) {
        ParsedIsAge(payload);
      }
    }
  }

  /** A size as a row writes it: a whole number, or one with decimals. */
  function NumberText(whole: nat, decimals: string): string {
    if decimals == "" then Numeral(whole) else Numeral(whole) + "." + decimals
  }

  lemma DecimalParses(whole: nat, decimals: string)
    requires AllDigits(decimals)
    ensures ParseFloat(Numeral(whole) + "." + decimals)
            == Some(whole as real + Fraction(decimals))
  {
    var number := Numeral(whole);
    var rest := "." + decimals;
    var s := number + "." + decimals;
    assert s == number + rest;
    RunOf(Digit(), number, rest);
    assert s[|number|..] == rest;
    assert decimals + "" == decimals;
    RunOf(Digit(), decimals, "");
    FloatParts(s, number, decimals);
    NumeralReadsBack(whole);
  }

  lemma FloatParts(s: string, whole: string, decimals: string)
    requires Run(Digit(), s) == whole && AllDigits(whole) && s[|whole|..] == "." + decimals
    requires Run(Digit(), decimals) == decimals && AllDigits(decimals)
    ensures ParseFloat(s) == Some(DigitsValue(whole) as real + Fraction(decimals))
  {
    assert s[|whole|..][1..] == decimals;
  }

  function ValueOf(whole: nat, decimals: string): real
    requires decimals == "" || AllDigits(decimals)
  {
    if decimals == "" then whole as real
    else whole as real + Fraction(decimals)
  }

  lemma NumberTextParses(whole: nat, decimals: string)
    requires decimals == "" || AllDigits(decimals)
    ensures ParseFloat(NumberText(whole, decimals)) == Some(ValueOf(whole, decimals))
    ensures forall i :: 0 <= i < |NumberText(whole, decimals)| ==> DigitOrDot()(NumberText(whole, decimals)[i])
    ensures IsDigit(NumberText(whole, decimals)[0])
  {
    assert IsDigit(Numeral(whole)[0]);
    if decimals == "" {
      WholeNumberParses(whole);
    } else {
      DecimalParses(whole, decimals);
    }
  }

  /** A size reads as its number of megabytes, or 1024 times that in gigabytes,
      whatever its kind, its spacing and the case of its unit. */
  lemma SizesRead(kind: string, whole: nat, decimals: string, gap: string, unit: string)
    requires '|' !in kind && (decimals == "" || AllDigits(decimals)) && Blank(gap)
    requires |unit| == 2 && Lower(unit) in {"mb", "gb"}
    ensures ParseSizeToMB(kind + "|" + (NumberText(whole, decimals) + (gap + unit)))
            == Megabytes(if Lower(unit) == "gb" then ValueOf(whole, decimals) * 1024.0 else ValueOf(whole, decimals))
  {
    var number := NumberText(whole, decimals);
    NumberTextParses(whole, decimals);
    SizeIsCut(kind, number, gap, unit);
    UnitIsRead(number, gap, unit);
    assert number != "";
  }

  lemma SizeIsCut(kind: string, number: string, gap: string, unit: string)
    requires '|' !in kind && number != "" && IsDigit(number[0]) && Blank(gap)
    requires forall i :: 0 <= i < |number| ==> DigitOrDot()(number[i])
    requires |unit| == 2 && Lower(unit) in {"mb", "gb"}
    ensures ParseCleanupSize(kind + "|" + (number + (gap + unit))) == Some(number + (gap + unit))
  {
    var size := number + (gap + unit);
    UnitLetters(unit);
    SizeHasNoBar(number, gap, unit);
    SplitAtBar(kind, size);
    SplitWithoutBar(size);
    assert size[|size| - 1] == unit[1] && size[0] == number[0];
    TrimIdentity(size);
  }

  lemma UnitIsRead(number: string, gap: string, unit: string)
    requires forall i :: 0 <= i < |number| ==> DigitOrDot()(number[i])
    requires |unit| == 2 && Lower(unit) in {"mb", "gb"} && Blank(gap)
    ensures var size := number + (gap + unit);
            Run(DigitOrDot(), size) == number && TrimStart(size[|number|..]) == unit && unit[..2] == unit
  {
    var size := number + (gap + unit);
    UnitLetters(unit);
    assert (gap + unit)[0] == if gap == "" then unit[0] else gap[0];
    RunOf(DigitOrDot(), number, gap + unit);
    assert size[|number|..] == gap + unit;
    TrimStartOf(gap, unit);
  }

  lemma UnitLetters(unit: string)
    requires |unit| == 2 && Lower(unit) in {"mb", "gb"}
    ensures forall i :: 0 <= i < 2 ==> !IsSpace(unit[i]) && !IsDigit(unit[i]) && unit[i] != '.' && unit[i] != '|'
  {
    assert LowerChar(unit[0]) == Lower(unit)[0] && LowerChar(unit[1]) == Lower(unit)[1];
    assert "mb"[0] == 'm' && "gb"[0] == 'g' && "mb"[1] == 'b' && "gb"[1] == 'b';
  }

  lemma SizeHasNoBar(number: string, gap: string, unit: string)
    requires forall i :: 0 <= i < |number| ==> DigitOrDot()(number[i])
    requires Blank(gap) && '|' !in unit
    ensures '|' !in number + (gap + unit)
  {
    BlankHasNoBar(gap);
  }

  /** A row that cannot be read adds nothing to its group. */
  lemma UnreadableAddsNothing(overlapping: bool, values: seq<string>, value: string)
    requires ParseSizeToMB(value) == Unreadable
    ensures GroupMB(overlapping, values + [value]) == GroupMB(overlapping, values)
  {
    var all := values + [value];
    assert all[..|all| - 1] == values;
    LargestIsNotNegative(values);
  }

  lemma {:induction false} LargestIsNotNegative(values: seq<string>)
    ensures Largest(values).Some? ==> Largest(values).value >= 0.0
  {
    if values != [] {
      LargestIsNotNegative(values[..|values| - 1]);
    }
  }

  lemma DaysParse(n: nat)
    ensures ParseDays(Numeral(n) + " days") == Some(n)
  {
    RunOf(Digit(), Numeral(n), " days");
    assert (Numeral(n) + " days")[|Numeral(n)|..] == " days";
    assert " days"[1..] == "days" && TrimStart(" days") == "days";
    NumeralReadsBack(n);
  }

  lemma KindAndPayload(kind: string, payload: string)
    requires kind in {"ok", "overdue"} && '|' !in payload
    ensures '|' in kind + "|" + payload
    ensures Kind(kind + "|" + payload) == kind && AfterBar(kind + "|" + payload) == payload
  {
    assert '|' !in kind;
    SplitAtBar(kind, payload);
    SplitWithoutBar(payload);
    assert [kind, payload][1..] == [payload];
    assert (kind + "|" + payload)[|kind|] == '|';
    TrimIdentity(kind);
    assert Lower("ok") == "ok" && Lower("overdue") == "overdue";
  }

  /** `kind|N days` reads back as that many days of that kind. */
  lemma DaysReadBack(kind: string, n: nat)
    requires kind in {"ok", "overdue"}
    ensures ParseActionReading(kind + "|" + (Numeral(n) + " days"))
            == Some(if kind == "ok" then Current(n) else Overdue(n))
  {
    var payload := Numeral(n) + " days";
    assert payload == Numeral(n) + " " + "days";
    assert forall i :: 0 <= i < |Numeral(n)| ==> IsDigit(Numeral(n)[i]);
    assert '|' !in payload;
    KindAndPayload(kind, payload);
    NumeralTrims(n, "days");
    DaysParse(n);
    assert Lower(payload)[0] == LowerChar(payload[0]) == payload[0] && "never"[0] == 'n';
  }
}
