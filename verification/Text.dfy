/** The string operations fpstune's parsers and printers are built from:
    `split`/`join` on a character, `trim`, `toLowerCase` and decimal numerals.
    White space and letter case are ASCII's. */
module Text {

  predicate IsSpace(c: char) {
    c == ' ' || c == '\t' || c == '\n' || c == '\r' || c == '\U{0B}' || c == '\U{0C}'
  }

  function TrimStart(s: string): string {
    if s != "" && IsSpace(s[0]) then TrimStart(s[1..]) else s
  }

  function TrimEnd(s: string): string {
    if s != "" && IsSpace(s[|s| - 1]) then TrimEnd(s[..|s| - 1]) else s
  }

  function Trim(s: string): string {
    TrimEnd(TrimStart(s))
  }

  /** A string whose ends are not white space is its own trim. */
  lemma TrimIdentity(s: string)
    requires s == "" || (!IsSpace(s[0]) && !IsSpace(s[|s| - 1]))
    ensures Trim(s) == s
  {
  }

  lemma {:induction false} TrimStartFront(s: string)
    ensures TrimStart(s) == "" || !IsSpace(TrimStart(s)[0])
  {
    if s != "" && IsSpace(s[0]) {
      TrimStartFront(s[1..]);
    }
  }

  lemma {:induction false} TrimEndBack(s: string)
    ensures TrimEnd(s) <= s
    ensures TrimEnd(s) == "" || !IsSpace(TrimEnd(s)[|TrimEnd(s)| - 1])
  {
    if s != "" && IsSpace(s[|s| - 1]) {
      TrimEndBack(s[..|s| - 1]);
    }
  }

  /** What is left of a trim has something to read at both ends. */
  lemma TrimEnds(s: string)
    ensures Trim(s) == "" || (!IsSpace(Trim(s)[0]) && !IsSpace(Trim(s)[|Trim(s)| - 1]))
  {
    TrimStartFront(s);
    TrimEndBack(TrimStart(s));
  }

  predicate Blank(s: string) {
    forall i :: 0 <= i < |s| ==> IsSpace(s[i])
  }

  lemma {:induction false} TrimStartBlank(s: string)
    ensures TrimStart(s) == "" <==> Blank(s)
  {
    if s != "" && IsSpace(s[0]) {
      TrimStartBlank(s[1..]);
      assert forall i :: 0 <= i < |s[1..]| ==> s[1..][i] == s[i + 1];
    }
  }

  lemma {:induction false} TrimEndBlank(s: string)
    ensures TrimEnd(s) == "" <==> Blank(s)
  {
    if s != "" && IsSpace(s[|s| - 1]) {
      TrimEndBlank(s[..|s| - 1]);
      assert s == s[..|s| - 1] + [s[|s| - 1]];
    }
  }

  /** Nothing is left of a text when it is white space throughout. */
  lemma TrimBlank(s: string)
    ensures Trim(s) == "" <==> Blank(s)
  {
    TrimStartBlank(s);
    TrimStartFront(s);
    TrimEndBlank(TrimStart(s));
  }

  lemma TrimTwice(s: string)
    ensures Trim(Trim(s)) == Trim(s)
  {
    TrimEnds(s);
    TrimIdentity(Trim(s));
  }

  function LowerChar(c: char): char {
    if 'A' <= c <= 'Z' then c - 'A' + 'a' else c
  }

  function Lower(s: string): (r: string)
    ensures |r| == |s|
    ensures forall i :: 0 <= i < |s| ==> r[i] == LowerChar(s[i])
  {
    seq(|s|, i requires 0 <= i < |s| => LowerChar(s[i]))
  }

  predicate StartsWith(s: string, prefix: string) {
    prefix <= s
  }

  predicate OccursAt(s: string, sub: string, i: int) {
    0 <= i <= |s| - |sub| && s[i..i + |sub|] == sub
  }

  predicate Contains(s: string, sub: string) {
    exists i :: 0 <= i <= |s| && OccursAt(s, sub, i)
  }

  /** `s.split(c)`: the pieces between occurrences of `c`, at least one. */
  function Split(c: char, s: string): (r: seq<string>)
    ensures |r| >= 1
    ensures forall p :: p in r ==> c !in p
  {
    if s == "" then [""]
    else
      var rest := Split(c, s[1..]);
      if s[0] == c then [""] + rest else [[s[0]] + rest[0]] + rest[1..]
  }

  function Join(sep: string, parts: seq<string>): string {
    if |parts| == 0 then ""
    else if |parts| == 1 then parts[0]
    else parts[0] + sep + Join(sep, parts[1..])
  }

  lemma {:induction false} SplitThenJoin(c: char, s: string)
    ensures Join([c], Split(c, s)) == s
  {
    if s != "" {
      SplitThenJoin(c, s[1..]);
      var rest := Split(c, s[1..]);
      if s[0] == c {
        assert ([""] + rest)[1..] == rest;
      } else {
        assert ([[s[0]] + rest[0]] + rest[1..])[1..] == rest[1..];
      }
    }
  }

  lemma {:induction false} SplitPrepend(c: char, a: string, s: string)
    requires c !in a
    ensures Split(c, a + s) == [a + Split(c, s)[0]] + Split(c, s)[1..]
  {
    if a == "" {
      assert a + s == s;
      assert a + Split(c, s)[0] == Split(c, s)[0];
    } else {
      assert (a + s)[1..] == a[1..] + s;
      SplitPrepend(c, a[1..], s);
      assert [a[0]] + (a[1..] + Split(c, s)[0]) == a + Split(c, s)[0];
    }
  }

  /** A separator cuts: what stands on its two sides is split on its own. */
  lemma {:induction false} SplitAcross(c: char, a: string, b: string)
    ensures Split(c, a + [c] + b) == Split(c, a) + Split(c, b)
  {
    if a == "" {
      assert a + [c] + b == [c] + b;
      SplitFirst(c, c, b);
    } else {
      assert a + [c] + b == [a[0]] + (a[1..] + [c] + b);
      SplitFirst(c, a[0], a[1..] + [c] + b);
      assert a == [a[0]] + a[1..];
      SplitFirst(c, a[0], a[1..]);
      SplitAcross(c, a[1..], b);
      WithFirstAcross(c, a[0], Split(c, a[1..]), Split(c, b));
    }
  }

  /** The pieces of a text one character longer in front. */
  function WithFirst(c: char, first: char, pieces: seq<string>): seq<string>
    requires pieces != []
  {
    if first == c then [""] + pieces else [[first] + pieces[0]] + pieces[1..]
  }

  lemma SplitFirst(c: char, first: char, s: string)
    ensures Split(c, [first] + s) == WithFirst(c, first, Split(c, s))
  {
    assert ([first] + s)[1..] == s;
  }

  lemma WithFirstAcross(c: char, first: char, a: seq<string>, b: seq<string>)
    requires a != []
    ensures WithFirst(c, first, a + b) == WithFirst(c, first, a) + b
  {
    assert (a + b)[1..] == a[1..] + b;
  }

  lemma {:induction false} JoinThenSplit(c: char, parts: seq<string>)
    requires parts != [] && forall p :: p in parts ==> c !in p
    ensures Split(c, Join([c], parts)) == parts
  {
    if |parts| == 1 {
      SplitPrepend(c, parts[0], "");
      assert parts[0] + "" == parts[0];
      assert parts == [parts[0]];
    } else {
      var tail := Join([c], parts[1..]);
      JoinThenSplit(c, parts[1..]);
      assert parts[0] + [c] + tail == parts[0] + ([c] + tail);
      SplitPrepend(c, parts[0], [c] + tail);
      assert ([c] + tail)[1..] == tail;
      assert Split(c, [c] + tail) == [""] + Split(c, tail);
      assert parts[0] + "" == parts[0];
      assert parts == [parts[0]] + parts[1..];
    }
  }

  predicate IsDigit(c: char) {
    '0' <= c <= '9'
  }

  predicate AllDigits(s: string) {
    s != "" && forall i :: 0 <= i < |s| ==> IsDigit(s[i])
  }

  /** `String(n)` of a natural number. */
  function Numeral(n: nat): (r: string)
    ensures AllDigits(r)
    decreases n
  {
    if n < 10 then ['0' + n as char] else Numeral(n / 10) + ['0' + (n % 10) as char]
  }

  /** The number a run of decimal digits denotes. */
  function DigitsValue(s: string): nat
    requires forall i :: 0 <= i < |s| ==> IsDigit(s[i])
  {
    if s == "" then 0
    else
      assert IsDigit(s[|s| - 1]);
      10 * DigitsValue(s[..|s| - 1]) + (s[|s| - 1] as int - '0' as int)
  }

  lemma {:induction false} NumeralReadsBack(n: nat)
    ensures DigitsValue(Numeral(n)) == n
  {
    if n < 10 {
      assert Numeral(n)[..0] == "";
    } else {
      NumeralReadsBack(n / 10);
      var s := Numeral(n);
      assert s[..|s| - 1] == Numeral(n / 10);
      assert s[|s| - 1] == '0' + (n % 10) as char;
    }
  }

  function Power10(n: nat): (p: int)
    ensures p >= 1
  {
    if n == 0 then 1 else 10 * Power10(n - 1)
  }

  lemma TenTimes(k: int, p: int)
    ensures 10 * (k * p) == k * (10 * p)
  {
  }

  /** A leading digit counts by the power of ten of what follows it. */
  lemma {:induction false} LeadingDigit(d: char, rest: string)
    requires IsDigit(d) && forall i :: 0 <= i < |rest| ==> IsDigit(rest[i])
    ensures DigitsValue([d] + rest) == (d as int - '0' as int) * Power10(|rest|) + DigitsValue(rest)
  {
    var s := [d] + rest;
    if rest == "" {
      assert s[..|s| - 1] == "";
    } else {
      var front := rest[..|rest| - 1];
      LeadingDigit(d, front);
      assert s[..|s| - 1] == [d] + front && s[|s| - 1] == rest[|rest| - 1];
      TenTimes(d as int - '0' as int, Power10(|front|));
    }
  }

  /** A number from a power of ten up to twice it starts with a one, followed by as
      many digits as the power has zeros. */
  lemma {:induction false} NumeralOfPower(n: nat, k: nat)
    requires Power10(k) <= n < 2 * Power10(k)
    ensures |Numeral(n)| == k + 1 && Numeral(n)[0] == '1'
  {
    if k > 0 {
      NumeralOfPower(n / 10, k - 1);
    }
  }
}
