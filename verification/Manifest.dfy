/** Pointing a winget manifest at a release: `rewrite` in
    `scripts/update_winget_manifest.py`. A text is its lines, cut at '\n'. */
module Manifest {
  import opened Options
  import opened Text

  /** What a manifest says about a release. */
  datatype Release = Release(version: string, checksum: string, date: string)

  /** The lines that say it. */
  datatype Field = Version | Date | Url | Checksum | Notes

  const MARKER := "ManifestType: installer"
  const BANNER := "# TEMPLATE"
  const ZEROS: string := "00000000000000000000000000000000" + "00000000000000000000000000000000"
  const RELEASES: string := "https://github.com/" + "sungurerdim/fpstune" + "/releases/"

  predicate Real(r: Release) {
    r.checksum != ZEROS
  }

  /** No backslash where `re.sub` would read it as an escape. */
  predicate Literal(r: Release) {
    '\\' !in r.version && '\\' !in r.checksum
  }

  predicate OneLine(r: Release) {
    '\n' !in r.version && '\n' !in r.checksum && '\n' !in r.date
  }

  /** Single-line arguments that do not carry the installer marker themselves. */
  predicate Plain(r: Release) {
    && OneLine(r)
    && !Contains(r.version, MARKER) && !Contains(r.checksum, MARKER) && !Contains(r.date, MARKER)
  }

  function Key(f: Field): string {
    match f
    case Version => "PackageVersion:"
    case Date => "ReleaseDate:"
    case Url => "InstallerUrl:"
    case Checksum => "InstallerSha256:"
    case Notes => "ReleaseNotesUrl:"
  }

  predicate MayIndent(f: Field) {
    f.Url? || f.Checksum?
  }

  function Indent(line: string): string {
    if line != "" && IsSpace(line[0]) then [line[0]] + Indent(line[1..]) else ""
  }

  predicate Is(f: Field, line: string) {
    StartsWith(if MayIndent(f) then TrimStart(line) else line, Key(f))
  }

  function Before(f: Field): string {
    Key(f) + match f
    case Version => " "
    case Date => " "
    case Url => " " + RELEASES + "download/v"
    case Checksum => " "
    case Notes => " " + RELEASES + "tag/v"
  }

  function Value(f: Field, r: Release): string {
    match f
    case Date => r.date
    case Checksum => r.checksum
    case _ => r.version
  }

  function After(f: Field): string {
    if f.Url? then "/fpstune.exe" else ""
  }

  function Written(f: Field, line: string, r: Release): string {
    (if MayIndent(f) then Indent(line) else "") + (Before(f) + Value(f, r) + After(f))
  }

  /** One line under `re.sub(r"^key.*$", ..., flags=re.M)`. */
  function Subst(f: Field, r: Release): string -> string {
    line => if Is(f, line) then Written(f, line, r) else line
  }

  function Map(f: string -> string, lines: seq<string>): (r: seq<string>)
    ensures |r| == |lines|
    ensures forall i :: 0 <= i < |lines| ==> r[i] == f(lines[i])
  {
    if lines == [] then [] else [f(lines[0])] + Map(f, lines[1..])
  }

  predicate Has(f: Field, lines: seq<string>) {
    exists l :: l in lines && Is(f, l)
  }

  function DateLine(r: Release): string {
    Written(Date, "", r)
  }

  /** The date under the first version line. */
  function Insert(lines: seq<string>, date: string): seq<string> {
    if lines == [] then []
    else if Is(Version, lines[0]) then [lines[0], date] + lines[1..]
    else [lines[0]] + Insert(lines[1..], date)
  }

  function Dated(lines: seq<string>, r: Release): seq<string> {
    if Has(Date, lines) then Map(Subst(Date, r), lines) else Insert(lines, DateLine(r))
  }

  predicate Hash(line: string) {
    line != "" && line[0] == '#'
  }

  function DropHashes(lines: seq<string>): seq<string> {
    if lines != [] && Hash(lines[0]) then DropHashes(lines[1..]) else lines
  }

  /** The text without its banner; nothing left is the empty text. */
  function Body(lines: seq<string>): seq<string> {
    if DropHashes(lines) == [] then [""] else DropHashes(lines)
  }

  // ---------------------------------------------------------------------
  // The rewrite, pass by pass
  // ---------------------------------------------------------------------

  function Sub(f: Field, text: string, r: Release): string {
    Join("\n", Map(Subst(f, r), Split('\n', text)))
  }

  function SetReleaseDate(text: string, r: Release): string {
    if !Contains(text, MARKER) then text else Join("\n", Dated(Split('\n', text), r))
  }

  function DropTemplateBanner(text: string): string {
    if !StartsWith(text, BANNER) then text else Join("\n", Body(Split('\n', text)))
  }

  function InPasses(text: string, r: Release): string {
    var written := Sub(Notes, Sub(Checksum, Sub(Url, SetReleaseDate(Sub(Version, text, r), r), r), r), r);
    if Real(r) then DropTemplateBanner(written) else written
  }

  // ---------------------------------------------------------------------
  // The rewrite in one step
  // ---------------------------------------------------------------------

  /** The marker on a line that is not about to be replaced by a new version. */
  predicate Marked(lines: seq<string>) {
    exists l :: l in lines && !Is(Version, l) && Contains(l, MARKER)
  }

  predicate Bannered(lines: seq<string>) {
    lines != [] && StartsWith(lines[0], BANNER)
  }

  function FieldOf(line: string): (field: Option<Field>)
    ensures field.Some? ==> Is(field.value, line)
    ensures field.None? ==> forall f :: !Is(f, line)
  {
    if Is(Version, line) then Some(Version)
    else if Is(Date, line) then Some(Date)
    else if Is(Url, line) then Some(Url)
    else if Is(Checksum, line) then Some(Checksum)
    else if Is(Notes, line) then Some(Notes)
    else None
  }

  /** A line with its field, of those in `fields`, written anew. */
  function Renewing(fields: set<Field>, r: Release): string -> string {
    line => if FieldOf(line).Some? && FieldOf(line).value in fields then Written(FieldOf(line).value, line, r) else line
  }

  function Renew(r: Release): string -> string {
    Renewing({Version, Url, Checksum, Notes}, r)
  }

  /** Every line renewed, and the date set when `dated`. */
  function Core(lines: seq<string>, dated: bool, r: Release): seq<string> {
    Map(Renew(r), if dated then Dated(lines, r) else lines)
  }

  /** The marker is in the text once the version is written: it stays there, or the
      version itself carries it. */
  predicate MarkedFor(lines: seq<string>, r: Release) {
    Marked(lines) || (Has(Version, lines) && Contains(r.version, MARKER))
  }

  function RewrittenLines(lines: seq<string>, r: Release): seq<string> {
    var whole := Core(lines, MarkedFor(lines, r), r);
    if Real(r) && Bannered(lines) then Body(whole) else whole
  }

  function Rewritten(text: string, r: Release): string {
    Join("\n", RewrittenLines(Split('\n', text), r))
  }

  // ---------------------------------------------------------------------
  // What a rewritten text says, line by line
  // ---------------------------------------------------------------------

  /** A line with `key` at `k`, after nothing but white space. */
  predicate Indented(line: string, k: int, key: string) {
    0 <= k <= |line| && Blank(line[..k]) && StartsWith(line[k..], key)
  }

  /** What each kind of line is left as. */
  predicate LineLeft(was: string, now: string, dated: bool, r: Release) {
    && VersionLeft(was, now, r) && DateLeft(was, now, dated, r) && NotesLeft(was, now, r)
    && UrlLeft(was, now, r) && ChecksumLeft(was, now, r) && (Plainly(was) ==> now == was)
  }

  predicate VersionLeft(was: string, now: string, r: Release) {
    StartsWith(was, "PackageVersion:") ==> now == "PackageVersion: " + r.version
  }

  predicate DateLeft(was: string, now: string, dated: bool, r: Release) {
    StartsWith(was, "ReleaseDate:") ==> now == if dated then "ReleaseDate: " + r.date else was
  }

  predicate NotesLeft(was: string, now: string, r: Release) {
    StartsWith(was, "ReleaseNotesUrl:") ==>
      now == "ReleaseNotesUrl: " + "https://github.com/" + "sungurerdim/fpstune" + "/releases/tag/v" + r.version
  }

  predicate UrlLeft(was: string, now: string, r: Release) {
    forall k :: 0 <= k <= |was| && Indented(was, k, "InstallerUrl:") ==>
      now == was[..k] + "InstallerUrl: " + "https://github.com/" + "sungurerdim/fpstune"
             + "/releases/download/v" + r.version + "/fpstune.exe"
  }

  predicate ChecksumLeft(was: string, now: string, r: Release) {
    forall k :: 0 <= k <= |was| && Indented(was, k, "InstallerSha256:") ==>
      now == was[..k] + "InstallerSha256: " + r.checksum
  }

  /** A line with none of the five keys. */
  predicate Plainly(line: string) {
    && !StartsWith(line, "PackageVersion:") && !StartsWith(line, "ReleaseDate:") && !StartsWith(line, "ReleaseNotesUrl:")
    && (forall k :: 0 <= k <= |line| ==> !Indented(line, k, "InstallerUrl:"))
    && (forall k :: 0 <= k <= |line| ==> !Indented(line, k, "InstallerSha256:"))
  }

  /** The marker is in the text with its version lines written. */
  predicate SaysInstaller(lines: seq<string>, version: string) {
    || (exists l :: l in lines && !StartsWith(l, "PackageVersion:") && Contains(l, "ManifestType: installer"))
    || ((exists l :: l in lines && StartsWith(l, "PackageVersion:")) && Contains(version, "ManifestType: installer"))
  }

  predicate FirstVersion(lines: seq<string>, v: int) {
    && 0 <= v < |lines| && StartsWith(lines[v], "PackageVersion:")
    && forall i :: 0 <= i < v ==> !StartsWith(lines[i], "PackageVersion:")
  }

  predicate AllLeft(was: seq<string>, now: seq<string>, dated: bool, r: Release) {
    |now| == |was| && forall i :: 0 <= i < |was| ==> LineLeft(was[i], now[i], dated, r)
  }

  /** The date is new, under the first version line. */
  predicate DateAdded(was: seq<string>, now: seq<string>, v: int, r: Release) {
    && FirstVersion(was, v) && |now| == |was| + 1
    && now[v + 1] == "ReleaseDate: " + r.date
    && AllLeft(was, now[..v + 1] + now[v + 2..], true, r)
  }

  /** The lines below the banner: a date is added when one is due, none is there
      and there is a version to put it under. */
  predicate Updated(was: seq<string>, now: seq<string>, dated: bool, r: Release) {
    if dated && (forall l :: l in was ==> !StartsWith(l, "ReleaseDate:"))
             && (exists l :: l in was && StartsWith(l, "PackageVersion:"))
    then exists v :: 0 <= v < |was| && DateAdded(was, now, v, r)
    else AllLeft(was, now, dated, r)
  }

  /** The first `d` lines, and no more, are comments. */
  predicate CommentsEnd(lines: seq<string>, d: int) {
    && 0 <= d <= |lines| && (forall i :: 0 <= i < d ==> StartsWith(lines[i], "#"))
    && (d < |lines| ==> !StartsWith(lines[d], "#"))
  }

  predicate AllZeros(checksum: string) {
    |checksum| == 64 && forall i :: 0 <= i < 64 ==> checksum[i] == '0'
  }

  /** Only what stands below the leading comments, which are `d` lines, is left. */
  predicate SaysBelow(was: seq<string>, d: int, now: seq<string>, r: Release) {
    && CommentsEnd(was, d)
    && if d == |was| then now == [""] else Updated(was[d..], now, SaysInstaller(was, r.version), r)
  }

  /** The lines a rewrite leaves: a real checksum takes the leading comments off a
      text that opens with the template banner. */
  predicate Says(was: seq<string>, now: seq<string>, r: Release) {
    if was != [] && StartsWith(was[0], "# TEMPLATE") && !AllZeros(r.checksum)
    then exists d :: 0 <= d <= |was| && SaysBelow(was, d, now, r)
    else Updated(was, now, SaysInstaller(was, r.version), r)
  }

  class ManifestFile {
    var text: string

    /** Six passes over the text; for single-line arguments they come to one
        rewriting of its lines. */
    method Rewrite(r: Release)
      requires Literal(r)
      modifies this
      ensures text == InPasses(old(text), r)
      ensures OneLine(r) ==> text == Rewritten(old(text), r)
      ensures OneLine(r) ==> Says(Split('\n', old(text)), Split('\n', text), r)
    {
      text := Sub(Version, text, r);
      text := SetReleaseDate(text, r);
      text := Sub(Url, text, r);
      text := Sub(Checksum, text, r);
      text := Sub(Notes, text, r);
      if r.checksum != ZEROS {
        text := DropTemplateBanner(text);
      }
      if OneLine(r) {
        PassesAreOneStep(old(text), r);
        RewrittenSays(old(text), r);
      }
    }
  }

  // ---------------------------------------------------------------------
  // Fields
  // ---------------------------------------------------------------------

  lemma {:induction false} IndentThenRest(line: string)
    ensures line == Indent(line) + TrimStart(line)
    ensures TrimStart(line) != "" ==> !IsSpace(TrimStart(line)[0])
    ensures forall i :: 0 <= i < |Indent(line)| ==> IsSpace(Indent(line)[i])
  {
    if line != "" && IsSpace(line[0]) {
      IndentThenRest(line[1..]);
    }
  }

  lemma {:induction false} IndentOf(white: string, rest: string)
    requires forall i :: 0 <= i < |white| ==> IsSpace(white[i])
    requires rest != "" && !IsSpace(rest[0])
    ensures Indent(white + rest) == white && TrimStart(white + rest) == rest
  {
    if white == "" {
      assert white + rest == rest;
    } else {
      assert (white + rest)[1..] == white[1..] + rest;
      IndentOf(white[1..], rest);
    }
  }

  /** What identifies a line's field: the first two letters that tell them apart. */
  lemma KeyChars(f: Field, line: string)
    requires Is(f, line)
    ensures var s := TrimStart(line);
            |s| > 9 && s[0] == Key(f)[0] && s[7] == Key(f)[7] && s[9] == Key(f)[9]
    ensures !MayIndent(f) ==> TrimStart(line) == line
  {
    var s := if MayIndent(f) then TrimStart(line) else line;
    assert |Key(f)| > 9 && s[..|Key(f)|] == Key(f);
    assert s[0] == Key(f)[0] && s[7] == Key(f)[7] && s[9] == Key(f)[9];
  }

  /** A line is at most one field. */
  lemma OneField(f: Field, g: Field, line: string)
    requires Is(f, line) && Is(g, line)
    ensures f == g
  {
    KeyChars(f, line);
    KeyChars(g, line);
  }

  lemma OnlyField(f: Field, line: string)
    requires Is(f, line)
    ensures forall g :: Is(g, line) ==> g == f
  {
    forall g | Is(g, line)
      ensures g == f
    {
      OneField(f, g, line);
    }
  }

  lemma KeyComesFirst(f: Field, v: string, after: string)
    ensures StartsWith(Before(f) + v + after, Key(f)) && !IsSpace((Before(f) + v + after)[0])
  {
    assert (Before(f) + v + after)[..|Key(f)|] == Key(f);
    assert (Before(f) + v + after)[0] == Key(f)[0];
  }

  lemma WrittenIs(f: Field, line: string, r: Release)
    ensures Is(f, Written(f, line, r))
    ensures MayIndent(f) ==> Indent(Written(f, line, r)) == Indent(line)
  {
    var rest := Before(f) + Value(f, r) + After(f);
    KeyComesFirst(f, Value(f, r), After(f));
    if MayIndent(f) {
      IndentThenRest(line);
      IndentOf(Indent(line), rest);
    } else {
      assert "" + rest == rest;
    }
  }

  /** Writing a field keeps every line the field it was. */
  lemma SubstKeeps(f: Field, g: Field, line: string, r: Release)
    ensures Is(g, Subst(f, r)(line)) <==> Is(g, line)
  {
    if Is(f, line) {
      WrittenIs(f, line, r);
      if Is(g, Written(f, line, r)) {
        OneField(f, g, Written(f, line, r));
      }
      if Is(g, line) {
        OneField(f, g, line);
      }
    }
  }

  /** The field's last writer wins. */
  lemma SubstTwice(f: Field, line: string, r1: Release, r2: Release)
    ensures Subst(f, r2)(Subst(f, r1)(line)) == Subst(f, r2)(line)
  {
    if Is(f, line) {
      WrittenIs(f, line, r1);
    }
  }

  lemma FieldOfIs(f: Field, line: string)
    requires Is(f, line)
    ensures FieldOf(line) == Some(f)
  {
    OneField(FieldOf(line).value, f, line);
  }

  lemma RenewingIsSubst(fields: set<Field>, line: string, r: Release)
    ensures FieldOf(line).None? || FieldOf(line).value !in fields ==> Renewing(fields, r)(line) == line
    ensures FieldOf(line).Some? && FieldOf(line).value in fields ==>
              Renewing(fields, r)(line) == Subst(FieldOf(line).value, r)(line)
  {
  }

  lemma RenewingKeeps(fields: set<Field>, g: Field, line: string, r: Release)
    ensures Is(g, Renewing(fields, r)(line)) <==> Is(g, line)
    ensures FieldOf(Renewing(fields, r)(line)) == FieldOf(line)
  {
    RenewingIsSubst(fields, line, r);
    if FieldOf(line).Some? {
      SubstKeeps(FieldOf(line).value, g, line, r);
      SubstKeeps(FieldOf(line).value, FieldOf(line).value, line, r);
      FieldOfIs(FieldOf(line).value, Subst(FieldOf(line).value, r)(line));
    }
  }

  /** The last release written wins. */
  lemma RenewingTwice(fields: set<Field>, line: string, r1: Release, r2: Release)
    ensures Renewing(fields, r2)(Renewing(fields, r1)(line)) == Renewing(fields, r2)(line)
  {
    var once := Renewing(fields, r1)(line);
    RenewingIsSubst(fields, line, r1);
    RenewingIsSubst(fields, line, r2);
    RenewingIsSubst(fields, once, r2);
    if FieldOf(line).Some? {
      RenewingKeeps(fields, FieldOf(line).value, line, r1);
      SubstTwice(FieldOf(line).value, line, r1, r2);
    }
  }

  lemma FieldIsNoHash(f: Field, line: string)
    requires Is(f, line)
    ensures !Hash(line)
  {
    KeyChars(f, line);
    IndentThenRest(line);
  }

  // ---------------------------------------------------------------------
  // Passes that rewrite line by line
  // ---------------------------------------------------------------------

  /** A line function that leaves fields, dates and comments what they were. */
  ghost predicate Keeping(f: string -> string) {
    forall l {:trigger f(l)} :: SameKind(l, f(l))
  }

  predicate SameKind(before: string, after: string) {
    && (forall g :: Is(g, after) <==> Is(g, before))
    && (Is(Date, before) || Hash(before) || before == "" ==> after == before)
    && (Hash(after) <==> Hash(before))
    && ('\n' !in before ==> '\n' !in after)
  }

  lemma {:induction false} IndentHasNoBreak(line: string)
    requires '\n' !in line
    ensures '\n' !in Indent(line)
  {
    if line != "" && IsSpace(line[0]) {
      IndentHasNoBreak(line[1..]);
    }
  }

  lemma WrittenHasNoBreak(f: Field, line: string, r: Release)
    requires '\n' !in line && OneLine(r)
    ensures '\n' !in Written(f, line, r)
  {
    IndentHasNoBreak(line);
    BeforeIsQuiet(f);
  }

  lemma SubstIsKeeping(f: Field, r: Release)
    requires OneLine(r) && f != Date
    ensures Keeping(Subst(f, r))
  {
    forall l
      ensures SameKind(l, Subst(f, r)(l))
    {
      forall g
        ensures Is(g, Subst(f, r)(l)) <==> Is(g, l)
      {
        SubstKeeps(f, g, l, r);
      }
      if Is(f, l) {
        if Is(Date, l) {
          OneField(f, Date, l);
        }
        FieldIsNoHash(f, l);
        KeyChars(f, l);
        SubstKeeps(f, f, l, r);
        FieldIsNoHash(f, Subst(f, r)(l));
        if '\n' !in l {
          WrittenHasNoBreak(f, l, r);
        }
      }
    }
  }

  lemma RenewingIsKeeping(fields: set<Field>, r: Release)
    requires OneLine(r) && Date !in fields
    ensures Keeping(Renewing(fields, r))
  {
    forall l
      ensures SameKind(l, Renewing(fields, r)(l))
    {
      forall g
        ensures Is(g, Renewing(fields, r)(l)) <==> Is(g, l)
      {
        RenewingKeeps(fields, g, l, r);
      }
      RenewingIsSubst(fields, l, r);
      if Is(Date, l) {
        FieldOfIs(Date, l);
      }
      if FieldOf(l).Some? && FieldOf(l).value in fields {
        SubstIsKeeping(FieldOf(l).value, r);
      }
    }
  }

  lemma {:induction false} MapMap(f: string -> string, g: string -> string, h: string -> string, lines: seq<string>)
    requires forall l :: g(f(l)) == h(l)
    ensures Map(g, Map(f, lines)) == Map(h, lines)
  {
  }

  lemma MapHas(f: string -> string, g: Field, lines: seq<string>)
    requires forall l {:trigger f(l)} :: Is(g, f(l)) <==> Is(g, l)
    ensures Has(g, Map(f, lines)) <==> Has(g, lines)
  {
    if l :| l in lines && Is(g, l) {
      var i :| 0 <= i < |lines| && lines[i] == l;
      assert Map(f, lines)[i] == f(l);
    }
  }

  lemma DateLineIsDate(r: Release)
    ensures Is(Date, DateLine(r)) && !Hash(DateLine(r))
    ensures forall g :: Is(g, DateLine(r)) ==> g == Date
  {
    WrittenIs(Date, "", r);
    FieldIsNoHash(Date, DateLine(r));
    forall g | Is(g, DateLine(r))
      ensures g == Date
    {
      OneField(g, Date, DateLine(r));
    }
  }

  lemma {:induction false} MapInsert(f: string -> string, lines: seq<string>, date: string)
    requires f(date) == date
    requires forall l {:trigger f(l)} :: Is(Version, f(l)) <==> Is(Version, l)
    ensures Map(f, Insert(lines, date)) == Insert(Map(f, lines), date)
  {
    if lines != [] {
      var head, rest := lines[0], lines[1..];
      assert Is(Version, f(head)) <==> Is(Version, head);
      if Is(Version, head) {
        assert [head, date] + rest == [head] + ([date] + rest);
        MapCons(f, head, [date] + rest);
        MapCons(f, date, rest);
      } else {
        MapInsert(f, rest, date);
        MapCons(f, head, Insert(rest, date));
      }
    }
  }

  lemma MapCons(f: string -> string, line: string, lines: seq<string>)
    ensures Map(f, [line] + lines) == [f(line)] + Map(f, lines)
  {
    assert ([line] + lines)[1..] == lines;
  }

  lemma KeepingLeavesDates(f: string -> string, line: string, r: Release)
    requires Keeping(f)
    ensures f(Subst(Date, r)(line)) == Subst(Date, r)(f(line))
  {
    assert Is(Date, f(line)) <==> Is(Date, line);
    if Is(Date, line) {
      WrittenIs(Date, line, r);
    }
  }

  lemma MapRedate(f: string -> string, lines: seq<string>, r: Release)
    requires Keeping(f)
    ensures Map(f, Map(Subst(Date, r), lines)) == Map(Subst(Date, r), Map(f, lines))
  {
    forall i | 0 <= i < |lines|
      ensures f(Subst(Date, r)(lines[i])) == Subst(Date, r)(f(lines[i]))
    {
      KeepingLeavesDates(f, lines[i], r);
    }
  }

  /** Setting the date and renewing the other fields do not see each other. */
  lemma MapDated(f: string -> string, lines: seq<string>, r: Release)
    requires Keeping(f)
    ensures Map(f, Dated(lines, r)) == Dated(Map(f, lines), r)
    ensures Has(Date, Map(f, lines)) <==> Has(Date, lines)
  {
    MapHas(f, Date, lines);
    MapRedate(f, lines, r);
    DateLineIsDate(r);
    MapInsert(f, lines, DateLine(r));
  }

  // ---------------------------------------------------------------------
  // The six passes are the one step
  // ---------------------------------------------------------------------

  predicate Unbroken(lines: seq<string>) {
    lines != [] && forall l :: l in lines ==> '\n' !in l
  }

  lemma MapUnbroken(f: string -> string, lines: seq<string>)
    requires Keeping(f) && Unbroken(lines)
    ensures Unbroken(Map(f, lines))
    ensures Split('\n', Join("\n", Map(f, lines))) == Map(f, lines)
  {
    JoinThenSplit('\n', Map(f, lines));
  }

  lemma OccurrenceCovers(s: string, m: string, i: int)
    requires OccursAt(s, m, i)
    ensures forall p :: i <= p < i + |m| ==> s[p] in m
  {
    forall p | i <= p < i + |m|
      ensures s[p] in m
    {
      assert m[p - i] == s[i..i + |m|][p - i];
    }
  }

  lemma ContainsAcross(a: string, b: string, m: string)
    requires '\n' !in m && m != ""
    ensures Contains(a + "\n" + b, m) <==> Contains(a, m) || Contains(b, m)
  {
    var s := a + "\n" + b;
    if i :| 0 <= i <= |s| && OccursAt(s, m, i) {
      OccurrenceCovers(s, m, i);
      assert s[|a|] == '\n';
      if i + |m| <= |a| {
        OccursWithin("", a, "\n" + b, m, i);
        assert "" + a + ("\n" + b) == s;
      } else if i > |a| {
        OccursWithin(a + "\n", b, "", m, i - |a| - 1);
        assert a + "\n" + b + "" == s;
      } else {
        assert false;
      }
    }
    if i :| 0 <= i <= |a| && OccursAt(a, m, i) {
      OccursWithin("", a, "\n" + b, m, i);
      assert "" + a + ("\n" + b) == s;
    }
    if i :| 0 <= i <= |b| && OccursAt(b, m, i) {
      OccursWithin(a + "\n", b, "", m, i);
      assert a + "\n" + b + "" == s;
    }
  }

  /** A piece of a middle part is a piece of the whole, that much further on. */
  lemma OccursWithin(before: string, middle: string, after: string, m: string, i: nat)
    requires i + |m| <= |middle|
    ensures OccursAt(before + middle + after, m, |before| + i) <==> OccursAt(middle, m, i)
  {
    var s := before + middle + after;
    assert s[|before| + i..|before| + i + |m|] == middle[i..i + |m|];
  }

  /** A single-line piece of a text is a piece of one of its lines. */
  lemma {:induction false} ContainsJoin(lines: seq<string>, m: string)
    requires lines != [] && '\n' !in m && m != ""
    ensures Contains(Join("\n", lines), m) <==> exists l :: l in lines && Contains(l, m)
  {
    if |lines| == 1 {
      assert lines == [lines[0]];
    } else {
      ContainsJoin(lines[1..], m);
      ContainsAcross(lines[0], Join("\n", lines[1..]), m);
      assert lines == [lines[0]] + lines[1..];
    }
  }

  /** Text around a value that can take no part in the marker. */
  lemma Quiet(a: string, v: string, b: string)
    requires 'M' !in a && 'M' !in b && (b == "" || b[0] == '/')
    ensures Contains(a + v + b, MARKER) <==> Contains(v, MARKER)
  {
    if i :| 0 <= i <= |v| && OccursAt(v, MARKER, i) {
      OccursWithin(a, v, b, MARKER, i);
    }
    if i :| 0 <= i <= |a + v + b| && OccursAt(a + v + b, MARKER, i) {
      OccursInValue(a, v, b, i);
    }
  }

  lemma OccursInValue(a: string, v: string, b: string, i: nat)
    requires 'M' !in a && 'M' !in b && (b == "" || b[0] == '/')
    requires OccursAt(a + v + b, MARKER, i)
    ensures i >= |a| && OccursAt(v, MARKER, i - |a|)
  {
    var s := a + v + b;
    assert '/' !in MARKER;
    OccurrenceCovers(s, MARKER, i);
    assert s[i] == s[i..i + |MARKER|][0] == 'M';
    assert |a| <= i < |a| + |v|;
    if b != "" {
      assert s[|a| + |v|] == '/';
    }
    assert i + |MARKER| <= |a| + |v|;
    OccursWithin(a, v, b, MARKER, i - |a|);
  }

  lemma ReleasesIsQuiet()
    ensures 'M' !in RELEASES && '\n' !in RELEASES
  {
  }

  lemma KeyIsQuiet(f: Field)
    ensures 'M' !in Key(f) && '\n' !in Key(f)
  {
  }

  lemma BeforeIsQuiet(f: Field)
    ensures 'M' !in Before(f) && '\n' !in Before(f)
  {
    KeyIsQuiet(f);
    ReleasesIsQuiet();
  }

  /** Indenting a quiet piece of text keeps it quiet. */
  lemma IndentIsQuiet(f: Field, line: string)
    ensures 'M' !in (if MayIndent(f) then Indent(line) else "")
  {
    IndentThenRest(line);
  }

  /** A written line carries the installer marker exactly when its value does. */
  lemma WrittenIsQuiet(f: Field, line: string, r: Release)
    ensures Contains(Written(f, line, r), MARKER) <==> Contains(Value(f, r), MARKER)
  {
    var indent := if MayIndent(f) then Indent(line) else "";
    IndentIsQuiet(f, line);
    BeforeIsQuiet(f);
    Quiet(indent + Before(f), Value(f, r), After(f));
    Regroup(indent, Before(f), Value(f, r), After(f));
  }

  lemma Regroup(a: string, b: string, c: string, d: string)
    ensures (a + b) + c + d == a + (b + c + d)
  {
  }

  lemma MarkedAfterVersion(lines: seq<string>, line: string, r: Release)
    requires line in lines
    ensures Contains(Subst(Version, r)(line), MARKER) ==> MarkedFor(lines, r)
  {
    if Is(Version, line) {
      WrittenIsQuiet(Version, line, r);
    }
  }

  lemma MarkedShows(lines: seq<string>, r: Release)
    requires MarkedFor(lines, r)
    ensures exists l :: l in Map(Subst(Version, r), lines) && Contains(l, MARKER)
  {
    var first := Map(Subst(Version, r), lines);
    if l :| l in lines && !Is(Version, l) && Contains(l, MARKER) {
      var i :| 0 <= i < |lines| && lines[i] == l;
      assert first[i] == l;
    } else {
      var l :| l in lines && Is(Version, l);
      var i :| 0 <= i < |lines| && lines[i] == l;
      WrittenIsQuiet(Version, l, r);
      assert first[i] == Written(Version, l, r);
    }
  }

  lemma VersionPass(lines: seq<string>, r: Release)
    requires OneLine(r) && Unbroken(lines)
    ensures Contains(Join("\n", Map(Subst(Version, r), lines)), MARKER) <==> MarkedFor(lines, r)
  {
    var first := Map(Subst(Version, r), lines);
    assert '\n' !in MARKER && MARKER != "";
    ContainsJoin(first, MARKER);
    if MarkedFor(lines, r) {
      MarkedShows(lines, r);
    }
    if l :| l in first && Contains(l, MARKER) {
      var i :| 0 <= i < |first| && first[i] == l;
      MarkedAfterVersion(lines, lines[i], r);
    }
  }

  lemma DatePass(lines: seq<string>, r: Release)
    requires OneLine(r) && Unbroken(lines)
    ensures SetReleaseDate(Join("\n", Map(Subst(Version, r), lines)), r)
            == Join("\n", Map(Subst(Version, r), if MarkedFor(lines, r) then Dated(lines, r) else lines))
  {
    SubstIsKeeping(Version, r);
    VersionPass(lines, r);
    MapUnbroken(Subst(Version, r), lines);
    MapDated(Subst(Version, r), lines, r);
  }

  lemma {:induction false} InsertMembers(lines: seq<string>, date: string)
    ensures forall l :: l in Insert(lines, date) ==> l in lines || l == date
    ensures forall l :: l in lines ==> l in Insert(lines, date)
    ensures |Insert(lines, date)| >= |lines|
  {
    if lines != [] && !Is(Version, lines[0]) {
      InsertMembers(lines[1..], date);
    }
  }

  lemma DatedUnbroken(lines: seq<string>, r: Release)
    requires OneLine(r) && Unbroken(lines)
    ensures Unbroken(Dated(lines, r))
  {
    forall l | '\n' !in l
      ensures '\n' !in Written(Date, l, r)
    {
      WrittenHasNoBreak(Date, l, r);
    }
    InsertMembers(lines, DateLine(r));
  }

  /** A pass for one more field, over lines where others are already written. */
  lemma OneMoreField(f: Field, fields: set<Field>, line: string, r: Release)
    ensures Subst(f, r)(Renewing(fields, r)(line)) == Renewing(fields + {f}, r)(line)
  {
    var once := Renewing(fields, r)(line);
    RenewingIsSubst(fields, line, r);
    RenewingIsSubst(fields + {f}, line, r);
    RenewingKeeps(fields, f, line, r);
    if Is(f, line) {
      FieldOfIs(f, line);
      SubstTwice(f, line, r, r);
    }
  }

  /** The text with some fields already written. */
  function Partly(fields: set<Field>, lines: seq<string>, r: Release): string {
    Join("\n", Map(Renewing(fields, r), lines))
  }

  lemma FieldPass(f: Field, fields: set<Field>, more: set<Field>, lines: seq<string>, r: Release)
    requires OneLine(r) && Unbroken(lines) && Date !in fields && more == fields + {f}
    ensures Sub(f, Partly(fields, lines, r), r) == Partly(more, lines, r)
  {
    RenewingIsKeeping(fields, r);
    MapUnbroken(Renewing(fields, r), lines);
    forall l
      ensures Subst(f, r)(Renewing(fields, r)(l)) == Renewing(more, r)(l)
    {
      OneMoreField(f, fields, l, r);
    }
    MapMap(Renewing(fields, r), Subst(f, r), Renewing(more, r), lines);
  }

  lemma VersionIsOneField(lines: seq<string>, r: Release)
    ensures Join("\n", Map(Subst(Version, r), lines)) == Partly({Version}, lines, r)
  {
    forall i | 0 <= i < |lines|
      ensures Subst(Version, r)(lines[i]) == Renewing({Version}, r)(lines[i])
    {
      RenewingIsSubst({Version}, lines[i], r);
      if Is(Version, lines[i]) {
        FieldOfIs(Version, lines[i]);
      }
    }
  }

  lemma LastPasses(lines: seq<string>, r: Release)
    requires OneLine(r) && Unbroken(lines)
    ensures Sub(Notes, Sub(Checksum, Sub(Url, Partly({Version}, lines, r), r), r), r)
            == Partly({Version, Url, Checksum, Notes}, lines, r)
  {
    FieldPass(Url, {Version}, {Version, Url}, lines, r);
    FieldPass(Checksum, {Version, Url}, {Version, Url, Checksum}, lines, r);
    FieldPass(Notes, {Version, Url, Checksum}, {Version, Url, Checksum, Notes}, lines, r);
  }

  lemma DatedHead(lines: seq<string>, r: Release)
    requires lines != []
    ensures Dated(lines, r) != []
    ensures Hash(Dated(lines, r)[0]) <==> Hash(lines[0])
    ensures Hash(lines[0]) ==> Dated(lines, r)[0] == lines[0]
  {
    DateKeepsHash(r);
  }

  lemma DateKeepsHash(r: Release)
    ensures forall l {:trigger Subst(Date, r)(l)} :: Hash(Subst(Date, r)(l)) <==> Hash(l)
    ensures forall l {:trigger Subst(Date, r)(l)} :: Hash(l) ==> Subst(Date, r)(l) == l
  {
    forall l
      ensures Hash(Subst(Date, r)(l)) <==> Hash(l)
      ensures Hash(l) ==> Subst(Date, r)(l) == l
    {
      if Is(Date, l) {
        WrittenIs(Date, l, r);
        FieldIsNoHash(Date, l);
        FieldIsNoHash(Date, Written(Date, l, r));
      }
    }
  }

  /** A rewriting starts with the banner exactly when the text did. */
  lemma CoreKeepsBanner(lines: seq<string>, dated: bool, r: Release)
    requires OneLine(r) && lines != []
    ensures Core(lines, dated, r) != []
    ensures Bannered(Core(lines, dated, r)) <==> Bannered(lines)
    ensures Hash(Core(lines, dated, r)[0]) <==> Hash(lines[0])
  {
    RenewingIsKeeping({Version, Url, Checksum, Notes}, r);
    DatedHead(lines, r);
    assert BANNER[0] == '#';
  }

  lemma BannerAtHead(lines: seq<string>)
    requires lines != []
    ensures StartsWith(Join("\n", lines), BANNER) <==> Bannered(lines)
  {
    if |lines| > 1 {
      var text := Join("\n", lines);
      if |lines[0]| < |BANNER| {
        assert text[|lines[0]|] == '\n';
        assert BANNER[|lines[0]|] != '\n';
      }
    }
  }

  lemma BannerDrop(lines: seq<string>)
    requires Unbroken(lines)
    ensures DropTemplateBanner(Join("\n", lines)) == Join("\n", if Bannered(lines) then Body(lines) else lines)
  {
    JoinThenSplit('\n', lines);
    BannerAtHead(lines);
  }

  lemma CoreUnbroken(lines: seq<string>, dated: bool, r: Release)
    requires OneLine(r) && Unbroken(lines)
    ensures Unbroken(Core(lines, dated, r))
  {
    RenewingIsKeeping({Version, Url, Checksum, Notes}, r);
    DatedUnbroken(lines, r);
    MapUnbroken(Renew(r), if dated then Dated(lines, r) else lines);
  }

  lemma FieldPasses(lines: seq<string>, r: Release)
    requires OneLine(r) && Unbroken(lines)
    ensures Sub(Notes, Sub(Checksum, Sub(Url, Join("\n", Map(Subst(Version, r), lines)), r), r), r)
            == Join("\n", Map(Renew(r), lines))
  {
    VersionIsOneField(lines, r);
    LastPasses(lines, r);
  }

  lemma PassesAreOneStep(text: string, r: Release)
    requires OneLine(r)
    ensures Rewritten(text, r) == InPasses(text, r)
  {
    var lines := Split('\n', text);
    var marked := MarkedFor(lines, r);
    WrittenInPasses(lines, r);
    BannerStep(lines, marked, r);
  }

  lemma WrittenInPasses(lines: seq<string>, r: Release)
    requires OneLine(r) && Unbroken(lines)
    ensures Sub(Notes, Sub(Checksum, Sub(Url, SetReleaseDate(Join("\n", Map(Subst(Version, r), lines)), r), r), r), r)
            == Join("\n", Core(lines, MarkedFor(lines, r), r))
  {
    DatePass(lines, r);
    DatedUnbroken(lines, r);
    FieldPasses(if MarkedFor(lines, r) then Dated(lines, r) else lines, r);
  }

  lemma BannerStep(lines: seq<string>, marked: bool, r: Release)
    requires OneLine(r) && Unbroken(lines)
    ensures var whole := Core(lines, marked, r);
            DropTemplateBanner(Join("\n", whole)) == Join("\n", if Bannered(lines) then Body(whole) else whole)
  {
    CoreUnbroken(lines, marked, r);
    BannerDrop(Core(lines, marked, r));
    CoreKeepsBanner(lines, marked, r);
  }

  // ---------------------------------------------------------------------
  // The rewriting, line by line
  // ---------------------------------------------------------------------

  lemma BlankIndent(line: string, k: int, key: string)
    requires Indented(line, k, key) && key != "" && !IsSpace(key[0])
    ensures Indent(line) == line[..k] && TrimStart(line) == line[k..]
  {
    assert line[k..][0] == key[0];
    assert line == line[..k] + line[k..];
    IndentOf(line[..k], line[k..]);
  }

  lemma IndentedIs(f: Field, line: string)
    requires MayIndent(f)
    ensures Is(f, line) <==> exists k :: 0 <= k <= |line| && Indented(line, k, Key(f))
    ensures forall k :: Indented(line, k, Key(f)) ==> line[..k] == Indent(line)
  {
    assert Key(f)[0] == 'I';
    forall k | Indented(line, k, Key(f))
      ensures Is(f, line) && line[..k] == Indent(line)
    {
      BlankIndent(line, k, Key(f));
    }
    if Is(f, line) {
      IndentThenRest(line);
      var k := |Indent(line)|;
      assert line[..k] == Indent(line) && line[k..] == TrimStart(line);
      assert Indented(line, k, Key(f));
    }
  }

  /** The written fields, spelled out. */
  lemma WrittenOut(line: string, r: Release)
    ensures Written(Version, line, r) == "PackageVersion: " + r.version
    ensures Written(Date, line, r) == "ReleaseDate: " + r.date
    ensures Written(Checksum, line, r) == Indent(line) + "InstallerSha256: " + r.checksum
  {
    assert "PackageVersion:" + " " == "PackageVersion: ";
    assert "ReleaseDate:" + " " == "ReleaseDate: ";
    assert "InstallerSha256:" + " " == "InstallerSha256: ";
    assert Written(Checksum, line, r) == Indent(line) + ("InstallerSha256: " + r.checksum);
  }

  lemma NotesOut(line: string, r: Release)
    ensures Written(Notes, line, r)
            == "ReleaseNotesUrl: " + "https://github.com/" + "sungurerdim/fpstune" + "/releases/tag/v" + r.version
  {
    assert "ReleaseNotesUrl:" + " " == "ReleaseNotesUrl: ";
    assert "/releases/" + "tag/v" == "/releases/tag/v";
    Associate("ReleaseNotesUrl:", " ", "https://github.com/" + "sungurerdim/fpstune", "/releases/", "tag/v");
  }

  lemma UrlOut(line: string, r: Release)
    ensures Written(Url, line, r)
            == Indent(line) + "InstallerUrl: " + "https://github.com/" + "sungurerdim/fpstune"
               + "/releases/download/v" + r.version + "/fpstune.exe"
  {
    assert "InstallerUrl:" + " " == "InstallerUrl: ";
    assert "/releases/" + "download/v" == "/releases/download/v";
    AllInARow(Indent(line), "InstallerUrl:", " ", "https://github.com/", "sungurerdim/fpstune", "/releases/", "download/v",
              r.version, "/fpstune.exe");
  }

  lemma AllInARow(
      indent: string, a: string, b: string, c: string, d: string, e: string, f: string, value: string, after: string)
    ensures indent + ((a + (b + (c + d + e) + f)) + value + after) == indent + (a + b) + c + d + (e + f) + value + after
  {
    var x := a + (b + (c + d + e) + f);
    assert x == (a + b) + c + d + (e + f);
    assert indent + (x + value + after) == indent + x + value + after;
    assert indent + x == indent + (a + b) + c + d + (e + f);
  }

  lemma Associate(a: string, b: string, c: string, d: string, e: string)
    ensures a + (b + (c + d) + e) == a + b + c + (d + e)
  {
  }

  lemma KeysSpelled(line: string)
    ensures Is(Version, line) <==> StartsWith(line, "PackageVersion:")
    ensures Is(Date, line) <==> StartsWith(line, "ReleaseDate:")
    ensures Is(Notes, line) <==> StartsWith(line, "ReleaseNotesUrl:")
    ensures Is(Url, line) <==> exists k :: 0 <= k <= |line| && Indented(line, k, "InstallerUrl:")
    ensures Is(Checksum, line) <==> exists k :: 0 <= k <= |line| && Indented(line, k, "InstallerSha256:")
  {
    IndentedIs(Url, line);
    IndentedIs(Checksum, line);
  }

  lemma NoKeyIsPlain(line: string)
    ensures Plainly(line) <==> forall f :: !Is(f, line)
  {
    KeysSpelled(line);
    if Plainly(line) {
      forall f
        ensures !Is(f, line)
      {
        assert f == Version || f == Date || f == Url || f == Checksum || f == Notes;
      }
    }
  }

  /** What a line becomes, by its field. */
  predicate BecomesField(f: Field, line: string, now: string, dated: bool, r: Release) {
    Is(f, line) ==> now == if f == Date && !dated then line else Written(f, line, r)
  }

  lemma VersionAndDateLeft(line: string, now: string, dated: bool, r: Release)
    ensures BecomesField(Version, line, now, dated, r) <==> VersionLeft(line, now, r)
    ensures BecomesField(Date, line, now, dated, r) <==> DateLeft(line, now, dated, r)
  {
    KeysSpelled(line);
    WrittenOut(line, r);
  }

  lemma NotesAreLeft(line: string, now: string, dated: bool, r: Release)
    ensures BecomesField(Notes, line, now, dated, r) <==> NotesLeft(line, now, r)
  {
    KeysSpelled(line);
    NotesOut(line, r);
  }

  lemma UrlIsLeft(line: string, now: string, dated: bool, r: Release)
    ensures BecomesField(Url, line, now, dated, r) <==> UrlLeft(line, now, r)
  {
    IndentedIs(Url, line);
    UrlOut(line, r);
  }

  lemma ChecksumIsLeft(line: string, now: string, dated: bool, r: Release)
    ensures BecomesField(Checksum, line, now, dated, r) <==> ChecksumLeft(line, now, r)
  {
    IndentedIs(Checksum, line);
    WrittenOut(line, r);
  }

  predicate Becomes(line: string, now: string, dated: bool, r: Release) {
    && BecomesField(Version, line, now, dated, r) && BecomesField(Date, line, now, dated, r)
    && BecomesField(Notes, line, now, dated, r) && BecomesField(Url, line, now, dated, r)
    && BecomesField(Checksum, line, now, dated, r)
    && (FieldOf(line).None? ==> now == line)
  }

  lemma BecomesIsLeft(line: string, now: string, dated: bool, r: Release)
    ensures Becomes(line, now, dated, r) <==> LineLeft(line, now, dated, r)
  {
    VersionAndDateLeft(line, now, dated, r);
    NotesAreLeft(line, now, dated, r);
    UrlIsLeft(line, now, dated, r);
    ChecksumIsLeft(line, now, dated, r);
    NoKeyIsPlain(line);
  }

  lemma OneBecomes(f: Field, line: string, dated: bool, r: Release)
    requires Is(f, line)
    ensures Becomes(line, if f == Date && !dated then line else Written(f, line, r), dated, r)
  {
    OnlyField(f, line);
    FieldOfIs(f, line);
  }

  lemma LineIsLeft(line: string, r: Release)
    ensures LineLeft(line, Renew(r)(line), false, r)
    ensures LineLeft(line, Renew(r)(Subst(Date, r)(line)), true, r)
    ensures !Is(Date, line) ==> LineLeft(line, Renew(r)(line), true, r)
  {
    LineBecomes(line, r);
    BecomesIsLeft(line, Renew(r)(line), false, r);
    BecomesIsLeft(line, Renew(r)(line), true, r);
    BecomesIsLeft(line, Renew(r)(Subst(Date, r)(line)), true, r);
  }

  lemma RenewWrites(line: string, r: Release)
    ensures FieldOf(line).None? || FieldOf(line) == Some(Date) ==> Renew(r)(line) == line
    ensures FieldOf(line).Some? && FieldOf(line) != Some(Date) ==>
              Renew(r)(line) == Written(FieldOf(line).value, line, r)
  {
    var fields := {Version, Url, Checksum, Notes};
    assert Date !in fields && forall f :: f != Date ==> f in fields;
    RenewingWrites(fields, line, r);
  }

  lemma RenewingWrites(fields: set<Field>, line: string, r: Release)
    ensures FieldOf(line).None? || FieldOf(line).value !in fields ==> Renewing(fields, r)(line) == line
    ensures FieldOf(line).Some? && FieldOf(line).value in fields ==>
              Renewing(fields, r)(line) == Written(FieldOf(line).value, line, r)
  {
  }

  lemma RedateWrites(line: string, r: Release)
    ensures FieldOf(line).None? ==> Renew(r)(Subst(Date, r)(line)) == line
    ensures FieldOf(line).Some? ==> Renew(r)(Subst(Date, r)(line)) == Written(FieldOf(line).value, line, r)
  {
    RenewWrites(line, r);
    if Is(Date, line) {
      FieldOfIs(Date, line);
      WrittenIs(Date, line, r);
      FieldOfIs(Date, Written(Date, line, r));
      RenewWrites(Written(Date, line, r), r);
    }
  }

  lemma LineBecomes(line: string, r: Release)
    ensures Becomes(line, Renew(r)(line), false, r)
    ensures Becomes(line, Renew(r)(Subst(Date, r)(line)), true, r)
    ensures !Is(Date, line) ==> Becomes(line, Renew(r)(line), true, r)
  {
    RenewWrites(line, r);
    RedateWrites(line, r);
    if FieldOf(line).Some? {
      OneBecomes(FieldOf(line).value, line, false, r);
      OneBecomes(FieldOf(line).value, line, true, r);
      OnlyField(FieldOf(line).value, line);
    }
  }

  lemma {:induction false} InsertAt(lines: seq<string>, date: string, v: int)
    requires FirstVersion(lines, v)
    ensures Insert(lines, date) == lines[..v + 1] + [date] + lines[v + 1..]
  {
    if v > 0 {
      assert forall i :: 0 <= i < v - 1 ==> lines[1..][i] == lines[i + 1];
      assert lines[1..][v - 1] == lines[v];
      InsertAt(lines[1..], date, v - 1);
      assert [lines[0]] + lines[1..][..v] == lines[..v + 1];
      assert lines[1..][v..] == lines[v + 1..];
    }
  }

  lemma {:induction false} InsertNowhere(lines: seq<string>, date: string)
    requires forall l :: l in lines ==> !StartsWith(l, "PackageVersion:")
    ensures Insert(lines, date) == lines
  {
    if lines != [] {
      InsertNowhere(lines[1..], date);
    }
  }

  lemma {:induction false} TheFirstVersion(lines: seq<string>) returns (v: int)
    requires exists l :: l in lines && StartsWith(l, "PackageVersion:")
    ensures FirstVersion(lines, v)
  {
    if StartsWith(lines[0], "PackageVersion:") {
      v := 0;
    } else {
      assert lines == [lines[0]] + lines[1..];
      v := TheFirstVersion(lines[1..]);
      v := v + 1;
      assert forall i :: 1 <= i < v ==> lines[1..][i - 1] == lines[i];
    }
  }

  lemma MapLeaves(lines: seq<string>, dated: bool, r: Release)
    requires dated ==> forall l :: l in lines ==> !StartsWith(l, "ReleaseDate:")
    ensures AllLeft(lines, Map(Renew(r), lines), dated, r)
  {
    forall i | 0 <= i < |lines|
      ensures LineLeft(lines[i], Map(Renew(r), lines)[i], dated, r)
    {
      assert lines[i] in lines;
      LineIsLeft(lines[i], r);
    }
  }

  lemma RedatedLeaves(lines: seq<string>, r: Release)
    ensures AllLeft(lines, Map(Renew(r), Map(Subst(Date, r), lines)), true, r)
  {
    forall i | 0 <= i < |lines|
      ensures LineLeft(lines[i], Map(Renew(r), Map(Subst(Date, r), lines))[i], true, r)
    {
      LineIsLeft(lines[i], r);
    }
  }

  lemma InsertLeaves(lines: seq<string>, v: int, r: Release)
    requires FirstVersion(lines, v) && forall l :: l in lines ==> !StartsWith(l, "ReleaseDate:")
    ensures DateAdded(lines, Map(Renew(r), Insert(lines, DateLine(r))), v, r)
  {
    MapLeaves(lines, true, r);
    InsertAt(lines, DateLine(r), v);
    DateLineIsDate(r);
    FieldOfIs(Date, DateLine(r));
    WrittenOut("", r);
    MapAround(Renew(r), lines, v + 1, DateLine(r));
  }

  lemma MapAround(f: string -> string, lines: seq<string>, at: nat, line: string)
    requires at <= |lines|
    ensures var now := Map(f, lines[..at] + [line] + lines[at..]);
            |now| == |lines| + 1 && now[at] == f(line) && now[..at] + now[at + 1..] == Map(f, lines)
  {
    var all := lines[..at] + [line] + lines[at..];
    var now := Map(f, all);
    forall i | 0 <= i < |lines|
      ensures (now[..at] + now[at + 1..])[i] == f(lines[i])
    {
      assert if i < at then all[i] == lines[i] else all[i + 1] == lines[i];
    }
  }

  lemma CoreIsUpdated(lines: seq<string>, dated: bool, r: Release)
    ensures Updated(lines, Core(lines, dated, r), dated, r)
  {
    if !dated {
      MapLeaves(lines, dated, r);
    } else if Has(Date, lines) {
      RedatedLeaves(lines, r);
    } else if Has(Version, lines) {
      var v := TheFirstVersion(lines);
      InsertLeaves(lines, v, r);
    } else {
      InsertNowhere(lines, DateLine(r));
      MapLeaves(lines, dated, r);
    }
  }

  lemma {:induction false} CommentsStop(lines: seq<string>) returns (d: int)
    ensures CommentsEnd(lines, d) && DropHashes(lines) == lines[d..]
  {
    if lines != [] && Hash(lines[0]) {
      d := CommentsStop(lines[1..]);
      d := d + 1;
      assert forall i :: 1 <= i < d ==> lines[1..][i - 1] == lines[i];
    } else {
      d := 0;
    }
  }

  /** Rewriting leaves comments alone and makes none. */
  lemma CommentIsLeft(line: string, now: string, dated: bool, r: Release)
    requires LineLeft(line, now, dated, r)
    ensures StartsWith(now, "#") <==> StartsWith(line, "#")
  {
    BecomesIsLeft(line, now, dated, r);
    if FieldOf(line).Some? {
      var f := FieldOf(line).value;
      FieldIsNoHash(f, line);
      WrittenIs(f, line, r);
      FieldIsNoHash(f, Written(f, line, r));
    }
  }

  /** Where the comments end is where they end in what is left. */
  lemma CommentsKept(was: seq<string>, now: seq<string>, d: int, dated: bool, r: Release)
    requires AllLeft(was, now, dated, r) && CommentsEnd(was, d)
    ensures CommentsEnd(now, d) && AllLeft(was[d..], now[d..], dated, r)
  {
    forall i | 0 <= i < |was|
      ensures StartsWith(now[i], "#") <==> StartsWith(was[i], "#")
    {
      CommentIsLeft(was[i], now[i], dated, r);
    }
  }

  /** With the date added, too: it stands below a version, and so below the comments. */
  lemma CommentsAbove(was: seq<string>, now: seq<string>, v: int, d: int, r: Release)
    requires DateAdded(was, now, v, r) && CommentsEnd(was, d)
    ensures d <= v && CommentsEnd(now, d) && DateAdded(was[d..], now[d..], v - d, r)
  {
    var old' := now[..v + 1] + now[v + 2..];
    CommentsKept(was, old', d, true, r);
    assert d <= v by {
      assert was[v][0] == "PackageVersion:"[0] == 'P';
    }
    assert forall i :: 0 <= i <= v ==> old'[i] == now[i];
    assert was[d..][v - d] == was[v];
    assert now[d..][..v - d + 1] + now[d..][v - d + 2..] == old'[d..];
  }

  lemma KeysBelow(was: seq<string>, d: int, key: string)
    requires CommentsEnd(was, d) && key != "" && key[0] != '#'
    ensures (exists l :: l in was && StartsWith(l, key)) <==> exists l :: l in was[d..] && StartsWith(l, key)
  {
    assert was == was[..d] + was[d..];
    forall l | l in was[..d]
      ensures !StartsWith(l, key)
    {
      assert StartsWith(l, "#");
      assert l[0] == '#';
    }
  }

  /** Taking the comments off before or after the fields are written is the same. */
  lemma UpdatedBelow(was: seq<string>, now: seq<string>, d: int, dated: bool, r: Release)
    requires Updated(was, now, dated, r) && CommentsEnd(was, d)
    ensures CommentsEnd(now, d) && (d < |was| ==> d < |now|)
    ensures d == |was| ==> |now| == d
    ensures d < |was| ==> Updated(was[d..], now[d..], dated, r)
  {
    KeysBelow(was, d, "ReleaseDate:");
    KeysBelow(was, d, "PackageVersion:");
    if AllLeft(was, now, dated, r) {
      CommentsKept(was, now, d, dated, r);
    } else {
      var v :| 0 <= v < |was| && DateAdded(was, now, v, r);
      CommentsAbove(was, now, v, d, r);
    }
  }

  lemma CommentsEndOnce(lines: seq<string>, d: int, e: int)
    requires CommentsEnd(lines, d) && CommentsEnd(lines, e)
    ensures d == e
  {
  }

  lemma RewrittenLinesSay(lines: seq<string>, r: Release)
    requires lines != []
    ensures Says(lines, RewrittenLines(lines, r), r)
  {
    var dated := MarkedFor(lines, r);
    MarkedSays(lines, r);
    RealIsNotZeros(r);
    CoreIsUpdated(lines, dated, r);
    if Real(r) && Bannered(lines) {
      BodySays(lines, Core(lines, dated, r), r);
    }
  }

  lemma MarkedSays(lines: seq<string>, r: Release)
    ensures MarkedFor(lines, r) <==> SaysInstaller(lines, r.version)
  {
    assert forall l :: Is(Version, l) <==> StartsWith(l, "PackageVersion:");
  }

  lemma RealIsNotZeros(r: Release)
    ensures Real(r) <==> !AllZeros(r.checksum)
  {
    if AllZeros(r.checksum) {
      assert r.checksum == ZEROS;
    }
  }

  lemma BodySays(lines: seq<string>, whole: seq<string>, r: Release)
    requires Updated(lines, whole, SaysInstaller(lines, r.version), r)
    ensures exists d :: 0 <= d <= |lines| && SaysBelow(lines, d, Body(whole), r)
  {
    var d := CommentsStop(lines);
    UpdatedBelow(lines, whole, d, SaysInstaller(lines, r.version), r);
    var e := CommentsStop(whole);
    CommentsEndOnce(whole, d, e);
    assert SaysBelow(lines, d, Body(whole), r);
  }

  lemma RewrittenUnbroken(lines: seq<string>, r: Release)
    requires OneLine(r) && Unbroken(lines)
    ensures Unbroken(RewrittenLines(lines, r))
  {
    var whole := Core(lines, MarkedFor(lines, r), r);
    CoreUnbroken(lines, MarkedFor(lines, r), r);
    var d := CommentsStop(whole);
  }

  /** Every line of a rewritten text, in terms of the text and the release. */
  lemma RewrittenSays(text: string, r: Release)
    requires OneLine(r)
    ensures Says(Split('\n', text), Split('\n', Rewritten(text, r)), r)
  {
    var lines := Split('\n', text);
    RewrittenLinesSay(lines, r);
    RewrittenUnbroken(lines, r);
    JoinThenSplit('\n', RewrittenLines(lines, r));
  }
}
