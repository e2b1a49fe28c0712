/** Rewriting a manifest for one release and then for another, against rewriting
    it for the second alone. */
module ManifestAbsorption {
  import opened Manifest
  import opened Options
  import opened Text

  /** A line `rewrite` has somewhere to put a date at. */
  predicate HasSlot(lines: seq<string>) {
    Has(Date, lines) || Has(Version, lines)
  }

  /** The installer marker on a line no pass replaces. */
  predicate Stays(lines: seq<string>) {
    exists l :: l in lines && FieldOf(l).None? && Contains(l, MARKER)
  }

  /** What a rewriting for `r` keeps of the text. */
  function Kept(lines: seq<string>, r: Release): seq<string> {
    if Real(r) && Bannered(lines) then DropHashes(lines) else lines
  }

  /** Nothing the first release does outlives the second: its checksum drops no
      banner the second would keep, and its date leaves the text an installer
      manifest whose date the second sets again. */
  predicate Absorbs(lines: seq<string>, r1: Release, r2: Release) {
    && (Bannered(lines) && Real(r1) ==> Real(r2))
    && (Marked(lines) && HasSlot(lines) && r1.date != r2.date ==> Stays(Kept(lines, r1)))
  }

  // ---------------------------------------------------------------------
  // Dates
  // ---------------------------------------------------------------------

  lemma DateLinesTellDates(line: string, r1: Release, r2: Release)
    ensures Written(Date, line, r1) == DateLine(r1)
    ensures DateLine(r1) == DateLine(r2) <==> r1.date == r2.date
  {
    assert DateLine(r1)[|Before(Date)|..] == r1.date;
    assert DateLine(r2)[|Before(Date)|..] == r2.date;
  }

  lemma {:induction false} InsertTells(lines: seq<string>, d1: string, d2: string)
    ensures Has(Version, lines) && Insert(lines, d1) == Insert(lines, d2) ==> d1 == d2
    ensures !Has(Version, lines) ==> Insert(lines, d1) == lines
  {
    if lines != [] {
      assert lines == [lines[0]] + lines[1..];
      if Is(Version, lines[0]) {
        assert Insert(lines, d1)[1] == d1 && Insert(lines, d2)[1] == d2;
      } else {
        InsertTells(lines[1..], d1, d2);
        assert Insert(lines, d1)[1..] == Insert(lines[1..], d1);
        assert Insert(lines, d2)[1..] == Insert(lines[1..], d2);
      }
    }
  }

  /** Two dates give two texts, wherever there is room for a date. */
  lemma DatedTellsDates(lines: seq<string>, r1: Release, r2: Release)
    ensures Dated(lines, r1) == Dated(lines, r2) <==> !HasSlot(lines) || r1.date == r2.date
  {
    DateLinesTellDates("", r1, r2);
    DateLinesTellDates("", r2, r1);
    if Has(Date, lines) {
      var l :| l in lines && Is(Date, l);
      var i :| 0 <= i < |lines| && lines[i] == l;
      DateLinesTellDates(l, r1, r2);
      DateLinesTellDates(l, r2, r1);
      assert Dated(lines, r1)[i] == DateLine(r1) && Dated(lines, r2)[i] == DateLine(r2);
      if r1.date == r2.date {
        assert Dated(lines, r1) == Dated(lines, r2);
      }
    } else {
      InsertTells(lines, DateLine(r1), DateLine(r2));
      InsertTells(lines, DateLine(r2), DateLine(r1));
    }
  }

  lemma MapIdentity(f: string -> string, lines: seq<string>)
    requires forall l {:trigger l in lines} :: l in lines ==> f(l) == l
    ensures Map(f, lines) == lines
  {
    forall i | 0 <= i < |lines|
      ensures Map(f, lines)[i] == lines[i]
    {
      assert lines[i] in lines;
    }
  }

  lemma MapPair(f: string -> string, a: string, b: string, lines: seq<string>)
    ensures Map(f, [a, b] + lines) == [f(a), f(b)] + Map(f, lines)
  {
  }

  lemma {:induction false} MapInserted(f: string -> string, lines: seq<string>, d1: string, d2: string)
    requires f(d1) == d2
    requires forall l {:trigger l in lines} :: l in lines ==> f(l) == l
    ensures Map(f, Insert(lines, d1)) == Insert(lines, d2)
  {
    if lines != [] {
      var head, tail := lines[0], lines[1..];
      assert head in lines;
      assert forall l :: l in tail ==> l in lines;
      if Is(Version, head) {
        MapIdentity(f, tail);
        MapPair(f, head, d1, tail);
      } else {
        MapInserted(f, tail, d1, d2);
        assert ([head] + Insert(tail, d1))[1..] == Insert(tail, d1);
      }
    }
  }

  lemma RedateInserted(lines: seq<string>, r1: Release, r2: Release)
    requires !Has(Date, lines)
    ensures Map(Subst(Date, r2), Insert(lines, DateLine(r1))) == Insert(lines, DateLine(r2))
  {
    DateLineIsDate(r1);
    DateLinesTellDates(DateLine(r1), r2, r1);
    MapInserted(Subst(Date, r2), lines, DateLine(r1), DateLine(r2));
  }

  lemma RedateTwice(lines: seq<string>, r1: Release, r2: Release)
    ensures Map(Subst(Date, r2), Map(Subst(Date, r1), lines)) == Map(Subst(Date, r2), lines)
    ensures Has(Date, Map(Subst(Date, r1), lines)) <==> Has(Date, lines)
  {
    forall l
      ensures Subst(Date, r2)(Subst(Date, r1)(l)) == Subst(Date, r2)(l)
      ensures Is(Date, Subst(Date, r1)(l)) <==> Is(Date, l)
    {
      SubstTwice(Date, l, r1, r2);
      SubstKeeps(Date, Date, l, r1);
    }
    MapMap(Subst(Date, r1), Subst(Date, r2), Subst(Date, r2), lines);
    MapHas(Subst(Date, r1), Date, lines);
  }

  lemma {:induction false} InsertHasDate(lines: seq<string>, r: Release)
    requires Has(Version, lines)
    ensures DateLine(r) in Insert(lines, DateLine(r))
  {
    if !Is(Version, lines[0]) {
      assert lines == [lines[0]] + lines[1..];
      InsertHasDate(lines[1..], r);
    }
  }

  /** The second date replaces the first. */
  lemma DatedTwice(lines: seq<string>, r1: Release, r2: Release)
    ensures Dated(Dated(lines, r1), r2) == Dated(lines, r2)
  {
    if Has(Date, lines) {
      RedateTwice(lines, r1, r2);
    } else if Has(Version, lines) {
      InsertHasDate(lines, r1);
      DateLineIsDate(r1);
      RedateInserted(lines, r1, r2);
    } else {
      InsertTells(lines, DateLine(r1), DateLine(r2));
    }
  }

  // ---------------------------------------------------------------------
  // The banner
  // ---------------------------------------------------------------------

  lemma {:induction false} DropHashesMap(f: string -> string, lines: seq<string>)
    requires forall l {:trigger f(l)} :: Hash(f(l)) <==> Hash(l)
    ensures DropHashes(Map(f, lines)) == Map(f, DropHashes(lines))
  {
    if lines != [] && Hash(lines[0]) {
      assert Hash(f(lines[0]));
      DropHashesMap(f, lines[1..]);
    }
  }

  lemma {:induction false} DropHashesInsert(lines: seq<string>, date: string)
    requires !Hash(date)
    ensures DropHashes(Insert(lines, date)) == Insert(DropHashes(lines), date)
  {
    if lines != [] && Hash(lines[0]) {
      if Is(Version, lines[0]) {
        FieldIsNoHash(Version, lines[0]);
      }
      DropHashesInsert(lines[1..], date);
      assert Insert(lines, date)[1..] == Insert(lines[1..], date);
    }
  }

  lemma {:induction false} DropHashesHas(f: Field, lines: seq<string>)
    ensures Has(f, DropHashes(lines)) <==> Has(f, lines)
    ensures forall l :: l in DropHashes(lines) ==> l in lines
    ensures DropHashes(lines) != [] ==> !Hash(DropHashes(lines)[0])
  {
    if lines != [] && Hash(lines[0]) {
      assert lines == [lines[0]] + lines[1..];
      DropHashesHas(f, lines[1..]);
      if Is(f, lines[0]) {
        FieldIsNoHash(f, lines[0]);
      }
    }
  }

  /** Dropping the banner before or after the rewriting is the same. */
  lemma DropHashesDated(lines: seq<string>, r: Release)
    ensures DropHashes(Dated(lines, r)) == Dated(DropHashes(lines), r)
  {
    DropHashesHas(Date, lines);
    DateKeepsHash(r);
    DropHashesMap(Subst(Date, r), lines);
    DateLineIsDate(r);
    DropHashesInsert(lines, DateLine(r));
  }

  lemma DropHashesCore(lines: seq<string>, dated: bool, r: Release)
    requires Plain(r)
    ensures DropHashes(Core(lines, dated, r)) == Core(DropHashes(lines), dated, r)
  {
    RenewingIsKeeping({Version, Url, Checksum, Notes}, r);
    DropHashesMap(Renew(r), if dated then Dated(lines, r) else lines);
    DropHashesDated(lines, r);
  }

  // ---------------------------------------------------------------------
  // The marker
  // ---------------------------------------------------------------------

  /** No field, or the date: nothing `Renew` writes. */
  predicate NotRenewed(field: Option<Field>) {
    field.None? || field.value == Date
  }

  predicate AllButDate(fields: set<Field>) {
    forall f :: f in fields <==> f != Date
  }

  lemma RenewedOrNot(fields: set<Field>, line: string, r: Release)
    requires AllButDate(fields)
    ensures NotRenewed(FieldOf(line)) ==> Renewing(fields, r)(line) == line
    ensures !NotRenewed(FieldOf(line)) ==> Renewing(fields, r)(line) == Written(FieldOf(line).value, line, r)
  {
    RenewingIsSubst(fields, line, r);
    if FieldOf(line).Some? {
      WrittenBySubst(FieldOf(line).value, line, r);
    }
  }

  lemma WrittenBySubst(f: Field, line: string, r: Release)
    requires Is(f, line)
    ensures Subst(f, r)(line) == Written(f, line, r)
  {
  }

  /** A renewed line that carries the marker was left as it was. */
  lemma MarkerIsNotRenewed(fields: set<Field>, line: string, r: Release)
    requires Plain(r) && AllButDate(fields)
    ensures Contains(Renewing(fields, r)(line), MARKER) ==>
              Renewing(fields, r)(line) == line && NotRenewed(FieldOf(line))
  {
    RenewedOrNot(fields, line, r);
    if !NotRenewed(FieldOf(line)) {
      WrittenIsQuiet(FieldOf(line).value, line, r);
    }
  }

  lemma RenewedMarker(line: string, r: Release)
    requires Plain(r)
    ensures Contains(Renew(r)(line), MARKER) ==> Renew(r)(line) == line && NotRenewed(FieldOf(line))
  {
    assert AllButDate({Version, Url, Checksum, Notes});
    MarkerIsNotRenewed({Version, Url, Checksum, Notes}, line, r);
  }

  lemma DatedMarker(lines: seq<string>, line: string, r: Release)
    requires Plain(r) && line in Dated(lines, r) && Contains(line, MARKER)
    ensures line in lines && !Is(Date, line)
  {
    WrittenIsQuiet(Date, "", r);
    if Has(Date, lines) {
      var i :| 0 <= i < |lines| && Subst(Date, r)(lines[i]) == line;
      WrittenIsQuiet(Date, lines[i], r);
    } else {
      InsertMembers(lines, DateLine(r));
    }
  }

  lemma UndatedMarked(lines: seq<string>, r: Release)
    requires Plain(r)
    ensures Marked(Core(lines, false, r)) ==> Marked(lines)
  {
    var core := Core(lines, false, r);
    if l :| l in core && !Is(Version, l) && Contains(l, MARKER) {
      var i :| 0 <= i < |core| && core[i] == l;
      assert core[i] == Renew(r)(lines[i]);
      RenewedMarker(lines[i], r);
    }
  }

  lemma DatedKeepsLine(lines: seq<string>, line: string, r: Release)
    requires line in lines && !Is(Date, line)
    ensures line in Dated(lines, r)
  {
    if Has(Date, lines) {
      var i :| 0 <= i < |lines| && lines[i] == line;
      assert Dated(lines, r)[i] == Subst(Date, r)(line);
    } else {
      InsertMembers(lines, DateLine(r));
    }
  }

  lemma MarkedStays(lines: seq<string>, line: string, r: Release)
    requires Plain(r) && Contains(line, MARKER)
    ensures line in Core(lines, true, r) ==> line in lines && FieldOf(line).None?
  {
    var dated := Dated(lines, r);
    if i :| 0 <= i < |dated| && Map(Renew(r), dated)[i] == line {
      assert Renew(r)(dated[i]) == line;
      RenewedMarker(dated[i], r);
      DatedMarker(lines, line, r);
    }
  }

  lemma StaysMarked(lines: seq<string>, line: string, r: Release)
    requires line in lines && FieldOf(line).None?
    ensures line in Core(lines, true, r)
  {
    var dated := Dated(lines, r);
    DatedKeepsLine(lines, line, r);
    var i :| 0 <= i < |dated| && dated[i] == line;
    assert Map(Renew(r), dated)[i] == Renew(r)(line) == line;
  }

  /** Once a release is written, the marker is where no pass can reach it. */
  lemma DatedMarked(lines: seq<string>, r: Release)
    requires Plain(r)
    ensures Marked(Core(lines, true, r)) <==> Stays(lines)
  {
    var core := Core(lines, true, r);
    if Marked(core) {
      var l :| l in core && !Is(Version, l) && Contains(l, MARKER);
      MarkedStays(lines, l, r);
    }
    if Stays(lines) {
      var l :| l in lines && FieldOf(l).None? && Contains(l, MARKER);
      StaysMarked(lines, l, r);
    }
  }

  // ---------------------------------------------------------------------
  // One rewriting after another
  // ---------------------------------------------------------------------

  lemma RenewAgain(lines: seq<string>, r1: Release, r2: Release)
    ensures Map(Renew(r2), Map(Renew(r1), lines)) == Map(Renew(r2), lines)
  {
    forall l
      ensures Renew(r2)(Renew(r1)(l)) == Renew(r2)(l)
    {
      RenewingTwice({Version, Url, Checksum, Notes}, l, r1, r2);
    }
    MapMap(Renew(r1), Renew(r2), Renew(r2), lines);
  }

  lemma RenewDatedAgain(lines: seq<string>, r1: Release, r2: Release)
    requires Plain(r1)
    ensures Map(Renew(r2), Dated(Map(Renew(r1), lines), r2)) == Map(Renew(r2), Dated(lines, r2))
  {
    RenewingIsKeeping({Version, Url, Checksum, Notes}, r1);
    MapDated(Renew(r1), lines, r2);
    RenewAgain(Dated(lines, r2), r1, r2);
  }

  /** What is left of the first release is its date, if the second does not date. */
  lemma CoreAgain(lines: seq<string>, first: bool, second: bool, r1: Release, r2: Release)
    requires Plain(r1) && Plain(r2)
    ensures Core(Core(lines, first, r1), second, r2)
            == if second then Core(lines, true, r2)
               else Map(Renew(r2), if first then Dated(lines, r1) else lines)
  {
    var start := if first then Dated(lines, r1) else lines;
    if second {
      RenewDatedAgain(start, r1, r2);
      DatedTwice(lines, r1, r2);
    } else {
      RenewAgain(start, r1, r2);
    }
  }

  lemma RenewedSlot(lines: seq<string>, r: Release)
    requires Plain(r)
    ensures HasSlot(Map(Renew(r), lines)) <==> HasSlot(lines)
  {
    RenewingIsKeeping({Version, Url, Checksum, Notes}, r);
    MapHas(Renew(r), Date, lines);
    MapHas(Renew(r), Version, lines);
  }

  /** Two dates still differ after everything else is renewed. */
  lemma RenewedTellsDates(lines: seq<string>, r1: Release, r2: Release)
    requires Plain(r2)
    ensures Map(Renew(r2), Dated(lines, r1)) == Map(Renew(r2), Dated(lines, r2))
            <==> !HasSlot(lines) || r1.date == r2.date
  {
    RenewingIsKeeping({Version, Url, Checksum, Notes}, r2);
    MapDated(Renew(r2), lines, r1);
    MapDated(Renew(r2), lines, r2);
    DatedTellsDates(Map(Renew(r2), lines), r1, r2);
    RenewedSlot(lines, r2);
  }

  /** Rewriting the lines again gives what the second release alone would, unless
      the first one's date is stuck. */
  lemma CoreAbsorbs(lines: seq<string>, first: bool, r1: Release, r2: Release)
    requires Plain(r1) && Plain(r2) && (Marked(lines) ==> first)
    ensures Core(Core(lines, first, r1), Marked(Core(lines, first, r1)), r2) == Core(lines, first, r2)
            <==> (first && HasSlot(lines) && r1.date != r2.date ==> Stays(lines))
  {
    var second := Marked(Core(lines, first, r1));
    if first {
      DatedMarked(lines, r1);
      RenewedTellsDates(lines, r1, r2);
    } else {
      UndatedMarked(lines, r1);
    }
    CoreAgain(lines, first, second, r1, r2);
  }

  /** The lines a text is left with, and when the banner is still there. */
  lemma RewrittenKept(lines: seq<string>, r: Release)
    requires Plain(r) && lines != []
    ensures var core := Core(Kept(lines, r), Marked(lines), r);
            RewrittenLines(lines, r) == if core == [] then [""] else core
    ensures Kept(lines, r) != [] ==> Core(Kept(lines, r), Marked(lines), r) != []
    ensures Bannered(RewrittenLines(lines, r)) <==> Bannered(lines) && !Real(r)
  {
    var kept := Kept(lines, r);
    DropHashesCore(lines, Marked(lines), r);
    DropHashesHas(Date, lines);
    CoreKeepsBanner(lines, Marked(lines), r);
    assert BANNER[0] == '#';
    if kept != [] {
      CoreKeepsBanner(kept, Marked(lines), r);
    }
  }

  lemma CoreOfNothing(dated: bool, r: Release)
    ensures Core([], dated, r) == []
    ensures RewrittenLines([""], r) == [""]
  {
    assert !Has(Date, []);
    assert forall f :: !Is(f, "");
    assert FieldOf("") == None;
    assert Map(Renew(r), [""]) == [""];
  }

  lemma MarkerInKept(lines: seq<string>, r: Release)
    ensures Marked(Kept(lines, r)) ==> Marked(lines)
    ensures HasSlot(Kept(lines, r)) <==> HasSlot(lines)
  {
    DropHashesHas(Date, lines);
    DropHashesHas(Version, lines);
  }

  lemma DatedIsThere(lines: seq<string>, r: Release)
    requires HasSlot(lines)
    ensures Dated(lines, r) != []
  {
    InsertMembers(lines, DateLine(r));
  }

  /** Dropping the banner does not hide a stuck date. */
  lemma BodiesTellDates(lines: seq<string>, r1: Release, r2: Release)
    requires Plain(r2) && HasSlot(lines) && r1.date != r2.date
    ensures Body(Map(Renew(r2), Dated(lines, r1))) != Body(Map(Renew(r2), Dated(lines, r2)))
  {
    var kept := DropHashes(lines);
    RenewingIsKeeping({Version, Url, Checksum, Notes}, r2);
    DropHashesMap(Renew(r2), Dated(lines, r1));
    DropHashesMap(Renew(r2), Dated(lines, r2));
    DropHashesDated(lines, r1);
    DropHashesDated(lines, r2);
    DropHashesHas(Date, lines);
    DropHashesHas(Version, lines);
    DatedIsThere(kept, r1);
    DatedIsThere(kept, r2);
    RenewedTellsDates(kept, r1, r2);
  }

  /** The first date is stuck: the text shows it. */
  lemma StuckDate(lines: seq<string>, r1: Release, r2: Release)
    requires Plain(r1) && Plain(r2) && lines != []
    ensures Marked(lines) && HasSlot(lines) && r1.date != r2.date && !Stays(lines) ==>
              RewrittenLines(Core(lines, true, r1), r2) != RewrittenLines(lines, r2)
  {
    if Marked(lines) && HasSlot(lines) && r1.date != r2.date && !Stays(lines) {
      DatedMarked(lines, r1);
      CoreAgain(lines, true, false, r1, r2);
      CoreKeepsBanner(lines, true, r1);
      BodiesTellDates(lines, r1, r2);
      RenewedTellsDates(lines, r1, r2);
    }
  }

  lemma FreeDate(lines: seq<string>, r1: Release, r2: Release)
    requires Plain(r1) && Plain(r2) && lines != []
    requires Marked(lines) && HasSlot(lines) && r1.date != r2.date ==> Stays(lines)
    ensures RewrittenLines(Core(lines, Marked(lines), r1), r2) == RewrittenLines(lines, r2)
  {
    CoreKeepsBanner(lines, Marked(lines), r1);
    CoreAbsorbs(lines, Marked(lines), r1, r2);
  }

  /** With no banner dropped by the first release. */
  lemma AbsorbsKeepingAll(lines: seq<string>, r1: Release, r2: Release)
    requires Plain(r1) && Plain(r2) && lines != [] && !(Real(r1) && Bannered(lines))
    ensures RewrittenLines(RewrittenLines(lines, r1), r2) == RewrittenLines(lines, r2) <==> Absorbs(lines, r1, r2)
  {
    if Absorbs(lines, r1, r2) {
      FreeDate(lines, r1, r2);
    } else {
      StuckDate(lines, r1, r2);
    }
  }

  /** With the banner dropped by the first release. */
  lemma AbsorbsPastBanner(lines: seq<string>, r1: Release, r2: Release)
    requires Plain(r1) && Plain(r2) && lines != [] && Real(r1) && Bannered(lines)
    ensures RewrittenLines(RewrittenLines(lines, r1), r2) == RewrittenLines(lines, r2) <==> Absorbs(lines, r1, r2)
  {
    var m := Marked(lines);
    var kept := DropHashes(lines);
    var once := RewrittenLines(lines, r1);
    RewrittenKept(lines, r1);
    RewrittenKept(lines, r2);
    RewrittenKept(once, r2);
    MarkerInKept(lines, r1);
    if !Real(r2) {
      assert Bannered(RewrittenLines(lines, r2)) && !Bannered(RewrittenLines(once, r2));
    } else if kept == [] {
      CoreOfNothing(m, r1);
      CoreOfNothing(m, r2);
      assert once == [""];
    } else {
      assert once == Core(kept, m, r1);
      CoreAbsorbs(kept, m, r1, r2);
    }
  }

  /** Rewriting for `r1` and then for `r2` is rewriting for `r2`, exactly when the
      text and the two releases allow it. */
  lemma RewriteAbsorbsExactly(text: string, r1: Release, r2: Release)
    requires Plain(r1) && Plain(r2)
    ensures Rewritten(Rewritten(text, r1), r2) == Rewritten(text, r2) <==> Absorbs(Split('\n', text), r1, r2)
  {
    var lines := Split('\n', text);
    RewrittenUnbroken(lines, r1);
    RewrittenUnbroken(lines, r2);
    RewrittenUnbroken(RewrittenLines(lines, r1), r2);
    JoinThenSplit('\n', RewrittenLines(lines, r1));
    JoinThenSplit('\n', RewrittenLines(lines, r2));
    JoinThenSplit('\n', RewrittenLines(RewrittenLines(lines, r1), r2));
    if Real(r1) && Bannered(lines) {
      AbsorbsPastBanner(lines, r1, r2);
    } else {
      AbsorbsKeepingAll(lines, r1, r2);
    }
  }

  lemma RewrittenUnbroken(lines: seq<string>, r: Release)
    requires Plain(r) && Unbroken(lines)
    ensures Unbroken(RewrittenLines(lines, r))
  {
    CoreUnbroken(lines, Marked(lines), r);
    DropHashesHas(Date, Core(lines, Marked(lines), r));
  }

  /** Rewriting again for the same release changes nothing, for any text. */
  lemma RewriteIdempotent(text: string, r: Release)
    requires Plain(r)
    ensures Rewritten(Rewritten(text, r), r) == Rewritten(text, r)
  {
    RewriteAbsorbsExactly(text, r, r);
  }

  /** A published release replaces any earlier one, when the marker stands on a line
      of its own outside the banner. */
  lemma PublishedReplaces(text: string, r1: Release, r2: Release)
    requires Plain(r1) && Plain(r2) && Real(r2)
    requires Stays(DropHashes(Split('\n', text)))
    ensures Rewritten(Rewritten(text, r1), r2) == Rewritten(text, r2)
  {
    DropHashesHas(Date, Split('\n', text));
    RewriteAbsorbsExactly(text, r1, r2);
  }

  /** A marker only on a line that is itself rewritten: the first date stays. */
  lemma RewrittenMarkerKeepsFirstDate(r1: Release, r2: Release)
    requires Plain(r1) && Plain(r2) && r1.date != r2.date
    ensures var text := "PackageVersion: 1" + "\n" + ("ReleaseNotesUrl: " + MARKER);
            Rewritten(Rewritten(text, r1), r2) != Rewritten(text, r2)
  {
    var version, notes := "PackageVersion: 1", "ReleaseNotesUrl: " + MARKER;
    TwoLines(version, notes);
    DoesNotAbsorb([version, notes], r1, r2);
    RewriteAbsorbsExactly(version + "\n" + notes, r1, r2);
  }

  lemma TwoLines(version: string, notes: string)
    requires '\n' !in version && '\n' !in notes
    ensures Split('\n', version + "\n" + notes) == [version, notes]
  {
    assert [version, notes][1..] == [notes];
    JoinThenSplit('\n', [version, notes]);
  }

  lemma DoesNotAbsorb(lines: seq<string>, r1: Release, r2: Release)
    requires lines == ["PackageVersion: 1", "ReleaseNotesUrl: " + MARKER] && r1.date != r2.date
    ensures !Absorbs(lines, r1, r2)
  {
    var version, notes := lines[0], lines[1];
    assert version[..15] == Key(Version) && notes[..16] == Key(Notes);
    FieldOfIs(Version, version);
    FieldOfIs(Notes, notes);
    OnlyField(Notes, notes);
    assert notes[17..17 + |MARKER|] == MARKER;
    assert OccursAt(notes, MARKER, 17);
    assert version in lines && notes in lines;
    assert !Hash(version) && !Bannered(lines);
  }
}
