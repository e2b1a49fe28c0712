/** What a run of actions leaves behind, from its events alone: every field of a
    row, the reading an applied action stores, the summary lines and the
    re-detects it asks for. */
module ActionOutcomes {
  import opened ActionRun
  import opened Options
  import opened SettingValues
  import SettingsStore
  import opened SizeReading
  import opened Text

  // ---------------------------------------------------------------------
  // A row's fields
  // ---------------------------------------------------------------------

  /** The fields of a row that one event sets together. */
  datatype Aspect = Stage | Start | End | Bar | Fault

  predicate Sets(e: Event, a: Aspect) {
    match a
    case Stage => e.Started? || e.Applied? || e.SkippedRow? || e.FailedRow?
    case Start => e.Started?
    case End => e.Applied? || e.SkippedRow? || e.FailedRow?
    case Bar => e.Applied? || (e.Output? && e.percent.Some?)
    case Fault => e.FailedRow?
  }

  predicate SetsAt(id: string, moments: seq<Moment>, a: Aspect, k: int) {
    0 <= k < |moments| && moments[k].event.id == id && Sets(moments[k].event, a)
  }

  /** Moment `k` is the last one to set this aspect of the row. */
  predicate LastToSet(id: string, moments: seq<Moment>, a: Aspect, k: int) {
    SetsAt(id, moments, a, k) && forall j :: k < j < |moments| ==> !SetsAt(id, moments, a, j)
  }

  predicate NeverSet(id: string, moments: seq<Moment>, a: Aspect) {
    forall j :: 0 <= j < |moments| ==> !SetsAt(id, moments, a, j)
  }

  /** The row shows what that moment said. */
  predicate RowSays(row: Step, m: Moment, a: Aspect) {
    match a
    case Stage =>
      && (m.event.Started? ==> row.status == Running) && (m.event.Applied? ==> row.status == Done)
      && (m.event.SkippedRow? ==> row.status == Skipped) && (m.event.FailedRow? ==> row.status == Failed)
    case Start =>
      m.event.Started? && row.startedAt == m.now && row.durationEstimate == m.event.estimate
      && row.reportsProgress == m.event.reports && row.name == if m.event.name == "" then None else Some(m.event.name)
    case End => row.endedAt == Some(m.now)
    case Bar =>
      && (m.event.Applied? ==> row.percent == Some(100.0))
      && (m.event.Output? ==> row.percent == m.event.percent)
    case Fault =>
      m.event.FailedRow? && row.error == Some(if m.event.error == "" then "Unknown error" else m.event.error)
  }

  predicate Untouched(row: Step, was: Step, a: Aspect) {
    match a
    case Stage => row.status == was.status
    case Start => (row.startedAt, row.durationEstimate, row.reportsProgress, row.name)
                  == (was.startedAt, was.durationEstimate, was.reportsProgress, was.name)
    case End => row.endedAt == was.endedAt
    case Bar => row.percent == was.percent
    case Fault => row.error == was.error
  }

  lemma OneEvent(row: Step, m: Moment, first: bool, a: Aspect)
    ensures var next := Stepped(row, m.event, m.now, first);
            if Sets(m.event, a) then RowSays(next, m, a) else Untouched(next, row, a)
  {
  }

  lemma SaysStill(row: Step, next: Step, m: Moment, a: Aspect)
    requires RowSays(row, m, a) && Untouched(next, row, a)
    ensures RowSays(next, m, a)
  {
  }

  lemma FrontSets(id: string, moments: seq<Moment>, a: Aspect)
    requires moments != []
    ensures var n := |moments| - 1;
            && (forall k :: k < n ==> (SetsAt(id, moments[..n], a, k) <==> SetsAt(id, moments, a, k)))
            && (NeverSet(id, moments, a) <==> NeverSet(id, moments[..n], a) && !SetsAt(id, moments, a, n))
            && (forall k :: k < n ==>
                  (LastToSet(id, moments, a, k) <==> LastToSet(id, moments[..n], a, k) && !SetsAt(id, moments, a, n)))
  {
    var n := |moments| - 1;
    assert forall k :: 0 <= k < n ==> moments[..n][k] == moments[k];
    assert forall k :: k < n ==> (SetsAt(id, moments[..n], a, k) <==> SetsAt(id, moments, a, k));
  }

  /** Every field of a row is what the last of its own events that sets it said, and
      stays as it began when none did. */
  lemma {:induction false} RowSaysTheLast(s: Step, moments: seq<Moment>, a: Aspect)
    requires s.id != ""
    ensures StepAfter(s, moments).id == s.id
    ensures forall k :: LastToSet(s.id, moments, a, k) ==> RowSays(StepAfter(s, moments), moments[k], a)
    ensures NeverSet(s.id, moments, a) ==> Untouched(StepAfter(s, moments), s, a)
    decreases |moments|
  {
    if moments != [] {
      var n := |moments| - 1;
      var before, last := StepAfter(s, moments[..n]), moments[n];
      RowSaysTheLast(s, moments[..n], a);
      FrontSets(s.id, moments, a);
      OneEvent(before, last, before.command == "", a);
      forall k | LastToSet(s.id, moments, a, k)
        ensures RowSays(StepAfter(s, moments), moments[k], a)
      {
        if k < n {
          assert moments[..n][k] == moments[k];
          SaysStill(before, StepAfter(s, moments), moments[k], a);
        }
      }
    }
  }

  /** In any run over rows with ids of their own, whatever the other actions do. */
  lemma EveryRowSaysTheLast(p: Panel, moments: seq<Moment>, i: nat, a: Aspect)
    requires DistinctIds(p.steps) && i < |p.steps| && p.steps[i].id != ""
    ensures |AfterAll(p, moments).steps| == |p.steps|
    ensures forall k :: LastToSet(p.steps[i].id, moments, a, k) ==> RowSays(AfterAll(p, moments).steps[i], moments[k], a)
    ensures NeverSet(p.steps[i].id, moments, a) ==> Untouched(AfterAll(p, moments).steps[i], p.steps[i], a)
  {
    RowsAreIndependent(p, moments, i);
    RowSaysTheLast(p.steps[i], moments, a);
  }

  // ---------------------------------------------------------------------
  // The rows a run begins with
  // ---------------------------------------------------------------------

  /** The places in `ids` the rows come from: in order, every action's and no other. */
  predicate RowsFrom(
      settings: map<string, SettingsStore.Setting>, name: string -> string, ids: seq<string>, rows: seq<Step>, at: seq<nat>)
  {
    && |at| == |rows|
    && (forall i :: 0 <= i < |at| ==> at[i] < |ids|) && (forall i, j :: 0 <= i < j < |at| ==> at[i] < at[j])
    && (forall k :: 0 <= k < |ids| ==> (k in at <==> ids[k] in settings && settings[ids[k]].isAction))
    && (forall i :: 0 <= i < |at| ==>
          rows[i] == Step(ids[at[i]], Some(name(ids[at[i]])), Queued, "", None, false, "", [], 0, None, None))
  }

  /** A run begins with one row for each action named, in the order named, all queued
      with nothing to show. */
  lemma {:induction false} RunsBeginQueued(
      settings: map<string, SettingsStore.Setting>, name: string -> string, ids: seq<string>)
      returns (at: seq<nat>)
    ensures RowsFrom(settings, name, ids, BegunSteps(settings, name, ids), at)
  {
    if ids == [] {
      at := [];
    } else {
      var n := |ids| - 1;
      var front := RunsBeginQueued(settings, name, ids[..n]);
      at := if IsAction(settings, ids[n]) then front + [n] else front;
      OneMoreRow(settings, name, ids, front);
    }
  }

  lemma OneMoreRow(
      settings: map<string, SettingsStore.Setting>, name: string -> string, ids: seq<string>, front: seq<nat>)
    requires ids != [] && RowsFrom(settings, name, ids[..|ids| - 1], BegunSteps(settings, name, ids[..|ids| - 1]), front)
    ensures RowsFrom(settings, name, ids, BegunSteps(settings, name, ids),
                     if IsAction(settings, ids[|ids| - 1]) then front + [|ids| - 1] else front)
  {
    var n := |ids| - 1;
    var rows := BegunSteps(settings, name, ids[..n]);
    if IsAction(settings, ids[n]) {
      RowAdded(settings, name, ids, rows, front);
    } else {
      RowsStay(settings, name, ids, rows, front);
      assert rows + [] == rows;
    }
  }

  lemma RowsStay(
      settings: map<string, SettingsStore.Setting>, name: string -> string, ids: seq<string>, rows: seq<Step>, at: seq<nat>)
    requires ids != [] && RowsFrom(settings, name, ids[..|ids| - 1], rows, at) && !IsAction(settings, ids[|ids| - 1])
    ensures RowsFrom(settings, name, ids, rows, at)
  {
    var n := |ids| - 1;
    assert forall k :: 0 <= k < n ==> ids[..n][k] == ids[k];
  }

  lemma RowAdded(
      settings: map<string, SettingsStore.Setting>, name: string -> string, ids: seq<string>, rows: seq<Step>, at: seq<nat>)
    requires ids != [] && RowsFrom(settings, name, ids[..|ids| - 1], rows, at) && IsAction(settings, ids[|ids| - 1])
    ensures RowsFrom(settings, name, ids, rows + [Begun(ids[|ids| - 1], name(ids[|ids| - 1]))], at + [|ids| - 1])
  {
    var n := |ids| - 1;
    var more: seq<nat> := at + [n];
    assert forall k :: 0 <= k < n ==> ids[..n][k] == ids[k];
    forall k | 0 <= k < |ids|
      ensures k in more <==> ids[k] in settings && settings[ids[k]].isAction
    {
      assert k in more <==> k in at || k == n;
    }
  }

  // ---------------------------------------------------------------------
  // Readings, summary lines and re-detects
  // ---------------------------------------------------------------------

  /** A row with a new reading, and nothing else new about it. */
  predicate NewReading(now: SettingsStore.Setting, was: SettingsStore.Setting, text: string, current: bool) {
    && now.currentValue == Str(text) && now.isOptimized == current && now.isApplicable
    && now.applicableReason == Undefined && now.detectionError == was.detectionError
    && (now.recommendedValue, now.defaultValue, now.defaultSource, now.finding)
       == (was.recommendedValue, was.defaultValue, was.defaultSource, was.finding)
    && now.status == if current then SettingsStore.Optimal
                     else if Lower(text) == "unknown" then SettingsStore.Default else SettingsStore.Suboptimal
  }

  /** One row of the store has a new reading; the other rows and the categories stay. */
  predicate OnlyReads(after: SettingsStore.Slice, before: SettingsStore.Slice, id: string, text: string, current: bool) {
    && after.settings.Keys == before.settings.Keys && after.version == before.version + 1
    && after.categoryStatus == before.categoryStatus
    && (forall x :: x in before.settings && x != id ==> after.settings[x] == before.settings[x])
    && (id in before.settings ==> NewReading(after.settings[id], before.settings[id], text, current))
  }

  /** `mb` is the whole number of megabytes nearest to so many bytes, halves upwards. */
  predicate Nearest(bytes: nat, mb: nat) {
    bytes - 524288 < mb * 1048576 <= bytes + 524288
  }

  lemma RoundsToNearest(bytes: nat)
    ensures Nearest(bytes, RoundMB(bytes))
  {
    var q := bytes as real / 1048576.0;
    assert q * 1048576.0 == bytes as real;
    var n := RoundMB(bytes);
    assert n as real <= q + 0.5 < n as real + 1.0;
    assert n as real * 1048576.0 <= bytes as real + 524288.0 < n as real * 1048576.0 + 1048576.0;
  }

  /** What an `applied` event stores: the size its bytes round to; else its own text,
      when that can be read, current only for upkeep that is; else nothing. */
  lemma AppliedStores(p: Panel, e: Event, now: int)
    requires Heard(p, e) && e.Applied?
    ensures e.sizeAfter.Some? ==>
              exists mb: nat :: Nearest(e.sizeAfter.value, mb)
                && OnlyReads(After(p, e, now).store, p.store, e.id, "ready|" + Numeral(mb) + " MB", false)
    ensures e.sizeAfter.None? && ParseActionReading(e.current).Some? ==>
              OnlyReads(After(p, e, now).store, p.store, e.id, e.current, ParseActionReading(e.current).value.Current?)
    ensures e.sizeAfter.None? && ParseActionReading(e.current).None? ==> After(p, e, now).store == p.store
  {
    if e.sizeAfter.Some? {
      var mb := RoundMB(e.sizeAfter.value);
      RoundsToNearest(e.sizeAfter.value);
      OneReading(p.store, e.id, Printed(mb), false);
      SizesAreKnown(mb);
      assert Nearest(e.sizeAfter.value, mb);
    } else if ParseActionReading(e.current).Some? {
      OneReading(p.store, e.id, e.current, ParseActionReading(e.current).value.Current?);
    }
  }

  lemma SizesAreKnown(mb: nat)
    ensures Printed(mb) == "ready|" + Numeral(mb) + " MB"
  {
  }

  lemma OneReading(s: SettingsStore.Slice, id: string, text: string, current: bool)
    ensures OnlyReads(SettingsStore.Finalize(s, map[id := ReadingOf(text, current)], []), s, id, text, current)
  {
  }

  /** Nothing but an `applied` event changes a reading or asks for a re-detect. */
  lemma OthersStoreNothing(p: Panel, e: Event, now: int)
    requires !Heard(p, e) || !e.Applied?
    ensures After(p, e, now).store == p.store && After(p, e, now).asked == p.asked
    ensures !Heard(p, e) ==> After(p, e, now) == p
  {
  }

  /** The summary line of an event: an applied action's success with what it freed, a
      failed one's reason, under the name its row has. */
  predicate Summed(r: CleanupResult, name: Option<string>, e: Event) {
    && r.name == name
    && match e
       case Applied(_, freed, _, _) =>
         r.success && r.error == None && r.sized == freed.Some?
         && r.freedMB == (match freed case None => None case Some(bytes) => Some(bytes as real / 1048576.0))
       case FailedRow(_, error) =>
         !r.success && !r.sized && r.freedMB == None && r.error == Some(if error == "" then "Unknown error" else error)
       case _ => false
  }

  /** An `applied` or `failed` event of a row has the last word on its id; no other
      summary line changes. */
  lemma SummaryExactly(p: Panel, e: Event, now: int)
    ensures forall id :: id != e.id ==>
              (id in After(p, e, now).results <==> id in p.results)
              && (id in p.results ==> After(p, e, now).results[id] == p.results[id])
    ensures Heard(p, e) && (e.Applied? || e.FailedRow?) ==>
              e.id in After(p, e, now).results && Summed(After(p, e, now).results[e.id], Find(p.steps, e.id).name, e)
    ensures !Heard(p, e) || !(e.Applied? || e.FailedRow?) ==> After(p, e, now).results == p.results
  {
  }

  /** The id's name part, behind its first colon, is one of the docker prunes. */
  predicate DockerPrune(id: string) {
    exists c :: 0 <= c < |id| && ':' !in id[..c] && id[c] == ':'
                && (id[c + 1..] == "docker_prune" || id[c + 1..] == "docker_prune_all")
  }

  lemma {:induction false} NameIsBehindTheColon(id: string)
    ensures IsDockerCleanup(id) <==> DockerPrune(id)
  {
    if ':' in id {
      var c := FirstColon(id);
      assert id == id[..c] + [':'] + id[c + 1..];
      CutAtColon(id[..c], id[c + 1..]);
    } else {
      SplitPrepend(':', id, "");
      assert id + "" == id;
      assert Split(':', id)[1..] == [];
    }
  }

  lemma CutAtColon(category: string, name: string)
    requires ':' !in category
    ensures NameOf(category + [':'] + name) == name
  {
    SplitAcross(':', category, name);
    SplitPrepend(':', category, "");
    assert category + "" == category;
    assert Split(':', category + [':'] + name)[1..] == Split(':', name);
    SplitThenJoin(':', name);
  }

  lemma {:induction false} FirstColon(id: string) returns (c: nat)
    requires ':' in id
    ensures c < |id| && id[c] == ':' && ':' !in id[..c]
  {
    if id[0] == ':' {
      c := 0;
    } else {
      assert id == [id[0]] + id[1..];
      c := FirstColon(id[1..]);
      c := c + 1;
      assert id[..c] == [id[0]] + id[1..][..c - 1];
    }
  }

  /** A re-detect is asked for exactly when a docker prune that is a known setting was
      applied, and it is of every known docker prune that applies here. */
  lemma DockerAskedExactly(p: Panel, e: Event, now: int)
    ensures Heard(p, e) && e.Applied? && e.id in p.store.settings && DockerPrune(e.id) ==>
              |After(p, e, now).asked| == |p.asked| + 1 && After(p, e, now).asked[..|p.asked|] == p.asked
              && forall id :: id in After(p, e, now).asked[|p.asked|]
                              <==> id in p.store.settings && p.store.settings[id].isApplicable && DockerPrune(id)
    ensures !(Heard(p, e) && e.Applied? && e.id in p.store.settings && DockerPrune(e.id)) ==>
              After(p, e, now).asked == p.asked
  {
    forall id
      ensures IsDockerCleanup(id) <==> DockerPrune(id)
    {
      NameIsBehindTheColon(id);
    }
  }
}
