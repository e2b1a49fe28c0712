/** What a run of actions writes into the store while it streams:
    `applyActionEvent` in `store/actionRun.ts` over `store/index.ts`. */
module ActionRun {
  import opened Options
  import opened SettingValues
  import SettingsStore
  import opened SizeReading
  import opened Text

  datatype Status = Queued | Running | Done | Failed | Skipped

  /** One action's live row. The name is `None` when it is `undefined`. */
  datatype Step = Step(
    id: string,
    name: Option<string>,
    status: Status,
    command: string,
    percent: Option<real>,
    reportsProgress: bool,
    durationEstimate: string,
    lines: seq<string>,
    startedAt: int,
    endedAt: Option<int>,
    error: Option<string>)

  datatype CleanupResult = CleanupResult(
    name: Option<string>, success: bool, sized: bool, freedMB: Option<real>, error: Option<string>)

  /** An event, its missing or mistyped text fields read as "" and numbers as `None`. */
  datatype Event =
    | Started(id: string, name: string, estimate: string, reports: bool)
    | Output(id: string, text: string, redraws: bool, percent: Option<real>)
    | Applied(id: string, freed: Option<int>, sizeAfter: Option<nat>, current: string)
    | SkippedRow(id: string)
    | FailedRow(id: string, error: string)
    | Other(id: string)

  /** `asked` is the re-detects the run sent off, oldest first. */
  datatype Panel = Panel(
    steps: seq<Step>, results: map<string, CleanupResult>, store: SettingsStore.Slice, asked: seq<set<string>>)

  const MAX_RUN_LINES := 400

  function OrUndefined(text: string): Option<string> {
    if text == "" then None else Some(text)
  }

  function Begun(id: string, name: string): Step {
    Step(id, Some(name), Queued, "", None, false, "", [], 0, None, None)
  }

  predicate IsAction(settings: map<string, SettingsStore.Setting>, id: string) {
    id in settings && settings[id].isAction
  }

  /** The rows of a run: one for each id that is an action, in order. */
  function BegunSteps(
      settings: map<string, SettingsStore.Setting>, name: string -> string, ids: seq<string>): seq<Step>
  {
    if ids == [] then []
    else
      var id := ids[|ids| - 1];
      BegunSteps(settings, name, ids[..|ids| - 1]) + if IsAction(settings, id) then [Begun(id, name(id))] else []
  }

  /** What stands behind the first colon of an id. */
  function NameOf(id: string): string {
    Join(":", Split(':', id)[1..])
  }

  predicate IsDockerCleanup(id: string) {
    NameOf(id) == "docker_prune" || NameOf(id) == "docker_prune_all"
  }

  /** The docker cleanups that apply here. */
  function DockerIds(settings: map<string, SettingsStore.Setting>): set<string> {
    set id | id in settings && IsDockerCleanup(id) && settings[id].isApplicable
  }

  /** The last `n` lines. */
  function LastLines(lines: seq<string>, n: nat): seq<string> {
    if |lines| <= n then lines else lines[|lines| - n..]
  }

  /** A line redrawn, or one more line. */
  function Drawn(shown: seq<string>, text: string, redraws: bool): seq<string> {
    if redraws && |shown| > 0 then shown[..|shown| - 1] + [text] else shown + [text]
  }

  function Appended(lines: seq<string>, text: string, redraws: bool): seq<string> {
    LastLines(Drawn(lines, text, redraws), MAX_RUN_LINES)
  }

  /** What an event of its own does to a row; `first` when no command is known yet. */
  function Stepped(s: Step, e: Event, now: int, first: bool): Step {
    match e
    case Started(_, name, estimate, reports) =>
      s.(status := Running, startedAt := now, name := OrUndefined(name), durationEstimate := estimate,
         reportsProgress := reports)
    case Output(_, text, redraws, percent) =>
      var written := if first then s.(command := text)
                     else s.(lines := Appended(s.lines, text, redraws));
      if percent.Some? then written.(percent := percent) else written
    case Applied(_, _, _, _) => s.(status := Done, endedAt := Some(now), percent := Some(100.0))
    case SkippedRow(_) => s.(status := Skipped, endedAt := Some(now))
    case FailedRow(_, error) =>
      s.(status := Failed, endedAt := Some(now), error := Some(if error == "" then "Unknown error" else error))
    case Other(_) => s
  }

  predicate HasStep(steps: seq<Step>, id: string) {
    exists i :: 0 <= i < |steps| && steps[i].id == id
  }

  /** `runSteps.find((s) => s.id === id)`. */
  function Find(steps: seq<Step>, id: string): (found: Step)
    requires HasStep(steps, id)
    ensures found in steps && found.id == id
  {
    if steps[0].id == id then steps[0] else Find(steps[1..], id)
  }

  function SteppedAll(steps: seq<Step>, e: Event, now: int): (r: seq<Step>)
    requires HasStep(steps, e.id)
    ensures |r| == |steps|
  {
    var first := Find(steps, e.id).command == "";
    seq(|steps|, i requires 0 <= i < |steps| =>
      if steps[i].id == e.id then Stepped(steps[i], e, now, first) else steps[i])
  }

  /** One setting's reading, with no news of anything else. */
  function ReadingOf(value: string, optimized: bool): SettingsStore.Update {
    SettingsStore.Update(Str(value), optimized, true, Undefined, Undefined, Undefined, SettingsStore.NoNews,
                         Undefined, Undefined)
  }

  /** What an `applied` event says the row holds now. */
  function Reported(e: Event): Option<SettingsStore.Update>
    requires e.Applied?
  {
    if e.sizeAfter.Some? then Some(ReadingOf(Printed(RoundMB(e.sizeAfter.value)), false))
    else
      match ParseActionReading(e.current)
      case None => None
      case Some(reading) => Some(ReadingOf(e.current, reading.Current?))
  }

  function FreedMB(e: Event): Option<real>
    requires e.Applied?
  {
    match e.freed case None => None case Some(bytes) => Some(bytes as real / BYTES_PER_MB as real)
  }

  /** The summary line an event adds: nothing, or the last word on its id. */
  function Outcome(name: Option<string>, e: Event): Option<CleanupResult> {
    match e
    case Applied(_, freed, _, _) => Some(CleanupResult(name, true, freed.Some?, FreedMB(e), None))
    case FailedRow(_, error) =>
      Some(CleanupResult(name, false, false, None, Some(if error == "" then "Unknown error" else error)))
    case _ => None
  }

  predicate Heard(p: Panel, e: Event) {
    e.id != "" && HasStep(p.steps, e.id)
  }

  function After(p: Panel, e: Event, now: int): Panel {
    if !Heard(p, e) then p
    else
      var outcome := Outcome(Find(p.steps, e.id).name, e);
      var reading := if e.Applied? then Reported(e) else None;
      Panel(SteppedAll(p.steps, e, now),
            if outcome.Some? then p.results[e.id := outcome.value] else p.results,
            if reading.Some? then SettingsStore.Finalize(p.store, map[e.id := reading.value], []) else p.store,
            if e.Applied? && e.id in p.store.settings && IsDockerCleanup(e.id)
            then p.asked + [DockerIds(p.store.settings)] else p.asked)
  }

  datatype Moment = Moment(event: Event, now: int)

  function AfterAll(p: Panel, moments: seq<Moment>): Panel {
    if moments == [] then p
    else
      var last := moments[|moments| - 1];
      After(AfterAll(p, moments[..|moments| - 1]), last.event, last.now)
  }

  class RunPanel {
    const store: SettingsStore.SettingsSlice
    var steps: seq<Step>
    var results: map<string, CleanupResult>
    var asked: seq<set<string>>

    ghost function State(): Panel
      reads this, store
    {
      Panel(steps, results, store.View(), asked)
    }

    constructor (store: SettingsStore.SettingsSlice)
      ensures this.store == store && State() == Panel([], map[], store.View(), [])
    {
      this.store, steps, results, asked := store, [], map[], [];
    }

    /** Opens a run for the ids that are actions; without any, the last run stays. */
    method BeginActionRun(ids: seq<string>, name: string -> string)
      modifies this`steps
      ensures var begun := BegunSteps(store.settings, name, ids);
              steps == if begun != [] then begun else old(steps)
    {
      var begun: seq<Step> := [];
      for i := 0 to |ids|
        invariant begun == BegunSteps(store.settings, name, ids[..i])
        invariant steps == old(steps)
      {
        assert ids[..i + 1][..i] == ids[..i];
        if ids[i] in store.settings && store.settings[ids[i]].isAction {
          begun := begun + [Begun(ids[i], name(ids[i]))];
        }
      }
      assert ids[..|ids|] == ids;
      if begun != [] {
        steps := begun;
      }
    }

    /** Writes one row's fields, whatever rows carry the id. */
    method UpdateRunStep(id: string, patch: Step -> Step)
      modifies this`steps
      ensures |steps| == |old(steps)|
      ensures forall i :: 0 <= i < |steps| ==>
                            steps[i] == if old(steps)[i].id == id then patch(old(steps)[i]) else old(steps)[i]
    {
      steps := seq(|steps|, i requires 0 <= i < |steps| reads this =>
        if steps[i].id == id then patch(steps[i]) else steps[i]);
    }

    method SetReading(id: string, value: string, optimized: bool)
      modifies store
      ensures store.View() == SettingsStore.Finalize(old(store.View()), map[id := ReadingOf(value, optimized)], [])
    {
      store.FinalizeDetection(map[id := ReadingOf(value, optimized)], []);
    }

    method OnOutput(e: Event, step: Step, now: int)
      requires e.Output? && HasStep(steps, e.id) && step == Find(steps, e.id)
      modifies this`steps
      ensures steps == SteppedAll(old(steps), e, now)
    {
      if step.command == "" {
        UpdateRunStep(e.id, (s: Step) => s.(command := e.text));
      } else {
        UpdateRunStep(e.id, (s: Step) => s.(lines := Appended(s.lines, e.text, e.redraws)));
      }
      if e.percent.Some? {
        UpdateRunStep(e.id, (s: Step) => s.(percent := e.percent));
      }
    }

    method OnApplied(e: Event, step: Step, now: int)
      requires e.Applied? && HasStep(steps, e.id) && step == Find(steps, e.id) && e.id != ""
      modifies this, store
      ensures State() == After(old(State()), e, now)
    {
      results := results[e.id := CleanupResult(step.name, true, e.freed.Some?, FreedMB(e), None)];
      UpdateRunStep(e.id, (s: Step) => s.(status := Done, endedAt := Some(now), percent := Some(100.0)));
      assert steps == SteppedAll(old(steps), e, now);
      if e.id in store.settings && IsDockerCleanup(e.id) {
        asked := asked + [DockerIds(store.settings)];
      }
      if e.sizeAfter.Some? {
        SetReading(e.id, Printed(RoundMB(e.sizeAfter.value)), false);
        return;
      }
      var reading := ParseActionReading(e.current);
      if reading.Some? {
        SetReading(e.id, e.current, reading.value.Current?);
      }
    }

    method OnFailed(e: Event, step: Step, now: int)
      requires e.FailedRow? && HasStep(steps, e.id) && step == Find(steps, e.id) && e.id != ""
      modifies this
      ensures State() == After(old(State()), e, now)
    {
      var shown := if e.error == "" then "Unknown error" else e.error;
      results := results[e.id := CleanupResult(step.name, false, false, None, Some(shown))];
      UpdateRunStep(e.id, (s: Step) => s.(status := Failed, endedAt := Some(now), error := Some(shown)));
      assert steps == SteppedAll(old(steps), e, now);
    }

    method OnStarted(e: Event, now: int)
      requires e.Started? && HasStep(steps, e.id)
      modifies this`steps
      ensures steps == SteppedAll(old(steps), e, now)
    {
      UpdateRunStep(e.id, (s: Step) =>
        s.(status := Running, startedAt := now, name := OrUndefined(e.name), durationEstimate := e.estimate,
           reportsProgress := e.reports));
    }

    method OnSkipped(e: Event, now: int)
      requires e.SkippedRow? && HasStep(steps, e.id)
      modifies this`steps
      ensures steps == SteppedAll(old(steps), e, now)
    {
      UpdateRunStep(e.id, (s: Step) => s.(status := Skipped, endedAt := Some(now)));
    }

    /** One event of the stream: what it does to the rows, the summary and the readings. */
    method ApplyEvent(e: Event, now: int)
      modifies this, store
      ensures State() == After(old(State()), e, now)
    {
      if e.id == "" || !HasStep(steps, e.id) {
        return;
      }
      var step := Find(steps, e.id);
      match e {
        case Started(_, _, _, _) => OnStarted(e, now);
        case Output(_, _, _, _) => OnOutput(e, step, now);
        case Applied(_, _, _, _) => OnApplied(e, step, now);
        case SkippedRow(_) => OnSkipped(e, now);
        case FailedRow(_, _) => OnFailed(e, step, now);
        case Other(_) => assert SteppedAll(steps, e, now) == steps;
      }
    }
  }

  // ---------------------------------------------------------------------
  // What a row shows after any run
  // ---------------------------------------------------------------------

  predicate DistinctIds(steps: seq<Step>) {
    forall i, j :: 0 <= i < j < |steps| ==> steps[i].id != steps[j].id
  }

  /** A row on its own: the events that name it, one after the other. */
  function StepAfter(s: Step, moments: seq<Moment>): Step {
    if moments == [] then s
    else
      var last := moments[|moments| - 1];
      var before := StepAfter(s, moments[..|moments| - 1]);
      if last.event.id == s.id && s.id != "" then Stepped(before, last.event, last.now, before.command == "")
      else before
  }

  lemma StepsKeepIds(p: Panel, e: Event, now: int)
    ensures |After(p, e, now).steps| == |p.steps|
    ensures forall i :: 0 <= i < |p.steps| ==> After(p, e, now).steps[i].id == p.steps[i].id
  {
  }

  lemma {:induction false} FindDistinct(steps: seq<Step>, i: nat)
    requires DistinctIds(steps) && i < |steps|
    ensures HasStep(steps, steps[i].id) && Find(steps, steps[i].id) == steps[i]
  {
    if i > 0 {
      FindDistinct(steps[1..], i - 1);
    }
  }

  /** Rows do not see each other: however the actions' events interleave, each row
      is what its own events make of it. */
  lemma {:induction false} RowsAreIndependent(p: Panel, moments: seq<Moment>, i: nat)
    requires DistinctIds(p.steps) && i < |p.steps|
    ensures |AfterAll(p, moments).steps| == |p.steps|
    ensures DistinctIds(AfterAll(p, moments).steps)
    ensures AfterAll(p, moments).steps[i] == StepAfter(p.steps[i], moments)
    ensures AfterAll(p, moments).steps[i].id == p.steps[i].id
    decreases |moments|
  {
    if moments != [] {
      var front := moments[..|moments| - 1];
      var last := moments[|moments| - 1];
      var q := AfterAll(p, front);
      RowsAreIndependent(p, front, i);
      StepsKeepIds(q, last.event, last.now);
      FindDistinct(q.steps, i);
      if Heard(q, last.event) && last.event.id == p.steps[i].id {
        assert Find(q.steps, last.event.id) == q.steps[i];
      }
    }
  }

  // ---------------------------------------------------------------------
  // The log of a row
  // ---------------------------------------------------------------------

  datatype Write = Write(text: string, redraws: bool)

  /** What a row's command printed, in order. */
  function Writes(id: string, moments: seq<Moment>): seq<Write> {
    if moments == [] then []
    else
      var e := moments[|moments| - 1].event;
      Writes(id, moments[..|moments| - 1])
      + if e.Output? && e.id == id then [Write(e.text, e.redraws)] else []
  }

  /** The first line that says something is the command itself. */
  function Command(writes: seq<Write>): string {
    if writes == [] then "" else if writes[0].text != "" then writes[0].text else Command(writes[1..])
  }

  function Printout(writes: seq<Write>): seq<Write> {
    if writes == [] then [] else if writes[0].text != "" then writes[1..] else Printout(writes[1..])
  }

  /** The first line, unless the next one redraws it. */
  function Top(writes: seq<Write>): seq<string>
    requires writes != []
  {
    if |writes| > 1 && writes[1].redraws then [] else [writes[0].text]
  }

  /** The lines a screen would show: a line stays unless the next one redraws it. */
  function Screen(writes: seq<Write>): (r: seq<string>)
    ensures writes != [] ==> r != []
  {
    if writes == [] then [] else Top(writes) + Screen(writes[1..])
  }

  lemma ScreenOfOne(w: Write)
    ensures Screen([w]) == [w.text]
  {
    assert [w][1..] == [];
  }

  lemma ScreenOfTwo(v: Write, w: Write)
    ensures Screen([v, w]) == if w.redraws then [w.text] else [v.text, w.text]
  {
    ScreenOfOne(w);
    assert [v, w][1..] == [w];
  }

  lemma DrawnBelow(top: seq<string>, shown: seq<string>, text: string, redraws: bool)
    requires shown != []
    ensures top + Drawn(shown, text, redraws) == Drawn(top + shown, text, redraws)
  {
  }

  lemma {:induction false} ScreenGrows(writes: seq<Write>, w: Write)
    ensures Screen(writes + [w]) == Drawn(Screen(writes), w.text, w.redraws)
  {
    if |writes| == 0 {
      assert writes + [w] == [w];
      ScreenOfOne(w);
    } else if |writes| == 1 {
      assert writes == [writes[0]] && writes + [w] == [writes[0], w];
      ScreenOfOne(writes[0]);
      ScreenOfTwo(writes[0], w);
    } else {
      ScreenGrows(writes[1..], w);
      assert (writes + [w])[1..] == writes[1..] + [w];
      DrawnBelow(Top(writes), Screen(writes[1..]), w.text, w.redraws);
    }
  }

  lemma AppendedIsLast(lines: seq<string>, text: string, redraws: bool)
    ensures Appended(LastLines(lines, MAX_RUN_LINES), text, redraws)
            == LastLines(Drawn(lines, text, redraws), MAX_RUN_LINES)
  {
  }

  lemma {:induction false} PrintoutGrows(writes: seq<Write>, w: Write)
    ensures Command(writes + [w]) == if Command(writes) == "" then w.text else Command(writes)
    ensures Command(writes) == "" ==> Printout(writes) == [] && Printout(writes + [w]) == []
    ensures Command(writes) != "" ==> Printout(writes + [w]) == Printout(writes) + [w]
  {
    if writes == [] {
      assert writes + [w] == [w];
      assert [w][1..] == [];
    } else {
      assert (writes + [w])[1..] == writes[1..] + [w];
      if writes[0].text == "" {
        PrintoutGrows(writes[1..], w);
      }
    }
  }

  /** A row shows its command and the end of what a screen would: the cap drops the
      oldest lines and never disturbs a redraw. */
  lemma LogIsTheScreensEnd(s: Step, moments: seq<Moment>)
    requires s.command == "" && s.lines == [] && s.id != ""
    ensures StepAfter(s, moments).command == Command(Writes(s.id, moments))
    ensures var all := Screen(Printout(Writes(s.id, moments)));
            StepAfter(s, moments).lines == if |all| > 400 then all[|all| - 400..] else all
  {
    LogIsCapped(s, moments);
  }

  lemma {:induction false} LogIsCapped(s: Step, moments: seq<Moment>)
    requires s.command == "" && s.lines == [] && s.id != ""
    ensures StepAfter(s, moments).command == Command(Writes(s.id, moments))
    ensures StepAfter(s, moments).lines == LastLines(Screen(Printout(Writes(s.id, moments))), MAX_RUN_LINES)
    decreases |moments|
  {
    if moments != [] {
      var front := moments[..|moments| - 1];
      var e := moments[|moments| - 1].event;
      LogIsCapped(s, front);
      if e.Output? && e.id == s.id {
        var before := StepAfter(s, front);
        var now := moments[|moments| - 1].now;
        assert StepAfter(s, moments) == Stepped(before, e, now, before.command == "");
        var writes := Writes(s.id, front);
        var w := Write(e.text, e.redraws);
        assert Writes(s.id, moments) == writes + [w];
        OneMoreWrite(before, writes, w, e, now);
      } else {
        assert Writes(s.id, moments) == Writes(s.id, front) + [] == Writes(s.id, front);
        assert StepAfter(s, moments).command == StepAfter(s, front).command;
      }
    }
  }

  lemma OneMoreWrite(row: Step, writes: seq<Write>, w: Write, e: Event, now: int)
    requires e.Output? && w == Write(e.text, e.redraws)
    requires row.command == Command(writes) && row.lines == LastLines(Screen(Printout(writes)), MAX_RUN_LINES)
    ensures var next := Stepped(row, e, now, row.command == "");
            && next.command == Command(writes + [w])
            && next.lines == LastLines(Screen(Printout(writes + [w])), MAX_RUN_LINES)
  {
    PrintoutGrows(writes, w);
    ScreenGrows(Printout(writes), w);
    AppendedIsLast(Screen(Printout(writes)), e.text, e.redraws);
  }

  lemma {:induction false} BegunStepsFollowIds(
      settings: map<string, SettingsStore.Setting>, name: string -> string, ids: seq<string>)
    ensures forall s :: s in BegunSteps(settings, name, ids) ==> s.id in ids && s == Begun(s.id, name(s.id))
  {
    if ids != [] {
      BegunStepsFollowIds(settings, name, ids[..|ids| - 1]);
    }
  }

  lemma {:induction false} BegunStepsDistinct(
      settings: map<string, SettingsStore.Setting>, name: string -> string, ids: seq<string>)
    requires forall i, j :: 0 <= i < j < |ids| ==> ids[i] != ids[j]
    ensures DistinctIds(BegunSteps(settings, name, ids))
  {
    if ids != [] {
      var front := ids[..|ids| - 1];
      BegunStepsDistinct(settings, name, front);
      BegunStepsFollowIds(settings, name, front);
      assert ids[|ids| - 1] !in front;
      var begun := BegunSteps(settings, name, front);
      forall i | 0 <= i < |begun|
        ensures begun[i].id != ids[|ids| - 1]
      {
        assert begun[i] in begun;
      }
    }
  }

  /** A run opened for distinct ids, whatever stream follows: every row shows its own
      command and the end of its own screen. */
  lemma EveryRowShowsItsLog(p: Panel, ids: seq<string>, name: string -> string, moments: seq<Moment>, i: nat)
    requires forall i, j :: 0 <= i < j < |ids| ==> ids[i] != ids[j]
    requires p.steps == BegunSteps(p.store.settings, name, ids)
    requires i < |p.steps| && p.steps[i].id != ""
    ensures |AfterAll(p, moments).steps| == |p.steps|
    ensures var row, writes := AfterAll(p, moments).steps[i], Writes(p.steps[i].id, moments);
            && row.id == p.steps[i].id && row.id in ids
            && row.command == Command(writes)
            && var all := Screen(Printout(writes)); row.lines == if |all| > 400 then all[|all| - 400..] else all
  {
    BegunStepsDistinct(p.store.settings, name, ids);
    BegunStepsFollowIds(p.store.settings, name, ids);
    assert p.steps[i] in p.steps;
    RowsAreIndependent(p, moments, i);
    LogIsTheScreensEnd(p.steps[i], moments);
  }

  // ---------------------------------------------------------------------
  // What the run leaves behind
  // ---------------------------------------------------------------------

  predicate Readable(row: SettingsStore.Setting) {
    && row.currentValue.Str? && ParseActionReading(row.currentValue.s).Some?
    && (row.isOptimized <==> ParseActionReading(row.currentValue.s).value.Current?)
    && row.isApplicable && row.status == SettingsStore.ComputeStatus(row.isOptimized, row.currentValue)
  }

  lemma ReportedIsReadable(e: Event, row: SettingsStore.Setting)
    requires e.Applied? && Reported(e).Some?
    ensures Readable(SettingsStore.Merge(row, Reported(e).value))
  {
    if e.sizeAfter.Some? {
      PrintedIsASize(RoundMB(e.sizeAfter.value));
    }
  }

  /** Every reading a run stores can be read back, and a row it calls optimized is
      one whose upkeep is current. */
  lemma {:induction false} StoredReadingsAreReadable(p: Panel, moments: seq<Moment>, id: string)
    requires id in p.store.settings
    ensures AfterAll(p, moments).store.settings.Keys == p.store.settings.Keys
    ensures var row := AfterAll(p, moments).store.settings[id];
            row == p.store.settings[id] || Readable(row)
    decreases |moments|
  {
    if moments != [] {
      var front := moments[..|moments| - 1];
      var e := moments[|moments| - 1].event;
      StoredReadingsAreReadable(p, front, id);
      if e.Applied? && e.id == id && Reported(e).Some? {
        ReportedIsReadable(e, AfterAll(p, front).store.settings[id]);
      }
    }
  }

  /** Every re-detect a run asks for is of docker cleanups, and misses none that
      applied when the run began. */
  lemma {:induction false} AskedForDocker(p: Panel, moments: seq<Moment>, k: nat)
    requires |p.asked| <= k < |AfterAll(p, moments).asked|
    ensures forall id :: id in AfterAll(p, moments).asked[k] ==> IsDockerCleanup(id)
    ensures DockerIds(p.store.settings) <= AfterAll(p, moments).asked[k]
    decreases |moments|
  {
    if moments != [] {
      var front := moments[..|moments| - 1];
      if k < |AfterAll(p, front).asked| {
        AskedForDocker(p, front, k);
      } else {
        forall id | id in DockerIds(p.store.settings)
          ensures id in DockerIds(AfterAll(p, front).store.settings)
        {
          StoredReadingsAreReadable(p, front, id);
        }
      }
    }
  }

  /** Where a recorded freed figure comes from. */
  predicate Measured(id: string, r: CleanupResult, moments: seq<Moment>) {
    exists k :: 0 <= k < |moments| && moments[k].event.id == id && Records(moments[k].event, r)
  }

  predicate Records(e: Event, r: CleanupResult) {
    match e
    case Applied(_, freed, _, _) =>
      r.success && r.sized == freed.Some? && r.error == None
      && (if freed.Some? then r.freedMB == Some(freed.value as real / BYTES_PER_MB as real) else r.freedMB == None)
    case FailedRow(_, _) => !r.success && !r.sized && r.freedMB == None && r.error.Some? && r.error.value != ""
    case _ => false
  }

  /** A freed figure is the backend's own pair or nothing, never a made-up zero; a
      failure always says why. */
  lemma {:induction false} ResultsAreMeasured(p: Panel, moments: seq<Moment>, id: string)
    requires id in AfterAll(p, moments).results
    ensures (id in p.results && AfterAll(p, moments).results[id] == p.results[id])
            || Measured(id, AfterAll(p, moments).results[id], moments)
    decreases |moments|
  {
    if moments != [] {
      var n := |moments| - 1;
      var q := AfterAll(p, moments[..n]);
      var e := moments[n].event;
      if Heard(q, e) && e.id == id && Outcome(Find(q.steps, id).name, e).Some? {
        assert Records(moments[n].event, AfterAll(p, moments).results[id]);
      } else {
        ResultsAreMeasured(p, moments[..n], id);
        if Measured(id, q.results[id], moments[..n]) {
          var k :| 0 <= k < n && moments[..n][k].event.id == id && Records(moments[..n][k].event, q.results[id]);
          assert moments[k].event.id == id && Records(moments[k].event, q.results[id]);
        }
      }
    }
  }

  /** The last `started` event of a row, if any. */
  function LastStarted(id: string, moments: seq<Moment>): Option<Event> {
    if moments == [] then None
    else
      var e := moments[|moments| - 1].event;
      if e.Started? && e.id == id then Some(e) else LastStarted(id, moments[..|moments| - 1])
  }

  /** A row's name follows its last `started` event, one with none leaving it without. */
  lemma {:induction false} NameKeptExactly(s: Step, moments: seq<Moment>)
    requires s.name.Some? && s.id != ""
    ensures LastStarted(s.id, moments).Some? ==> LastStarted(s.id, moments).value.Started?
    ensures StepAfter(s, moments).name.Some?
            <==> LastStarted(s.id, moments) == None || LastStarted(s.id, moments).value.name != ""
    decreases |moments|
  {
    if moments != [] {
      NameKeptExactly(s, moments[..|moments| - 1]);
    }
  }
}
