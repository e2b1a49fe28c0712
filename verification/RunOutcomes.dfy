/** What each row of a bulk run ends as, in terms of the events it got. */
module RunOutcomes {
  import opened Options
  import opened Text
  import opened BulkRun
  import opened BulkRunHistory

  /** One row of the store; no reason is the empty one. */
  datatype Row = Row(status: Option<Status>, reason: string)

  function RowOf(s: Store, id: Id): Row {
    Row(if id in s.status then Some(s.status[id]) else None, Reason(s, id))
  }

  const QUEUED := Row(Some(Queued), "")

  function Advance(row: Row, e: RowEvent): Row {
    match e
    case StartedEvent => Row(Some(Running), "")
    case AppliedEvent(ws) => if ws != [] then Row(Some(Warned), Join("; ", ws)) else Row(Some(Running), "")
    case VerifiedEvent => row.(status := Some(if row.reason != "" then Warned else Verified))
    case FailedEvent(error) => Row(Some(Failed), error)
    case SkippedEvent => Row(Some(Skipped), "")
    case Other => row
  }

  function AdvanceAll(row: Row, events: seq<RowEvent>): Row {
    if events == [] then row
    else Advance(AdvanceAll(row, events[..|events| - 1]), events[|events| - 1])
  }

  // ---- the closed form --------------------------------------------------

  /** The last event that sets a status. */
  function LastOutcome(events: seq<RowEvent>): Option<RowEvent> {
    if events == [] then None
    else
      var e := events[|events| - 1];
      if e == Other then LastOutcome(events[..|events| - 1]) else Some(e)
  }

  /** The reason the last event other than `verified` left standing. */
  function Standing(events: seq<RowEvent>): string {
    if events == [] then ""
    else match events[|events| - 1]
      case StartedEvent => ""
      case AppliedEvent(ws) => Join("; ", ws)
      case FailedEvent(error) => error
      case SkippedEvent => ""
      case _ => Standing(events[..|events| - 1])
  }

  function StatusFrom(outcome: Option<RowEvent>, standing: string): Status {
    match outcome
    case None => Queued
    case Some(StartedEvent) => Running
    case Some(AppliedEvent(ws)) => if ws != [] then Warned else Running
    case Some(VerifiedEvent) => if standing == "" then Verified else Warned
    case Some(FailedEvent(_)) => Failed
    case Some(SkippedEvent) => Skipped
    case Some(Other) => Queued
  }

  /** A queued row ends as its last outcome says, with the reason still standing. */
  lemma {:induction false} RowEndsAs(events: seq<RowEvent>)
    ensures AdvanceAll(QUEUED, events)
         == Row(Some(StatusFrom(LastOutcome(events), Standing(events))), Standing(events))
    ensures LastOutcome(events) != Some(Other)
  {
    if events != [] {
      RowEndsAs(events[..|events| - 1]);
    }
  }

  /** A row ends plainly verified exactly when its last outcome is `verified`
      and nothing before it left a reason standing. */
  lemma VerifiedExactly(events: seq<RowEvent>)
    ensures AdvanceAll(QUEUED, events).status == Some(Verified)
            <==> LastOutcome(events) == Some(VerifiedEvent) && Standing(events) == ""
  {
    RowEndsAs(events);
  }

  lemma JoinEmptyExactly(sep: string, parts: seq<string>)
    requires sep != ""
    ensures Join(sep, parts) == "" <==> parts == [] || parts == [""]
  {
    if |parts| >= 2 {
      assert |Join(sep, parts)| >= |sep|;
    }
  }

  /** An event that says a reason anew, or that there is none. */
  predicate SetsReason(e: RowEvent) {
    e != VerifiedEvent && e != Other
  }

  predicate ReasonSet(events: seq<RowEvent>) {
    exists i :: 0 <= i < |events| && SetsReason(events[i])
  }

  lemma {:induction false} AfterWarnings(before: seq<RowEvent>, ws: seq<string>, rest: seq<RowEvent>)
    requires ws != []
    ensures var events := before + [AppliedEvent(ws)] + rest;
            && Standing(events) == (if ReasonSet(rest) then Standing(rest) else Join("; ", ws))
            && LastOutcome(events) == (if LastOutcome(rest).Some? then LastOutcome(rest) else Some(AppliedEvent(ws)))
  {
    if rest == [] {
      assert before + [AppliedEvent(ws)] + rest == before + [AppliedEvent(ws)];
      OneMoreEvent(before, AppliedEvent(ws));
    } else {
      var shorter, last := rest[..|rest| - 1], rest[|rest| - 1];
      AfterWarnings(before, ws, shorter);
      assert before + [AppliedEvent(ws)] + rest == before + [AppliedEvent(ws)] + shorter + [last];
      OneMoreEvent(before + [AppliedEvent(ws)] + shorter, last);
      assert rest == shorter + [last];
      OneMoreEvent(shorter, last);
    }
  }

  lemma OneMoreEvent(events: seq<RowEvent>, e: RowEvent)
    ensures Standing(events + [e]) == if SetsReason(e) then Standing([e]) else Standing(events)
    ensures LastOutcome(events + [e]) == if e == Other then LastOutcome(events) else Some(e)
    ensures ReasonSet(events + [e]) <==> ReasonSet(events) || SetsReason(e)
  {
    assert (events + [e])[..|events|] == events;
    if SetsReason(e) {
      assert SetsReason((events + [e])[|events|]);
    }
    if i :| 0 <= i < |events| && SetsReason(events[i]) {
      assert SetsReason((events + [e])[i]);
    }
  }

  /** A row whose `applied` carried warnings, whatever came before and after, ends
      plainly verified exactly when `verified` is its last outcome and the reason
      standing is empty: the last one said since, or, if none was, the warnings,
      which then are one empty text. */
  lemma WarningsStickExactly(before: seq<RowEvent>, ws: seq<string>, rest: seq<RowEvent>)
    requires ws != []
    ensures AdvanceAll(QUEUED, before + [AppliedEvent(ws)] + rest).status == Some(Verified)
            <==> LastOutcome(rest) == Some(VerifiedEvent)
                 && (if ReasonSet(rest) then Standing(rest) == "" else ws == [""])
  {
    AfterWarnings(before, ws, rest);
    RowEndsAs(before + [AppliedEvent(ws)] + rest);
    JoinEmptyExactly("; ", ws);
  }

  /** Warnings that say something stay: until a later event says a reason anew, the
      row is warned, verified or not. */
  lemma WarnedStaysWarned(before: seq<RowEvent>, ws: seq<string>, rest: seq<RowEvent>)
    requires ws != [] && ws != [""] && !ReasonSet(rest)
    ensures AdvanceAll(QUEUED, before + [AppliedEvent(ws)] + rest)
         == Row(Some(Warned), Join("; ", ws))
  {
    AfterWarnings(before, ws, rest);
    RowEndsAs(before + [AppliedEvent(ws)] + rest);
    JoinEmptyExactly("; ", ws);
    OnlyVerifiedIsLeft(rest);
  }

  lemma {:induction false} OnlyVerifiedIsLeft(events: seq<RowEvent>)
    requires !ReasonSet(events)
    ensures LastOutcome(events) == None || LastOutcome(events) == Some(VerifiedEvent)
  {
    if events != [] {
      var front, last := events[..|events| - 1], events[|events| - 1];
      assert events == front + [last];
      OneMoreEvent(front, last);
      OnlyVerifiedIsLeft(front);
    }
  }

  /** What the reducer makes of one empty warning: the row ends as if there had been none. */
  lemma EmptyWarningIsLost()
    ensures AdvanceAll(QUEUED, [AppliedEvent([""]), VerifiedEvent]).status == Some(Verified)
  {
    assert [AppliedEvent([""]), VerifiedEvent] == [] + [AppliedEvent([""])] + [VerifiedEvent];
    WarningsStickExactly([], [""], [VerifiedEvent]);
  }

  // ---- from the store's history to a row's events -----------------------

  /** Nothing that opens, ends or stops a run. */
  predicate Middle(s: Step) {
    s.BeginWrite? || s.WarnWrite? || s.EndWrite? || s.EventStep? || s.Dismiss? || s.StartStep?
  }

  predicate MidRun(steps: seq<Step>) {
    forall i :: 0 <= i < |steps| ==> Middle(steps[i])
  }

  /** What a step tells row `id`: an event of the stream, or the warnings of a
      single write of that row beside it. */
  function Told(s: Step, id: Id): seq<RowEvent> {
    match s
    case WarnWrite(i, ws) => if i == id then [AppliedEvent(ws)] else []
    case EventStep(_, i, e) => if i == id && id != "" then [e] else []
    case _ => []
  }

  function RowTrace(steps: seq<Step>, id: Id): seq<RowEvent> {
    if steps == [] then [] else RowTrace(steps[..|steps| - 1], id) + Told(steps[|steps| - 1], id)
  }

  lemma SetStatusRow(s: Store, id: Id, status: Status, reason: string, x: Id)
    ensures RowOf(SetStatus(s, id, status, reason), x)
         == if x == id then Row(Some(status), reason) else RowOf(s, x)
  {
  }

  lemma OnEventRow(s: Store, id: Id, e: RowEvent, x: Id)
    ensures RowOf(OnEvent(s, id, e), x)
         == if x == id && id != "" then Advance(RowOf(s, x), e) else RowOf(s, x)
    ensures OnEvent(s, id, e).bulkRun == s.bulkRun
  {
    if id != "" {
      match e {
        case StartedEvent => SetStatusRow(s, id, Running, "", x);
        case AppliedEvent(ws) =>
          SetStatusRow(s, id, Running, "", x);
          SetStatusRow(s, id, Warned, Join("; ", ws), x);
        case VerifiedEvent =>
          SetStatusRow(s, id, if Reason(s, id) != "" then Warned else Verified, Reason(s, id), x);
        case FailedEvent(error) => SetStatusRow(s, id, Failed, error, x);
        case SkippedEvent => SetStatusRow(s, id, Skipped, "", x);
        case Other =>
      }
    }
  }

  lemma RowStep(a: App, s: Step, id: Id)
    requires Enabled(a, s) && Middle(s) && a.store.bulkRun.Some?
    ensures Apply(a, s).store.bulkRun == a.store.bulkRun
    ensures RowOf(Apply(a, s).store, id)
         == if Told(s, id) == [] then RowOf(a.store, id) else Advance(RowOf(a.store, id), Told(s, id)[0])
  {
    match s {
      case WarnWrite(i, ws) => SetStatusRow(a.store, i, Warned, Join("; ", ws), id);
      case EventStep(_, i, e) => OnEventRow(a.store, i, e, id);
      case _ =>
    }
  }

  lemma {:induction false} RunsSnoc(a: App, steps: seq<Step>)
    requires steps != [] && Runs(a, steps)
    ensures var front := steps[..|steps| - 1];
            && Runs(a, front)
            && Enabled(After(a, front), steps[|steps| - 1])
            && After(a, steps) == Apply(After(a, front), steps[|steps| - 1])
    decreases |steps|
  {
    var front := steps[..|steps| - 1];
    if |steps| > 1 {
      RunsSnoc(Apply(a, steps[0]), steps[1..]);
      assert steps[1..][..|steps| - 2] == front[1..];
    }
  }

  /** While a run is open, a row of the store is the row its events make of it,
      whatever other rows and writes do in between. */
  lemma {:induction false} RowFollowsItsEvents(a: App, steps: seq<Step>, id: Id)
    requires Runs(a, steps) && MidRun(steps) && a.store.bulkRun.Some? && RowOf(a.store, id) == QUEUED
    ensures RowOf(After(a, steps).store, id) == AdvanceAll(QUEUED, RowTrace(steps, id))
    ensures After(a, steps).store.bulkRun == a.store.bulkRun
    decreases |steps|
  {
    if steps != [] {
      var front, last := steps[..|steps| - 1], steps[|steps| - 1];
      RunsSnoc(a, steps);
      RowFollowsItsEvents(a, front, id);
      RowStep(After(a, front), last, id);
      if Told(last, id) != [] {
        var trace := RowTrace(steps, id);
        assert trace[..|trace| - 1] == RowTrace(front, id);
      } else {
        assert RowTrace(front, id) + [] == RowTrace(front, id);
      }
    }
  }

  lemma {:induction false} QueueAllRows(s: Store, ids: seq<Id>, id: Id)
    ensures RowOf(QueueAll(s, ids), id) == if id in ids then QUEUED else RowOf(s, id)
  {
    if ids != [] {
      var front := ids[..|ids| - 1];
      QueueAllRows(s, front, id);
      assert ids == front + [ids[|ids| - 1]];
    }
  }

  lemma {:induction false} FailUnreachedRows(s: Store, ids: seq<Id>, reason: string, id: Id)
    ensures RowOf(FailUnreached(s, s, ids, reason), id)
         == if id in ids && HasStatus(s, id, {Queued, Running}) then Row(Some(Failed), reason) else RowOf(s, id)
  {
    if ids != [] {
      var front := ids[..|ids| - 1];
      FailUnreachedRows(s, front, reason, id);
      assert ids == front + [ids[|ids| - 1]];
    }
  }

  /** The row's last outcome settles it: it is there, and it is neither a start
      nor an apply still waiting for its verification. */
  predicate Settles(events: seq<RowEvent>) {
    var last := LastOutcome(events);
    last.Some? && last != Some(StartedEvent) && last != Some(AppliedEvent([]))
  }

  lemma SettlesExactly(events: seq<RowEvent>)
    ensures Settles(events) <==> AdvanceAll(QUEUED, events).status !in {Some(Queued), Some(Running)}
  {
    RowEndsAs(events);
  }

  lemma {:induction false} CountsCoverExactly(s: Store, ids: seq<Id>)
    ensures Count(s, ids, {Verified, Skipped}) + Count(s, ids, {Failed}) + Count(s, ids, {Warned}) <= |ids|
    ensures Count(s, ids, {Verified, Skipped}) + Count(s, ids, {Failed}) + Count(s, ids, {Warned}) == |ids|
            <==> forall id :: id in ids ==> HasStatus(s, id, {Verified, Skipped, Failed, Warned})
  {
    if ids != [] {
      CountsCoverExactly(s, ids[1..]);
      assert ids == [ids[0]] + ids[1..];
      assert ids[0] in ids;
      if forall id :: id in ids ==> HasStatus(s, id, {Verified, Skipped, Failed, Warned}) {
        assert forall id :: id in ids[1..] ==> id in ids;
      }
    }
  }

  ghost predicate RunOpens(a: App, ids: seq<Id>, steps: seq<Step>) {
    && a.store.bulkRun == None && ids != []
    && Runs(Apply(a, StartStep(ids)), steps) && MidRun(steps)
  }

  function AtTheEnd(a: App, ids: seq<Id>, steps: seq<Step>): App
    requires Runs(Apply(a, StartStep(ids)), steps)
  {
    After(Apply(a, StartStep(ids)), steps)
  }

  lemma RowsAtTheEnd(a: App, ids: seq<Id>, steps: seq<Step>, id: Id)
    requires RunOpens(a, ids, steps) && id in ids
    ensures RowOf(AtTheEnd(a, ids, steps).store, id) == AdvanceAll(QUEUED, RowTrace(steps, id))
    ensures HasStatus(AtTheEnd(a, ids, steps).store, id, {Queued, Running}) <==> !Settles(RowTrace(steps, id))
    ensures id in AtTheEnd(a, ids, steps).store.status
  {
    var a1 := Apply(a, StartStep(ids));
    QueueAllKeeps(ClearStatus(a.store), ids);
    QueueAllRows(ClearStatus(a.store), ids, id);
    assert RowOf(a1.store, id) == QUEUED;
    RowFollowsItsEvents(a1, steps, id);
    RowEndsAs(RowTrace(steps, id));
    SettlesExactly(RowTrace(steps, id));
    assert RowOf(AtTheEnd(a, ids, steps).store, id).status.Some?;
  }

  /** The summary of a finished run accounts for every row (done, failed, or
      left warned) exactly when every row's last outcome settled it. */
  lemma SummaryCoversExactly(a: App, ids: seq<Id>, steps: seq<Step>)
    requires RunOpens(a, ids, steps)
    ensures var s := AtTheEnd(a, ids, steps).store;
            Count(s, ids, {Verified, Skipped}) + Count(s, ids, {Failed}) + Count(s, ids, {Warned}) == |ids|
            <==> forall id :: id in ids ==> Settles(RowTrace(steps, id))
  {
    var s := AtTheEnd(a, ids, steps).store;
    CountsCoverExactly(s, ids);
    forall id | id in ids
      ensures HasStatus(s, id, {Verified, Skipped, Failed, Warned}) <==> Settles(RowTrace(steps, id))
    {
      RowsAtTheEnd(a, ids, steps, id);
      SettledOrNot(s, id);
    }
  }

  lemma SettledOrNot(s: Store, id: Id)
    requires id in s.status
    ensures HasStatus(s, id, {Verified, Skipped, Failed, Warned}) <==> !HasStatus(s, id, {Queued, Running})
  {
    match s.status[id] {
      case Queued | Running => assert HasStatus(s, id, {Queued, Running});
      case _ => assert !HasStatus(s, id, {Queued, Running});
    }
  }

  /** The stream of session `k` said that `id` was applied with warnings. */
  predicate WarnedIn(steps: seq<Step>, k: nat, id: Id) {
    exists i :: 0 <= i < |steps| && SaysWarned(steps[i], k, id)
  }

  predicate SaysWarned(s: Step, k: nat, id: Id) {
    id != "" && s.EventStep? && s.k == k && s.id == id && s.event.AppliedEvent? && s.event.warnings != []
  }

  lemma {:induction false} SessionFollows(a: App, steps: seq<Step>, k: nat)
    requires Runs(a, steps) && MidRun(steps) && a.store.bulkRun.Some? && k < |a.sessions|
    ensures After(a, steps).store.bulkRun == a.store.bulkRun && |After(a, steps).sessions| == |a.sessions|
    ensures After(a, steps).sessions[k].ids == a.sessions[k].ids
    ensures forall id :: id in After(a, steps).sessions[k].warned <==> id in a.sessions[k].warned || WarnedIn(steps, k, id)
    decreases |steps|
  {
    if steps != [] {
      var front, last := steps[..|steps| - 1], steps[|steps| - 1];
      RunsSnoc(a, steps);
      SessionFollows(a, front, k);
      RowStep(After(a, front), last, "");
      forall id
        ensures WarnedIn(steps, k, id) <==> WarnedIn(front, k, id) || SaysWarned(last, k, id)
      {
        assert steps == front + [last];
        if WarnedIn(front, k, id) {
          var i :| 0 <= i < |front| && SaysWarned(front[i], k, id);
          assert SaysWarned(steps[i], k, id);
        }
      }
    }
  }

  predicate EndsDone(events: seq<RowEvent>) {
    LastOutcome(events) == Some(SkippedEvent) || (LastOutcome(events) == Some(VerifiedEvent) && Standing(events) == "")
  }

  predicate EndsFailed(events: seq<RowEvent>) {
    LastOutcome(events).Some? && LastOutcome(events).value.FailedEvent?
  }

  function DoneRows(ids: seq<Id>, steps: seq<Step>): set<int> {
    set i | 0 <= i < |ids| && EndsDone(RowTrace(steps, ids[i]))
  }

  function FailedRows(ids: seq<Id>, steps: seq<Step>): set<int> {
    set i | 0 <= i < |ids| && EndsFailed(RowTrace(steps, ids[i]))
  }

  lemma RowCounts(a: App, ids: seq<Id>, steps: seq<Step>, id: Id)
    requires RunOpens(a, ids, steps) && id in ids
    ensures var status := AtTheEnd(a, ids, steps).store.status;
            && id in status
            && (status[id] in {Verified, Skipped} <==> EndsDone(RowTrace(steps, id)))
            && (status[id] in {Failed} <==> EndsFailed(RowTrace(steps, id)))
  {
    var events := RowTrace(steps, id);
    var s := AtTheEnd(a, ids, steps).store;
    assert id in s.status && RowOf(s, id) == AdvanceAll(QUEUED, events) by {
      RowsAtTheEnd(a, ids, steps, id);
    }
    OutcomeCounts(events, s.status[id]);
  }

  lemma OutcomeCounts(events: seq<RowEvent>, status: Status)
    requires AdvanceAll(QUEUED, events).status == Some(status)
    ensures status in {Verified, Skipped} <==> EndsDone(events)
    ensures status in {Failed} <==> EndsFailed(events)
  {
    RowEndsAs(events);
  }

  /** What a run that ends with `done` tells the user: how many of its rows were
      verified or skipped, how many failed, and how many ids were ever applied with
      warnings, each from the stream's own events. */
  lemma SummaryFromEvents(a: App, ids: seq<Id>, steps: seq<Step>)
    requires RunOpens(a, ids, steps)
    ensures var end, k := AtTheEnd(a, ids, steps), |a.sessions|;
            && k < |end.sessions| && end.sessions[k].ids == ids
            && (forall id :: id in end.sessions[k].warned <==> WarnedIn(steps, k, id))
            && Finished(end.store, Apply(end, DoneStep(k)).store, ids, end.sessions[k].warned)
            && Tally(end.store.status, ids, {Verified, Skipped}) == |DoneRows(ids, steps)|
            && Tally(end.store.status, ids, {Failed}) == |FailedRows(ids, steps)|
  {
    var a1, k := Apply(a, StartStep(ids)), |a.sessions|;
    var end := AtTheEnd(a, ids, steps);
    QueueAllKeeps(ClearStatus(a.store), ids);
    SessionFollows(a1, steps, k);
    FinishIsFinished(end.store, ids, end.sessions[k].warned);
    TalliesFollow(a, ids, steps);
  }

  lemma TalliesFollow(a: App, ids: seq<Id>, steps: seq<Step>)
    requires RunOpens(a, ids, steps)
    ensures var status := AtTheEnd(a, ids, steps).store.status;
            && Tally(status, ids, {Verified, Skipped}) == |DoneRows(ids, steps)|
            && Tally(status, ids, {Failed}) == |FailedRows(ids, steps)|
  {
    forall i | 0 <= i < |ids|
      ensures RowCounted(AtTheEnd(a, ids, steps).store.status, ids[i], RowTrace(steps, ids[i]))
    {
      RowCounts(a, ids, steps, ids[i]);
    }
    TalliesOfRows(AtTheEnd(a, ids, steps).store.status, ids, steps);
  }

  predicate RowCounted(status: map<Id, Status>, id: Id, events: seq<RowEvent>) {
    && id in status
    && (status[id] in {Verified, Skipped} <==> EndsDone(events))
    && (status[id] in {Failed} <==> EndsFailed(events))
  }

  lemma TalliesOfRows(status: map<Id, Status>, ids: seq<Id>, steps: seq<Step>)
    requires forall i :: 0 <= i < |ids| ==> RowCounted(status, ids[i], RowTrace(steps, ids[i]))
    ensures Tally(status, ids, {Verified, Skipped}) == |DoneRows(ids, steps)|
    ensures Tally(status, ids, {Failed}) == |FailedRows(ids, steps)|
  {
    assert Places(status, ids, {Verified, Skipped}, 0) == DoneRows(ids, steps);
    assert Places(status, ids, {Failed}, 0) == FailedRows(ids, steps);
  }

  lemma RowAfterError(a: App, k: nat, reason: string, id: Id)
    requires k < |a.sessions| && Enabled(a, ErrorStep(k, reason)) && id in a.sessions[k].ids && id in a.store.status
    ensures var end := Apply(a, ErrorStep(k, reason)).store;
            && RowOf(end, id) == (if HasStatus(a.store, id, {Queued, Running}) then Row(Some(Failed), reason)
                                  else RowOf(a.store, id))
            && id in end.status && end.status[id] !in {Queued, Running}
  {
    FailUnreachedRows(a.store, a.sessions[k].ids, reason, id);
    assert RowOf(FailUnreached(a.store, a.store, a.sessions[k].ids, reason), id).status.Some?;
  }

  /** When the stream dies, at any prefix of it, no row is left queued or
      running: the rows it settled keep what they got to, and every other row
      failed for the stream's reason. */
  lemma StreamErrorSettlesEveryRow(a: App, ids: seq<Id>, steps: seq<Step>, k: nat, reason: string, id: Id)
    requires RunOpens(a, ids, steps) && id in ids
    requires k < |AtTheEnd(a, ids, steps).sessions| && AtTheEnd(a, ids, steps).sessions[k].ids == ids
    ensures var end := Apply(AtTheEnd(a, ids, steps), ErrorStep(k, reason)).store;
            && RowOf(end, id) == (if Settles(RowTrace(steps, id)) then AdvanceAll(QUEUED, RowTrace(steps, id))
                                  else Row(Some(Failed), reason))
            && id in end.status && end.status[id] !in {Queued, Running}
  {
    RowsAtTheEnd(a, ids, steps, id);
    RowAfterError(AtTheEnd(a, ids, steps), k, reason, id);
  }

  /** Stopping leaves no row queued and changes no other row; a row that was
      running stays marked so. */
  lemma StopSkipsTheQueue(a: App, id: Id)
    requires a.store.bulkRun.Some?
    ensures RowOf(Apply(a, StopStep).store, id)
         == if HasStatus(a.store, id, {Queued}) then Row(Some(Skipped), "") else RowOf(a.store, id)
  {
  }
}
