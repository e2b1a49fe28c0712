/** Every interleaving of single writes and bulk runs over one store. */
module BulkRunHistory {
  import opened Options
  import opened Text
  import opened BulkRun

  /** A run's stream is open until it ends, fails, or is cancelled by `stop`. */
  datatype Phase = Open | Cancelled | Over

  datatype Session = Session(ids: seq<Id>, warned: set<Id>, phase: Phase)

  /** `writes` counts the single writes under way. */
  datatype App = App(store: Store, writes: nat, sessions: seq<Session>)

  const Fresh := App(EmptyStore, 0, [])

  datatype Step =
    | BeginWrite
    | WarnWrite(id: Id, warnings: seq<string>)
    | EndWrite(tone: Tone)
    | StartStep(ids: seq<Id>)
    | EventStep(k: nat, id: Id, event: RowEvent)
    | DoneStep(k: nat)
    | ErrorStep(k: nat, reason: string)
    | StopStep
    | Dismiss(note: nat)

  predicate Callback(s: Step) {
    s.EventStep? || s.DoneStep? || s.ErrorStep?
  }

  predicate Enabled(a: App, s: Step) {
    match s
    case WarnWrite(_, warnings) => a.writes > 0 && warnings != []
    case EndWrite(tone) => a.writes > 0 && tone != Info
    case _ => Callback(s) ==> s.k < |a.sessions|
  }

  /** A callback comes from a stream that is still open. */
  predicate Quiet(a: App, s: Step) {
    Callback(s) ==> s.k < |a.sessions| && a.sessions[s.k].phase == Open
  }

  function Close(a: App, k: nat, phase: Phase): seq<Session>
    requires k < |a.sessions|
  {
    a.sessions[k := a.sessions[k].(phase := phase)]
  }

  function Warn(session: Session, id: Id, e: RowEvent): Session {
    if id != "" && e.AppliedEvent? && e.warnings != [] then session.(warned := session.warned + {id}) else session
  }

  function Apply(a: App, s: Step): App
    requires Enabled(a, s)
  {
    match s
    case BeginWrite => a.(store := BeginOperation(a.store), writes := a.writes + 1)
    case WarnWrite(id, warnings) => a.(store := SetStatus(a.store, id, Warned, Join("; ", warnings)))
    case EndWrite(tone) =>
      a.(store := EndOperation(Notify(a.store, WriteOutcome, tone)), writes := a.writes - 1)
    case StartStep(ids) =>
      if a.store.bulkRun.Some? || ids == [] then a
      else App(StartRun(a.store, ids, |a.sessions|), a.writes, a.sessions + [Session(ids, {}, Open)])
    case EventStep(k, id, e) =>
      a.(store := OnEvent(a.store, id, e), sessions := a.sessions[k := Warn(a.sessions[k], id, e)])
    case DoneStep(k) =>
      a.(store := Finish(a.store, a.sessions[k].ids, a.sessions[k].warned), sessions := Close(a, k, Over))
    case ErrorStep(k, reason) =>
      var ids := a.sessions[k].ids;
      a.(store := Finish(Notify(FailUnreached(a.store, a.store, ids, reason), StreamFailed(reason), Trouble),
                         ids, a.sessions[k].warned),
         sessions := Close(a, k, Over))
    case StopStep =>
      if a.store.bulkRun == None then a
      else if a.store.bulkRun.value < |a.sessions| then
        a.(store := StopRun(a.store), sessions := Close(a, a.store.bulkRun.value, Cancelled))
      else a.(store := StopRun(a.store))
    case Dismiss(note) => a.(store := a.store.(notifications := Without(a.store.notifications, note)))
  }

  predicate Runs(a: App, steps: seq<Step>)
    decreases |steps|
  {
    steps == [] || (Enabled(a, steps[0]) && Runs(Apply(a, steps[0]), steps[1..]))
  }

  function After(a: App, steps: seq<Step>): App
    requires Runs(a, steps)
    decreases |steps|
  {
    if steps == [] then a else After(Apply(a, steps[0]), steps[1..])
  }

  /** No cancelled or finished stream calls back. */
  predicate RunsQuietly(a: App, steps: seq<Step>)
    decreases |steps|
  {
    steps == [] || (Enabled(a, steps[0]) && Quiet(a, steps[0]) && RunsQuietly(Apply(a, steps[0]), steps[1..]))
  }

  lemma {:induction false} QuietRunsAreRuns(a: App, steps: seq<Step>)
    requires RunsQuietly(a, steps)
    ensures Runs(a, steps)
    decreases |steps|
  {
    if steps != [] {
      QuietRunsAreRuns(Apply(a, steps[0]), steps[1..]);
    }
  }

  // ---------------------------------------------------------------------
  // The operation counter
  // ---------------------------------------------------------------------

  /** The counter is the open writes plus the open run, and the store's run is
      the one session that is open. */
  ghost predicate Balanced(a: App) {
    && a.store.busy == a.writes + (if a.store.bulkRun.Some? then 1 else 0)
    && (a.store.isApplying <==> a.store.busy > 0)
    && (forall k: nat :: k < |a.sessions| ==> (a.sessions[k].phase == Open <==> a.store.bulkRun == Some(k)))
    && (a.store.bulkRun.Some? ==> a.store.bulkRun.value < |a.sessions|)
  }

  lemma {:induction false} QueueAllKeeps(s: Store, ids: seq<Id>)
    ensures QueueAll(s, ids) == s.(status := QueueAll(s, ids).status, error := QueueAll(s, ids).error)
  {
    if ids != [] {
      QueueAllKeeps(s, ids[..|ids| - 1]);
    }
  }

  lemma {:induction false} FailUnreachedKeeps(s: Store, seen: Store, ids: seq<Id>, reason: string)
    ensures var r := FailUnreached(s, seen, ids, reason); r == s.(status := r.status, error := r.error)
  {
    if ids != [] {
      FailUnreachedKeeps(s, seen, ids[..|ids| - 1], reason);
    }
  }

  lemma BalancedStep(a: App, s: Step)
    requires Balanced(a) && Enabled(a, s) && Quiet(a, s)
    ensures Balanced(Apply(a, s))
  {
    match s {
      case StartStep(ids) => QueueAllKeeps(ClearStatus(a.store), ids);
      case ErrorStep(k, reason) => FailUnreachedKeeps(a.store, a.store, a.sessions[k].ids, reason);
      case _ =>
    }
  }

  lemma {:induction false} BalancedFrom(a: App, steps: seq<Step>)
    requires Balanced(a) && RunsQuietly(a, steps)
    ensures Runs(a, steps) && Balanced(After(a, steps))
    decreases |steps|
  {
    if steps != [] {
      BalancedStep(a, steps[0]);
      BalancedFrom(Apply(a, steps[0]), steps[1..]);
    }
  }

  /** In every reachable state the counter is exact, provided a cancelled stream
      stays silent: it counts the open writes, plus one for an open run, and the
      application is busy exactly when something is open. */
  lemma CounterIsExact(steps: seq<Step>)
    requires RunsQuietly(Fresh, steps)
    ensures Runs(Fresh, steps)
    ensures var a := After(Fresh, steps);
            && a.store.busy == a.writes + (if exists k :: 0 <= k < |a.sessions| && a.sessions[k].phase == Open then 1 else 0)
            && (a.store.isApplying <==> a.store.busy > 0)
            && (forall j, k | 0 <= j < |a.sessions| && 0 <= k < |a.sessions| ::
                  a.sessions[j].phase == Open && a.sessions[k].phase == Open ==> j == k)
  {
    BalancedFrom(Fresh, steps);
    var a := After(Fresh, steps);
    if a.store.bulkRun.Some? {
      assert a.sessions[a.store.bulkRun.value].phase == Open;
    }
  }

  /** The silence is needed. A late callback keeps the balance exactly when it
      is an event, or ends a run while nothing at all is under way. */
  lemma LateCallbackExactly(a: App, s: Step)
    requires Balanced(a) && Enabled(a, s) && Callback(s) && !Quiet(a, s)
    ensures Balanced(Apply(a, s)) <==> s.EventStep? || a.store.busy == 0
  {
    if s.ErrorStep? {
      FailUnreachedKeeps(a.store, a.store, a.sessions[s.k].ids, s.reason);
    }
    var a' := Apply(a, s);
    if a.store.bulkRun.Some? && !s.EventStep? {
      assert a'.sessions[a.store.bulkRun.value].phase == Open;
    }
  }

  // ---------------------------------------------------------------------
  // Notifications
  // ---------------------------------------------------------------------

  ghost predicate Increasing(ns: seq<Notification>, bound: nat) {
    && (forall i :: 0 <= i < |ns| ==> ns[i].id <= bound)
    && (forall i, j :: 0 <= i < j < |ns| ==> ns[i].id < ns[j].id)
  }

  ghost predicate NotesFresh(s: Store) {
    |s.notifications| <= MAX_NOTIFICATIONS && Increasing(s.notifications, s.sequence)
  }

  lemma IncreasingDrop(ns: seq<Notification>, bound: nat, d: nat)
    requires Increasing(ns, bound) && d <= |ns|
    ensures Increasing(ns[d..], bound)
  {
  }

  lemma IncreasingAppend(ns: seq<Notification>, bound: nat, m: Message, tone: Tone)
    requires Increasing(ns, bound)
    ensures Increasing(ns + [Notification(bound + 1, m, tone)], bound + 1)
  {
    var all := ns + [Notification(bound + 1, m, tone)];
    forall i, j | 0 <= i < j < |all|
      ensures all[i].id < all[j].id
    {
      assert all[i] == ns[i];
    }
  }

  lemma NotifyFresh(s: Store, m: Message, tone: Tone)
    requires NotesFresh(s)
    ensures NotesFresh(Notify(s, m, tone))
  {
    IncreasingAppend(s.notifications, s.sequence, m, tone);
    var all := s.notifications + [Notification(s.sequence + 1, m, tone)];
    if |all| > MAX_NOTIFICATIONS {
      IncreasingDrop(all, s.sequence + 1, |all| - MAX_NOTIFICATIONS);
    }
  }

  lemma {:induction false} WithoutMembers(ns: seq<Notification>, id: nat)
    ensures |Without(ns, id)| <= |ns|
    ensures forall n :: n in Without(ns, id) <==> n in ns && n.id != id
  {
    if ns != [] {
      WithoutMembers(ns[1..], id);
      assert ns == [ns[0]] + ns[1..];
    }
  }

  lemma {:induction false} WithoutFresh(ns: seq<Notification>, id: nat)
    requires forall i, j :: 0 <= i < j < |ns| ==> ns[i].id < ns[j].id
    ensures var r := Without(ns, id);
            && |r| <= |ns|
            && (forall n :: n in r <==> n in ns && n.id != id)
            && (forall i, j :: 0 <= i < j < |r| ==> r[i].id < r[j].id)
  {
    WithoutMembers(ns, id);
    if ns != [] {
      var tail := ns[1..];
      WithoutFresh(tail, id);
      var rest := Without(tail, id);
      forall i | 0 <= i < |rest|
        ensures ns[0].id < rest[i].id
      {
        assert rest[i] in tail;
        var j :| 0 <= j < |tail| && tail[j] == rest[i];
        assert ns[j + 1] == tail[j];
      }
    }
  }

  lemma NotesStep(a: App, s: Step)
    requires NotesFresh(a.store) && Enabled(a, s)
    ensures NotesFresh(Apply(a, s).store)
  {
    match s {
      case EndWrite(tone) => NotifyFresh(a.store, WriteOutcome, tone);
      case StartStep(ids) => QueueAllKeeps(ClearStatus(a.store), ids);
      case DoneStep(k) => FinishFresh(a.store, a.sessions[k].ids, a.sessions[k].warned);
      case ErrorStep(k, reason) =>
        FailUnreachedKeeps(a.store, a.store, a.sessions[k].ids, reason);
        var failed := FailUnreached(a.store, a.store, a.sessions[k].ids, reason);
        NotifyFresh(failed, StreamFailed(reason), Trouble);
        FinishFresh(Notify(failed, StreamFailed(reason), Trouble), a.sessions[k].ids, a.sessions[k].warned);
      case StopStep => NotifyFresh(EndOperation(SkipQueued(a.store).(bulkRun := None)), Stopped, Info);
      case Dismiss(note) =>
        WithoutFresh(a.store.notifications, note);
        var r := Without(a.store.notifications, note);
        assert forall i :: 0 <= i < |r| ==> r[i] in r;
      case _ =>
    }
  }

  lemma FinishFresh(s: Store, ids: seq<Id>, warned: set<Id>)
    requires NotesFresh(s)
    ensures NotesFresh(Finish(s, ids, warned))
  {
    var s1 := EndOperation(s.(bulkRun := None));
    var failed := Count(s, ids, {Failed});
    var m := Summary(Count(s, ids, {Verified, Skipped}), failed);
    var tone := if failed > 0 || |warned| > 0 then Warning else Success;
    NotifyFresh(s1, m, tone);
    NotifyFresh(Notify(s1, m, tone), WithWarnings(|warned|), Warning);
  }

  lemma {:induction false} NotesFrom(a: App, steps: seq<Step>)
    requires NotesFresh(a.store) && Runs(a, steps)
    ensures NotesFresh(After(a, steps).store)
    decreases |steps|
  {
    if steps != [] {
      NotesStep(a, steps[0]);
      NotesFrom(Apply(a, steps[0]), steps[1..]);
    }
  }

  /** At most fifty notifications are kept, no two share an id, and dismissing
      one removes that one and no other. */
  lemma DismissRemovesExactlyOne(steps: seq<Step>, n: Notification)
    requires Runs(Fresh, steps) && n in After(Fresh, steps).store.notifications
    ensures var before := After(Fresh, steps).store.notifications;
            && |before| <= MAX_NOTIFICATIONS
            && (forall m :: m in Without(before, n.id) <==> m in before && m != n)
  {
    NotesFrom(Fresh, steps);
    WithoutFresh(After(Fresh, steps).store.notifications, n.id);
  }
}
