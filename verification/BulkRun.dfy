/** The store's operation state and the one streamed bulk run that drives it
    (`useApply`), beside any number of single writes. */
module BulkRun {
  import opened Options
  import opened Text

  type Id = string

  datatype Status = Queued | Running | Verified | Warned | Failed | Skipped

  datatype Message =
    | Summary(done: nat, failed: nat)
    | WithWarnings(count: nat)
    | StreamFailed(reason: string)
    | Stopped
    | WriteOutcome

  datatype Tone = Info | Success | Warning | Trouble

  datatype Notification = Notification(id: nat, message: Message, tone: Tone)

  const MAX_NOTIFICATIONS := 50

  // ---------------------------------------------------------------------
  // The store
  // ---------------------------------------------------------------------

  /** `bulkRun` names the run whose cancel function the store holds. */
  datatype Store = Store(
    status: map<Id, Status>,
    error: map<Id, string>,
    bulkRun: Option<nat>,
    busy: nat,
    isApplying: bool,
    notifications: seq<Notification>,
    sequence: nat)

  const EmptyStore := Store(map[], map[], None, 0, false, [], 0)

  function SetStatus(s: Store, id: Id, status: Status, reason: string): Store {
    s.(status := s.status[id := status],
       error := if reason != "" then s.error[id := reason] else s.error - {id})
  }

  function ClearStatus(s: Store): Store {
    s.(status := map[], error := map[])
  }

  function BeginOperation(s: Store): Store {
    s.(busy := s.busy + 1, isApplying := true)
  }

  function EndOperation(s: Store): Store {
    var busy := if s.busy == 0 then 0 else s.busy - 1;
    s.(busy := busy, isApplying := busy > 0)
  }

  function LastFew(ns: seq<Notification>): seq<Notification> {
    if |ns| <= MAX_NOTIFICATIONS then ns else ns[|ns| - MAX_NOTIFICATIONS..]
  }

  function Notify(s: Store, message: Message, tone: Tone): Store {
    s.(sequence := s.sequence + 1,
       notifications := LastFew(s.notifications + [Notification(s.sequence + 1, message, tone)]))
  }

  function Without(ns: seq<Notification>, id: nat): seq<Notification> {
    if ns == [] then []
    else (if ns[0].id == id then [] else [ns[0]]) + Without(ns[1..], id)
  }

  class AppStore {
    var operationStatus: map<Id, Status>
    var operationError: map<Id, string>
    var bulkRun: Option<nat>
    var busyOperations: nat
    var isApplying: bool
    var notifications: seq<Notification>
    var notificationSequence: nat

    ghost function View(): Store
      reads this
    {
      Store(operationStatus, operationError, bulkRun, busyOperations, isApplying, notifications, notificationSequence)
    }

    constructor ()
      ensures View() == EmptyStore
    {
      operationStatus, operationError, bulkRun := map[], map[], None;
      busyOperations, isApplying := 0, false;
      notifications, notificationSequence := [], 0;
    }

    method SetOperationStatus(id: Id, status: Status, reason: string)
      modifies this
      ensures View() == SetStatus(old(View()), id, status, reason)
    {
      if reason != "" {
        operationError := operationError[id := reason];
      } else {
        operationError := operationError - {id};
      }
      operationStatus := operationStatus[id := status];
    }

    method ClearOperationStatus()
      modifies this
      ensures View() == ClearStatus(old(View()))
    {
      operationStatus, operationError := map[], map[];
    }

    method SetBulkRun(run: Option<nat>)
      modifies this
      ensures View() == old(View()).(bulkRun := run)
    {
      bulkRun := run;
    }

    method BeginOp()
      modifies this
      ensures View() == BeginOperation(old(View()))
    {
      busyOperations := busyOperations + 1;
      isApplying := true;
    }

    method EndOp()
      modifies this
      ensures View() == EndOperation(old(View()))
    {
      busyOperations := if busyOperations > 0 then busyOperations - 1 else 0;
      isApplying := busyOperations > 0;
    }

    method AddNotification(message: Message, tone: Tone)
      modifies this
      ensures View() == Notify(old(View()), message, tone)
    {
      notificationSequence := notificationSequence + 1;
      notifications := LastFew(notifications + [Notification(notificationSequence, message, tone)]);
    }

    method RemoveNotification(id: nat)
      modifies this
      ensures View() == old(View()).(notifications := Without(old(notifications), id))
    {
      var kept: seq<Notification> := [];
      for i := 0 to |notifications|
        invariant View() == old(View())
        invariant kept + Without(notifications[i..], id) == Without(old(notifications), id)
      {
        if notifications[i].id != id {
          kept := kept + [notifications[i]];
        }
      }
      notifications := kept;
    }
  }

  // ---------------------------------------------------------------------
  // One run: what its callbacks do to the store
  // ---------------------------------------------------------------------

  /** A streamed event about one row. Anything that is not an outcome (a line of
      output, `done`) is `Other`. */
  datatype RowEvent =
    | StartedEvent
    | AppliedEvent(warnings: seq<string>)
    | VerifiedEvent
    | FailedEvent(error: string)
    | SkippedEvent
    | Other

  function Reason(s: Store, id: Id): string {
    if id in s.error then s.error[id] else ""
  }

  function OnEvent(s: Store, id: Id, e: RowEvent): Store {
    if id == "" then s
    else match e
      case StartedEvent => SetStatus(s, id, Running, "")
      case AppliedEvent(warnings) =>
        if warnings != [] then SetStatus(s, id, Warned, Join("; ", warnings)) else SetStatus(s, id, Running, "")
      case VerifiedEvent =>
        SetStatus(s, id, if Reason(s, id) != "" then Warned else Verified, Reason(s, id))
      case FailedEvent(error) => SetStatus(s, id, Failed, error)
      case SkippedEvent => SetStatus(s, id, Skipped, "")
      case Other => s
  }

  predicate HasStatus(s: Store, id: Id, wanted: set<Status>) {
    id in s.status && s.status[id] in wanted
  }

  function Count(s: Store, ids: seq<Id>, wanted: set<Status>): nat {
    if ids == [] then 0
    else (if HasStatus(s, ids[0], wanted) then 1 else 0) + Count(s, ids[1..], wanted)
  }

  /** The end of a run with so many rows done and failed. */
  function FinishWith(s: Store, done: nat, failed: nat, warned: set<Id>): Store {
    var s1 := EndOperation(s.(bulkRun := None));
    var s2 := Notify(s1, Summary(done, failed), if failed > 0 || |warned| > 0 then Warning else Success);
    if |warned| > 0 then Notify(s2, WithWarnings(|warned|), Warning) else s2
  }

  /** The end of a run, good or bad. `warned` is the ids that ever warned. */
  function Finish(s: Store, ids: seq<Id>, warned: set<Id>): Store {
    FinishWith(s, Count(s, ids, {Verified, Skipped}), Count(s, ids, {Failed}), warned)
  }

  function QueueAll(s: Store, ids: seq<Id>): Store {
    if ids == [] then s else SetStatus(QueueAll(s, ids[..|ids| - 1]), ids[|ids| - 1], Queued, "")
  }

  /** Every row of the run that is still queued or running fails, for `reason`;
      `seen` is the store as it was when the stream died. */
  function FailUnreached(s: Store, seen: Store, ids: seq<Id>, reason: string): Store {
    if ids == [] then s
    else
      var before := FailUnreached(s, seen, ids[..|ids| - 1], reason);
      var id := ids[|ids| - 1];
      if HasStatus(seen, id, {Queued, Running}) then SetStatus(before, id, Failed, reason) else before
  }

  function SkipQueued(s: Store): Store {
    s.(status := map id | id in s.status :: if s.status[id] == Queued then Skipped else s.status[id],
       error := s.error - (set id | id in s.status && s.status[id] == Queued))
  }

  // ---------------------------------------------------------------------
  // What a run leaves in the store, said outright
  // ---------------------------------------------------------------------

  /** The places of `ids` from `k` on with a status among those wanted. */
  function Places(status: map<Id, Status>, ids: seq<Id>, wanted: set<Status>, k: nat): set<int> {
    set i | k <= i < |ids| && ids[i] in status && status[ids[i]] in wanted
  }

  /** How many entries of `ids` have a status among those wanted. */
  function Tally(status: map<Id, Status>, ids: seq<Id>, wanted: set<Status>): nat {
    |Places(status, ids, wanted, 0)|
  }

  /** New notifications go below the old ones, and the fifty newest stay. */
  predicate Added(was: seq<Notification>, now: seq<Notification>, told: seq<Notification>) {
    var all := was + told;
    now == if |all| > 50 then all[|all| - 50..] else all
  }

  /** One operation less is under way, and no run. */
  predicate Freed(was: Store, now: Store) {
    && now.bulkRun == None && now.busy == (if was.busy > 0 then was.busy - 1 else 0)
    && (now.isApplying <==> now.busy > 0)
  }

  /** The closing notifications of a run, numbered from `n + 1`. */
  function Closing(done: nat, failed: nat, warned: set<Id>, n: nat): seq<Notification> {
    [Notification(n + 1, Summary(done, failed), if failed == 0 && warned == {} then Success else Warning)]
    + if warned == {} then [] else [Notification(n + 2, WithWarnings(|warned|), Warning)]
  }

  /** A finished run: no row is touched, and the user is told what became of them. */
  predicate Finished(was: Store, now: Store, ids: seq<Id>, warned: set<Id>) {
    && now.status == was.status && now.error == was.error && Freed(was, now)
    && Added(was.notifications, now.notifications,
             Closing(Tally(was.status, ids, {Verified, Skipped}), Tally(was.status, ids, {Failed}), warned, was.sequence))
    && now.sequence == was.sequence + (if warned == {} then 1 else 2)
  }

  /** A row of a run whose stream died. */
  predicate RowDied(was: Store, now: Store, ids: seq<Id>, reason: string, id: Id) {
    if id in ids && id in was.status && (was.status[id] == Queued || was.status[id] == Running)
    then id in now.status && now.status[id] == Failed && (if reason == "" then id !in now.error
                                                          else id in now.error && now.error[id] == reason)
    else RowKept(was, now, id)
  }

  predicate RowKept(was: Store, now: Store, id: Id) {
    && (id in now.status <==> id in was.status) && (id in was.status ==> now.status[id] == was.status[id])
    && (id in now.error <==> id in was.error) && (id in was.error ==> now.error[id] == was.error[id])
  }

  /** A run whose stream died: the rows it had not settled fail, the user is told
      why, and the summary counts them. */
  ghost predicate Died(was: Store, now: Store, ids: seq<Id>, warned: set<Id>, reason: string) {
    && (forall id {:trigger RowDied(was, now, ids, reason, id)} :: RowDied(was, now, ids, reason, id)) && Freed(was, now)
    && Added(was.notifications, now.notifications,
            [Notification(was.sequence + 1, StreamFailed(reason), Trouble)]
            + Closing(Tally(now.status, ids, {Verified, Skipped}), Tally(now.status, ids, {Failed}), warned,
                      was.sequence + 1))
    && now.sequence == was.sequence + (if warned == {} then 2 else 3)
  }

  /** A run opened: its rows are queued, and there are no others. */
  ghost predicate Opened(was: Store, now: Store, ids: seq<Id>, k: nat) {
    && (forall id :: id in now.status <==> id in ids) && (forall id :: id in ids ==> now.status[id] == Queued)
    && now.error == map[] && now.bulkRun == Some(k) && now.busy == was.busy + 1 && now.isApplying
    && now.notifications == was.notifications && now.sequence == was.sequence
  }

  /** A row when its run is stopped. */
  predicate RowStopped(was: Store, now: Store, id: Id) {
    if id in was.status && was.status[id] == Queued
    then id in now.status && now.status[id] == Skipped && id !in now.error
    else RowKept(was, now, id)
  }

  ghost predicate Halted(was: Store, now: Store) {
    && (forall id {:trigger RowStopped(was, now, id)} :: RowStopped(was, now, id)) && Freed(was, now)
    && Added(was.notifications, now.notifications, [Notification(was.sequence + 1, Stopped, Info)])
    && now.sequence == was.sequence + 1
  }

  lemma {:induction false} CountsPlaces(s: Store, ids: seq<Id>, wanted: set<Status>, k: nat)
    requires k <= |ids|
    ensures Count(s, ids[k..], wanted) == |Places(s.status, ids, wanted, k)|
    decreases |ids| - k
  {
    if k < |ids| {
      CountsPlaces(s, ids, wanted, k + 1);
      assert ids[k..][1..] == ids[k + 1..];
      var later := Places(s.status, ids, wanted, k + 1);
      assert k !in later;
      assert Places(s.status, ids, wanted, k) == (if HasStatus(s, ids[k], wanted) then {k} else {}) + later;
    } else {
      assert Places(s.status, ids, wanted, k) == {};
    }
  }

  lemma CountIsTally(s: Store, ids: seq<Id>, wanted: set<Status>)
    ensures Count(s, ids, wanted) == Tally(s.status, ids, wanted)
  {
    CountsPlaces(s, ids, wanted, 0);
    assert ids[0..] == ids;
  }

  lemma FinishIsFinished(s: Store, ids: seq<Id>, warned: set<Id>)
    ensures Finished(s, Finish(s, ids, warned), ids, warned)
  {
    CountIsTally(s, ids, {Verified, Skipped});
    CountIsTally(s, ids, {Failed});
    FinishTells(s, Count(s, ids, {Verified, Skipped}), Count(s, ids, {Failed}), warned);
  }

  lemma FinishTells(s: Store, done: nat, failed: nat, warned: set<Id>)
    ensures var now := FinishWith(s, done, failed, warned);
            && now.status == s.status && now.error == s.error && Freed(s, now)
            && Added(s.notifications, now.notifications, Closing(done, failed, warned, s.sequence))
            && now.sequence == s.sequence + (if warned == {} then 1 else 2)
  {
    if warned == {} {
      FinishTellsOnce(s, done, failed);
    } else {
      FinishTellsTwice(s, done, failed, warned);
    }
  }

  lemma FinishTellsOnce(s: Store, done: nat, failed: nat)
    ensures Added(s.notifications, FinishWith(s, done, failed, {}).notifications, Closing(done, failed, {}, s.sequence))
  {
    var tone := if failed > 0 then Warning else Success;
    var first := [Notification(s.sequence + 1, Summary(done, failed), tone)];
    OneTold(EndOperation(s.(bulkRun := None)), Summary(done, failed), tone);
    assert Closing(done, failed, {}, s.sequence) == first;
  }

  lemma FinishTellsTwice(s: Store, done: nat, failed: nat, warned: set<Id>)
    requires warned != {}
    ensures Added(s.notifications, FinishWith(s, done, failed, warned).notifications,
                  Closing(done, failed, warned, s.sequence))
  {
    assert |warned| > 0;
    TwoTold(EndOperation(s.(bulkRun := None)), Summary(done, failed), Warning, WithWarnings(|warned|), Warning);
  }

  lemma {:induction false} CountReadsStatus(s: Store, t: Store, ids: seq<Id>, wanted: set<Status>)
    requires t.status == s.status
    ensures Count(t, ids, wanted) == Count(s, ids, wanted)
  {
    if ids != [] {
      CountReadsStatus(s, t, ids[1..], wanted);
    }
  }

  lemma OneTold(s: Store, m: Message, tone: Tone)
    ensures Added(s.notifications, Notify(s, m, tone).notifications, [Notification(s.sequence + 1, m, tone)])
  {
  }

  lemma TwoTold(s: Store, m: Message, tone: Tone, then': Message, tone': Tone)
    ensures Added(s.notifications, Notify(Notify(s, m, tone), then', tone').notifications,
                  [Notification(s.sequence + 1, m, tone)] + [Notification(s.sequence + 2, then', tone')])
  {
    OneTold(Notify(s, m, tone), then', tone');
    AddedAfter(s.notifications, [Notification(s.sequence + 1, m, tone)], [Notification(s.sequence + 2, then', tone')],
               Notify(Notify(s, m, tone), then', tone').notifications);
  }

  lemma {:induction false} FailUnreachedRow(s: Store, ids: seq<Id>, reason: string, id: Id)
    ensures RowDied(s, FailUnreached(s, s, ids, reason), ids, reason, id)
    ensures var r := FailUnreached(s, s, ids, reason); r == s.(status := r.status, error := r.error)
  {
    if ids != [] {
      FailUnreachedRow(s, ids[..|ids| - 1], reason, id);
      assert ids == ids[..|ids| - 1] + [ids[|ids| - 1]];
    }
  }

  lemma DeathIsDied(s: Store, ids: seq<Id>, warned: set<Id>, reason: string)
    ensures Died(s, Finish(Notify(FailUnreached(s, s, ids, reason), StreamFailed(reason), Trouble), ids, warned),
                 ids, warned, reason)
  {
    var failed := FailUnreached(s, s, ids, reason);
    var before := Notify(failed, StreamFailed(reason), Trouble);
    FailUnreachedRow(s, ids, reason, "");
    FinishIsFinished(before, ids, warned);
    FinishedIsDied(s, failed, Finish(before, ids, warned), ids, warned, reason);
  }

  lemma FinishedIsDied(s: Store, failed: Store, now: Store, ids: seq<Id>, warned: set<Id>, reason: string)
    requires failed == FailUnreached(s, s, ids, reason) && failed == s.(status := failed.status, error := failed.error)
    requires Finished(Notify(failed, StreamFailed(reason), Trouble), now, ids, warned)
    ensures Died(s, now, ids, warned, reason)
  {
    RowsDied(s, now, ids, reason);
    AddedAfter(s.notifications, [Notification(s.sequence + 1, StreamFailed(reason), Trouble)],
               Closing(Tally(now.status, ids, {Verified, Skipped}), Tally(now.status, ids, {Failed}), warned,
                       s.sequence + 1), now.notifications);
  }

  lemma RowsDied(s: Store, now: Store, ids: seq<Id>, reason: string)
    requires now.status == FailUnreached(s, s, ids, reason).status && now.error == FailUnreached(s, s, ids, reason).error
    ensures forall id {:trigger RowDied(s, now, ids, reason, id)} :: RowDied(s, now, ids, reason, id)
  {
    forall id
      ensures RowDied(s, now, ids, reason, id)
    {
      FailUnreachedRow(s, ids, reason, id);
    }
  }

  lemma AddedAfter(was: seq<Notification>, first: seq<Notification>, more: seq<Notification>, now: seq<Notification>)
    requires Added(LastFew(was + first), now, more)
    ensures Added(was, now, first + more)
  {
    assert was + first + more == was + (first + more);
  }

  lemma {:induction false} QueueAllOpens(s: Store, ids: seq<Id>)
    ensures var r := QueueAll(ClearStatus(s), ids);
            && (forall id :: id in r.status <==> id in ids) && (forall id :: id in ids ==> r.status[id] == Queued)
            && r == s.(status := r.status, error := map[])
  {
    if ids != [] {
      QueueAllOpens(s, ids[..|ids| - 1]);
      assert ids == ids[..|ids| - 1] + [ids[|ids| - 1]];
    }
  }

  lemma StopHalts(s: Store)
    ensures Halted(s, StopRun(s))
  {
    forall id
      ensures RowStopped(s, StopRun(s), id)
    {
    }
  }

  /** The callbacks of one run, with the variables they close over. */
  class RunCallbacks {
    const store: AppStore
    const ids: seq<Id>
    var warned: set<Id>

    constructor (store: AppStore, ids: seq<Id>)
      ensures this.store == store && this.ids == ids && warned == {}
    {
      this.store, this.ids, warned := store, ids, {};
    }

    method Event(id: Id, e: RowEvent)
      modifies this`warned, store
      ensures store.View() == OnEvent(old(store.View()), id, e)
      ensures warned == old(warned) + (if id != "" && e.AppliedEvent? && e.warnings != [] then {id} else {})
    {
      if id == "" {
        return;
      }
      match e {
        case StartedEvent => store.SetOperationStatus(id, Running, "");
        case AppliedEvent(warnings) =>
          if |warnings| > 0 {
            warned := warned + {id};
            store.SetOperationStatus(id, Warned, Join("; ", warnings));
          } else {
            store.SetOperationStatus(id, Running, "");
          }
        case VerifiedEvent =>
          var reason := if id in store.operationError then store.operationError[id] else "";
          store.SetOperationStatus(id, if reason != "" then Warned else Verified, reason);
        case FailedEvent(error) => store.SetOperationStatus(id, Failed, error);
        case SkippedEvent => store.SetOperationStatus(id, Skipped, "");
        case Other =>
      }
    }

    method CountRows(wanted: set<Status>) returns (n: nat)
      ensures n == Count(store.View(), ids, wanted)
    {
      n := 0;
      var status := store.operationStatus;
      for i := 0 to |ids|
        invariant n + Count(store.View(), ids[i..], wanted) == Count(store.View(), ids, wanted)
      {
        if ids[i] in status && status[ids[i]] in wanted {
          n := n + 1;
        }
      }
    }

    method Done()
      modifies store
      ensures store.View() == Finish(old(store.View()), ids, warned)
      ensures Finished(old(store.View()), store.View(), ids, warned)
    {
      ghost var was := store.View();
      store.SetBulkRun(None);
      store.EndOp();
      var failed := CountRows({Failed});
      var done := CountRows({Verified, Skipped});
      CountReadsStatus(was, store.View(), ids, {Failed});
      CountReadsStatus(was, store.View(), ids, {Verified, Skipped});
      store.AddNotification(Summary(done, failed), if failed > 0 || |warned| > 0 then Warning else Success);
      if |warned| > 0 {
        store.AddNotification(WithWarnings(|warned|), Warning);
      }
      assert store.View() == FinishWith(was, done, failed, warned);
      FinishIsFinished(was, ids, warned);
    }

    /** The stream died before `done`. */
    method Error(reason: string)
      modifies store
      ensures store.View()
           == Finish(Notify(FailUnreached(old(store.View()), old(store.View()), ids, reason), StreamFailed(reason),
                            Trouble), ids, warned)
      ensures Died(old(store.View()), store.View(), ids, warned, reason)
    {
      var seen := store.operationStatus;
      for i := 0 to |ids|
        invariant store.View() == FailUnreached(old(store.View()), old(store.View()), ids[..i], reason)
      {
        if ids[i] in seen && (seen[ids[i]] == Queued || seen[ids[i]] == Running) {
          store.SetOperationStatus(ids[i], Failed, reason);
        }
        assert ids[..i + 1][..i] == ids[..i];
      }
      assert ids[..|ids|] == ids;
      store.AddNotification(StreamFailed(reason), Trouble);
      Done();
      DeathIsDied(old(store.View()), ids, warned, reason);
    }
  }

  /** Opening run `k`: every row queued, one more operation under way. */
  function StartRun(s: Store, ids: seq<Id>, k: nat): Store {
    BeginOperation(QueueAll(ClearStatus(s), ids)).(bulkRun := Some(k))
  }

  /** What `stop` does after it cancelled the stream. */
  function StopRun(s: Store): Store {
    Notify(EndOperation(SkipQueued(s).(bulkRun := None)), Stopped, Info)
  }

  /** Opens a run, unless one is open or there is nothing to do. */
  method Run(store: AppStore, ids: seq<Id>, k: nat) returns (callbacks: Option<RunCallbacks>)
    modifies store
    ensures callbacks.Some? <==> old(store.bulkRun) == None && ids != []
    ensures store.View() == if callbacks.Some? then StartRun(old(store.View()), ids, k) else old(store.View())
    ensures callbacks.Some? ==> Opened(old(store.View()), store.View(), ids, k)
    ensures callbacks.Some? ==>
              fresh(callbacks.value) && callbacks.value.store == store
              && callbacks.value.ids == ids && callbacks.value.warned == {}
  {
    if store.bulkRun.Some? || |ids| == 0 {
      return None;
    }
    store.ClearOperationStatus();
    for i := 0 to |ids|
      invariant store.View() == QueueAll(ClearStatus(old(store.View())), ids[..i])
    {
      store.SetOperationStatus(ids[i], Queued, "");
      assert ids[..i + 1][..i] == ids[..i];
    }
    assert ids[..|ids|] == ids;
    store.BeginOp();
    var run := new RunCallbacks(store, ids);
    store.SetBulkRun(Some(k));
    QueueAllOpens(old(store.View()), ids);
    callbacks := Some(run);
  }

  method Stop(store: AppStore) returns (cancelled: Option<nat>)
    modifies store
    ensures cancelled == old(store.bulkRun)
    ensures store.View() == if cancelled.Some? then StopRun(old(store.View())) else old(store.View())
    ensures cancelled.Some? ==> Halted(old(store.View()), store.View())
  {
    cancelled := store.bulkRun;
    if cancelled.None? {
      return;
    }
    var seen := store.operationStatus;
    var left := seen.Keys;
    ghost var was := store.View();
    while left != {}
      invariant left <= seen.Keys == store.operationStatus.Keys
      invariant store.View() == was.(status := store.operationStatus, error := store.operationError)
      invariant forall id :: id in seen ==>
                  store.operationStatus[id] == if id !in left && seen[id] == Queued then Skipped else seen[id]
      invariant store.operationError == was.error - (set id | id in seen && id !in left && seen[id] == Queued)
      decreases left
    {
      var id :| id in left;
      if seen[id] == Queued {
        store.SetOperationStatus(id, Skipped, "");
      }
      left := left - {id};
    }
    assert store.View() == SkipQueued(was);
    store.SetBulkRun(None);
    store.EndOp();
    store.AddNotification(Stopped, Info);
    StopHalts(was);
  }
}
