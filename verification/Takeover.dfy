/** How a newer start takes over from a running one, in time.

    Two bounded loops in two processes compose: the old process waits for a
    running operation before it stops (`stop_when_idle`), and the new one polls
    the lock port until it comes free (`_wait_for_lock`). Time is real seconds;
    what the machine does at each moment is a parameter. */
module Takeover {
  import opened Options

  const TAKEOVER_WAIT := 20.0
  const TAKEOVER_STOP_WAIT := 70.0
  const TAKEOVER_RECLAIM_WAIT := 10.0
  const TAKEOVER_POLL := 0.25
  const TAKEOVER_PROGRESS := 5.0

  function Ceiling(x: real): (n: int)
    ensures x <= n as real < x + 1.0
  {
    -((-x).Floor)
  }

  // ---------------------------------------------------------------------
  // The old instance: waiting for a running operation, then stopping
  // ---------------------------------------------------------------------

  /** When the loop looks, and what it sees. The j-th look at the operation lock
      starts at `asked(j)`, answers `busy(j)`, and the clock after it reads `now(j)`. */
  datatype Looks = Looks(asked: nat -> real, now: nat -> real, busy: nat -> bool)

  /** The clock never goes back, and a sleep lasts at least `poll` seconds. */
  ghost predicate LooksInOrder(e: Looks, poll: real) {
    forall j: nat :: e.asked(j) <= e.now(j) && e.now(j) + poll <= e.asked(j + 1)
  }

  /** No look takes longer than `check`, and no sleep overruns by more than `late`. */
  ghost predicate LooksWithin(e: Looks, poll: real, check: real, late: real) {
    forall j: nat :: e.now(j) <= e.asked(j) + check && e.asked(j + 1) <= e.now(j) + poll + late
  }

  /** The wait is over after look `j`: every earlier one found the operation
      running before the deadline, and this one found it over or was past it. */
  ghost predicate WaitEndsAt(e: Looks, started: real, wait: real, j: nat) {
    && (forall i: nat :: i < j ==> e.busy(i) && e.now(i) < started + wait)
    && (!e.busy(j) || e.now(j) >= started + wait)
  }

  lemma {:induction false} LookTime(e: Looks, poll: real, j: nat)
    requires poll >= 0.0 && LooksInOrder(e, poll)
    ensures e.now(j) >= e.asked(0) + j as real * poll
  {
    if j > 0 {
      LookTime(e, poll, j - 1);
      assert e.now(j - 1) + poll <= e.asked(j - 1 + 1);
    }
  }

  /** An elapsed time of k polls that is still short of the timeout bounds k. */
  lemma PollsBound(k: nat, poll: real, timeout: real)
    requires poll > 0.0 && k as real * poll < timeout
    ensures k < Ceiling(timeout / poll)
  {
    if k as real >= timeout / poll {
      assert k as real * poll >= timeout / poll * poll;
    }
  }

  class ShutdownHook {
    /** Whether a server registered how it is told to stop. */
    var installed: bool
    var pending: bool
    /** How often the registered callable has been called. */
    var stops: nat

    constructor ()
      ensures !installed && !pending && stops == 0
    {
      installed, pending, stops := false, false, 0;
    }

    method InstallStopHook()
      modifies this`installed
      ensures installed
    {
      installed := true;
    }

    method ClearStopHook()
      modifies this`installed
      ensures !installed
    {
      installed := false;
    }

    method MarkPending()
      modifies this`pending
      ensures pending
    {
      pending := true;
    }

    /** Waits, bounded, for the operation lock; then stops the server if the hook
        is still there. `last` is the look the wait ended at. */
    method StopWhenIdle(e: Looks, started: real, wait: real, poll: real) returns (last: nat, announced: bool)
      requires poll > 0.0 && started <= e.asked(0) && LooksInOrder(e, poll)
      modifies this`stops
      ensures WaitEndsAt(e, started, wait, last)
      ensures announced <==> e.busy(0)
      ensures stops == if installed then old(stops) + 1 else old(stops)
      ensures last == 0 || last <= Ceiling(wait / poll)
    {
      var deadline := started + wait;
      announced := false;
      last := 0;
      while e.busy(last)
        invariant forall i: nat :: i < last ==> e.busy(i) && e.now(i) < deadline
        invariant announced <==> last > 0
        invariant stops == old(stops)
        invariant last == 0 || last <= Ceiling(wait / poll)
        decreases Ceiling(wait / poll) - last
      {
        announced := true;
        if e.now(last) >= deadline {
          break;
        }
        LookTime(e, poll, last);
        PollsBound(last, poll, wait);
        last := last + 1;
      }
      if installed {
        stops := stops + 1;
      }
    }
  }

  /** The wait ends at most one poll and one look past its deadline. */
  lemma StopTime(e: Looks, started: real, wait: real, poll: real, check: real, late: real, j: nat)
    requires wait >= 0.0 && poll >= 0.0 && late >= 0.0
    requires LooksWithin(e, poll, check, late) && e.asked(0) == started
    requires WaitEndsAt(e, started, wait, j)
    ensures e.now(j) <= started + wait + poll + late + check
  {
    if j > 0 {
      assert e.now(j - 1) < started + wait;
      assert e.asked(j - 1 + 1) <= e.now(j - 1) + poll + late;
    }
  }

  // ---------------------------------------------------------------------
  // Several stop requests
  // ---------------------------------------------------------------------

  /** One handler of the stop request: it checks that the server can be stopped
      and that no stop is pending, awaits the operation lock, and only then marks
      the stop pending and schedules it. */
  datatype Handler = Checking | Awaiting | Answered

  datatype Requests = Requests(handlers: seq<Handler>, installed: bool, pending: bool, scheduled: nat)

  /** What happens next: a handler goes on, or the server's owner registers or
      forgets how it is stopped. */
  datatype Tick = Handle(i: nat) | Install | Clear

  function Advance(r: Requests, t: Tick): Requests {
    match t
    case Install => r.(installed := true)
    case Clear => r.(installed := false)
    case Handle(i) =>
      if i >= |r.handlers| then r
      else match r.handlers[i]
        case Checking =>
          r.(handlers := r.handlers[i := if !r.installed || r.pending then Answered else Awaiting])
        case Awaiting => r.(handlers := r.handlers[i := Answered], pending := true, scheduled := r.scheduled + 1)
        case Answered => r
  }

  function AdvanceAll(r: Requests, ticks: seq<Tick>): Requests {
    if ticks == [] then r else Advance(AdvanceAll(r, ticks[..|ticks| - 1]), ticks[|ticks| - 1])
  }

  class StopRoute {
    const hook: ShutdownHook
    var handlers: seq<Handler>
    var scheduled: nat

    ghost function View(): Requests
      reads this, hook
    {
      Requests(handlers, hook.installed, hook.pending, scheduled)
    }

    constructor (hook: ShutdownHook, requests: nat)
      ensures this.hook == hook && scheduled == 0
      ensures handlers == seq(requests, _ => Checking)
    {
      this.hook, handlers, scheduled := hook, seq(requests, _ => Checking), 0;
    }

    method ServerStarts()
      modifies hook`installed
      ensures View() == Advance(old(View()), Install)
    {
      hook.InstallStopHook();
    }

    method ServerReturned()
      modifies hook`installed
      ensures View() == Advance(old(View()), Clear)
    {
      hook.ClearStopHook();
    }

    /** A handler, up to its await or from it on. */
    method HandleNext(i: nat)
      requires i < |handlers|
      modifies this, hook`pending
      ensures View() == Advance(old(View()), Handle(i))
    {
      match handlers[i] {
        case Checking =>
          if !hook.installed {
            handlers := handlers[i := Answered];
          } else if hook.pending {
            handlers := handlers[i := Answered];
          } else {
            handlers := handlers[i := Awaiting];
          }
        case Awaiting =>
          hook.MarkPending();
          scheduled := scheduled + 1;
          handlers := handlers[i := Answered];
        case Answered =>
      }
    }
  }

  function AwaitingCount(hs: seq<Handler>): nat {
    if hs == [] then 0 else (if hs[0] == Awaiting then 1 else 0) + AwaitingCount(hs[1..])
  }

  lemma {:induction false} AwaitingUpdate(hs: seq<Handler>, i: nat, h: Handler)
    requires i < |hs|
    ensures AwaitingCount(hs[i := h])
         == AwaitingCount(hs) - (if hs[i] == Awaiting then 1 else 0) + (if h == Awaiting then 1 else 0)
  {
    if i == 0 {
      assert hs[0 := h][1..] == hs[1..];
    } else {
      assert hs[i := h][1..] == hs[1..][i - 1 := h];
      AwaitingUpdate(hs[1..], i - 1, h);
    }
  }

  /** Stops scheduled, and those on their way to it. */
  function OnTheWay(r: Requests): nat {
    r.scheduled + AwaitingCount(r.handlers)
  }

  /** Handler `i` is about to pass the check. */
  predicate Passes(r: Requests, t: Tick) {
    t.Handle? && t.i < |r.handlers| && r.handlers[t.i] == Checking && r.installed && !r.pending
  }

  /** It passes while another handler is between its own check and its mark. */
  predicate Clash(r: Requests, t: Tick) {
    Passes(r, t) && AwaitingCount(r.handlers) > 0
  }

  lemma OneMoreOnTheWay(r: Requests, t: Tick)
    ensures OnTheWay(Advance(r, t)) == OnTheWay(r) + if Passes(r, t) then 1 else 0
  {
    if t.Handle? && t.i < |r.handlers| {
      AwaitingUpdate(r.handlers, t.i, Awaiting);
      AwaitingUpdate(r.handlers, t.i, Answered);
    }
  }

  /** What has passed the check is never called back. */
  lemma {:induction false} OnTheWayGrows(r: Requests, ticks: seq<Tick>, k: nat)
    requires k <= |ticks|
    ensures OnTheWay(AdvanceAll(r, ticks[..k])) <= OnTheWay(AdvanceAll(r, ticks))
    decreases |ticks|
  {
    if k == |ticks| {
      assert ticks[..k] == ticks;
    } else {
      var front := ticks[..|ticks| - 1];
      assert front[..k] == ticks[..k];
      OnTheWayGrows(r, front, k);
      OneMoreOnTheWay(AdvanceAll(r, front), ticks[|ticks| - 1]);
    }
  }

  /** Requests that have not been looked at. */
  predicate Unasked(r: Requests) {
    !r.pending && r.scheduled == 0 && forall h :: h in r.handlers ==> h == Checking
  }

  lemma {:induction false} NoneAwaiting(hs: seq<Handler>)
    requires forall h :: h in hs ==> h == Checking
    ensures AwaitingCount(hs) == 0
  {
    if hs != [] {
      assert hs[0] in hs && forall h :: h in hs[1..] ==> h in hs;
      NoneAwaiting(hs[1..]);
    }
  }

  lemma {:induction false} PendingOnceScheduled(r: Requests, ticks: seq<Tick>)
    requires Unasked(r)
    ensures AdvanceAll(r, ticks).pending <==> AdvanceAll(r, ticks).scheduled > 0
  {
    if ticks != [] {
      PendingOnceScheduled(r, ticks[..|ticks| - 1]);
    }
  }

  lemma {:induction false} NoClashNoSecondStop(r: Requests, ticks: seq<Tick>)
    requires Unasked(r)
    requires forall k :: 0 <= k < |ticks| ==> !Clash(AdvanceAll(r, ticks[..k]), ticks[k])
    ensures OnTheWay(AdvanceAll(r, ticks)) <= 1
  {
    if ticks == [] {
      NoneAwaiting(r.handlers);
    } else {
      var n := |ticks| - 1;
      var front := ticks[..n];
      forall k | 0 <= k < n
        ensures !Clash(AdvanceAll(r, front[..k]), front[k])
      {
        assert front[..k] == ticks[..k];
      }
      NoClashNoSecondStop(r, front);
      PendingOnceScheduled(r, front);
      assert !Clash(AdvanceAll(r, ticks[..n]), ticks[n]);
      OneMoreOnTheWay(AdvanceAll(r, front), ticks[n]);
    }
  }

  /** Over any requests and any schedule of them, hooks coming and going: once no
      handler is between check and mark, at most one stop has been scheduled
      exactly when no handler passed the check while another was there. */
  lemma SecondStopExactly(r: Requests, ticks: seq<Tick>)
    requires Unasked(r) && AwaitingCount(AdvanceAll(r, ticks).handlers) == 0
    ensures AdvanceAll(r, ticks).scheduled <= 1
            <==> forall k :: 0 <= k < |ticks| ==> !Clash(AdvanceAll(r, ticks[..k]), ticks[k])
  {
    if k :| 0 <= k < |ticks| && Clash(AdvanceAll(r, ticks[..k]), ticks[k]) {
      ClashMeansTwo(r, ticks, k);
    } else {
      NoClashNoSecondStop(r, ticks);
    }
  }

  lemma ClashMeansTwo(r: Requests, ticks: seq<Tick>, k: nat)
    requires k < |ticks| && Clash(AdvanceAll(r, ticks[..k]), ticks[k])
    ensures OnTheWay(AdvanceAll(r, ticks)) >= 2
  {
    var before := AdvanceAll(r, ticks[..k]);
    OneMoreOnTheWay(before, ticks[k]);
    NextTick(r, ticks, k);
    OnTheWayGrows(r, ticks, k + 1);
  }

  lemma NextTick(r: Requests, ticks: seq<Tick>, k: nat)
    requires k < |ticks|
    ensures AdvanceAll(r, ticks[..k + 1]) == Advance(AdvanceAll(r, ticks[..k]), ticks[k])
  {
    assert ticks[..k + 1][..k] == ticks[..k];
  }

  const TwoRequests := Requests([Checking, Checking], true, false, 0)

  /** Two requests that interleave at the await schedule two stops. */
  lemma TwoRequestsCanScheduleTwoStops()
    ensures Unasked(TwoRequests)
    ensures AdvanceAll(TwoRequests, [Handle(0), Handle(1), Handle(0), Handle(1)])
         == Requests([Answered, Answered], true, true, 2)
  {
    var ticks := [Handle(0), Handle(1), Handle(0), Handle(1)];
    assert ticks[..3][..2] == ticks[..2] && ticks[..2][..1] == ticks[..1] && ticks[..1][..0] == [];
    assert AdvanceAll(TwoRequests, ticks[..1]) == Requests([Awaiting, Checking], true, false, 0);
    assert AdvanceAll(TwoRequests, ticks[..2]) == Requests([Awaiting, Awaiting], true, false, 0);
    assert AdvanceAll(TwoRequests, ticks[..3]) == Requests([Answered, Awaiting], true, true, 1);
  }

  // ---------------------------------------------------------------------
  // The new instance: polling for the lock
  // ---------------------------------------------------------------------

  /** The k-th attempt binds (or fails to) at `tried(k)`, by whether the port is
      free then, and the clock after it reads `now(k)`. */
  datatype Attempts = Attempts(tried: nat -> real, now: nat -> real, free: real -> bool)

  ghost predicate AttemptsInOrder(e: Attempts, started: real, poll: real) {
    && started <= e.tried(0)
    && forall k: nat :: e.tried(k) <= e.now(k) && e.now(k) + poll <= e.tried(k + 1)
  }

  lemma {:induction false} AttemptTime(e: Attempts, started: real, poll: real, k: nat)
    requires poll >= 0.0 && AttemptsInOrder(e, started, poll)
    ensures e.tried(k) >= started + k as real * poll
  {
    if k > 0 {
      AttemptTime(e, started, poll, k - 1);
      assert e.now(k - 1) + poll <= e.tried(k - 1 + 1);
    }
  }

  /** The outcome of a wait that ended after attempt `k`: the first attempt that
      found the port free, or the first one whose clock reading was too late. */
  ghost predicate WaitOutcome(e: Attempts, started: real, timeout: real, k: nat, acquired: bool) {
    && (forall i: nat :: i < k ==> !e.free(e.tried(i)) && e.now(i) - started < timeout)
    && (acquired <==> e.free(e.tried(k)))
    && (!acquired ==> e.now(k) - started >= timeout)
  }

  /** Five seconds at least between any two reports, and before the first. */
  ghost predicate ReportsSpaced(reports: seq<real>) {
    && (forall i :: 0 <= i < |reports| ==> reports[i] >= 5.0)
    && (forall i, j :: 0 <= i < j < |reports| ==> reports[j] - reports[i] >= 5.0)
  }

  /** After a failed attempt, `elapsed` seconds in, the last report is less than five
      seconds old. */
  ghost predicate Informed(reports: seq<real>, elapsed: real) {
    elapsed < 5.0 || exists i :: 0 <= i < |reports| && reports[i] <= elapsed < reports[i] + 5.0
  }

  /** What the clock said after each of the first `k` attempts, from the start on. */
  ghost function Elapsed(e: Attempts, started: real, k: nat): (times: seq<real>)
    ensures |times| == k
  {
    if k == 0 then [] else Elapsed(e, started, k - 1) + [e.now(k - 1) - started]
  }

  /** Every report is one of the `times`, and none of them is left without. */
  ghost predicate ReportsFollow(times: seq<real>, reports: seq<real>) {
    && (forall i :: 0 <= i < |reports| ==> reports[i] in times)
    && (forall a :: 0 <= a < |times| ==> Informed(reports, times[a]))
  }

  /** The step of the wait that reports. */
  method Inform(ghost times: seq<real>, elapsed: real, reported: real, reports: seq<real>)
    returns (reported': real, reports': seq<real>)
    requires ReportedSoFar(times, reported, reports) && (times != [] ==> times[|times| - 1] <= elapsed)
    ensures ReportedSoFar(times + [elapsed], reported', reports')
  {
    reported', reports' := reported, reports;
    if elapsed - reported >= TAKEOVER_PROGRESS {
      reported' := elapsed;
      reports' := reports + [elapsed];
    }
    OneMoreReading(times, elapsed, reported, reports, reported', reports');
  }

  /** Ends within ceil(timeout / poll) + 1 attempts, and reports progress once five
      seconds have passed since the last report. */
  method WaitForLock(e: Attempts, started: real, timeout: real, poll: real)
    returns (acquired: bool, k: nat, reports: seq<real>)
    requires poll > 0.0 && AttemptsInOrder(e, started, poll)
    ensures WaitOutcome(e, started, timeout, k, acquired)
    ensures k == 0 || k + 1 <= Ceiling(timeout / poll) + 1
    ensures ReportsSpaced(reports) && ReportsFollow(Elapsed(e, started, k), reports)
  {
    var reported := 0.0;
    reports := [];
    k := 0;
    ghost var times: seq<real> := [];
    while true
      invariant forall i: nat :: i < k ==> !e.free(e.tried(i)) && e.now(i) - started < timeout
      invariant k == 0 || k <= Ceiling(timeout / poll)
      invariant times == Elapsed(e, started, k) && ReportedSoFar(times, reported, reports)
      decreases Ceiling(timeout / poll) - k
    {
      if e.free(e.tried(k)) {
        return true, k, reports;
      }
      var elapsed := e.now(k) - started;
      if elapsed >= timeout {
        return false, k, reports;
      }
      OneMoreAttempt(e, started, timeout, poll, k);
      reported, reports := Inform(times, elapsed, reported, reports);
      times := times + [elapsed];
      k := k + 1;
    }
  }

  lemma OneMoreAttempt(e: Attempts, started: real, timeout: real, poll: real, k: nat)
    requires poll > 0.0 && AttemptsInOrder(e, started, poll)
    ensures Elapsed(e, started, k) + [e.now(k) - started] == Elapsed(e, started, k + 1)
    ensures k > 0 ==> Elapsed(e, started, k)[k - 1] <= e.now(k) - started
    ensures e.now(k) - started < timeout ==> k < Ceiling(timeout / poll)
  {
    if k > 0 {
      assert e.now(k - 1) + poll <= e.tried(k - 1 + 1);
    }
    AttemptTime(e, started, poll, k);
    if e.now(k) - started < timeout {
      PollsBound(k, poll, timeout);
    }
  }

  /** The state of the reporting after the attempts at `times`. */
  ghost predicate ReportedSoFar(times: seq<real>, reported: real, reports: seq<real>) {
    && ReportsSpaced(reports) && ReportsFollow(times, reports)
    && (forall i :: 0 <= i < |reports| ==> times != [] && reports[i] <= times[|times| - 1])
    && reported == if reports == [] then 0.0 else reports[|reports| - 1]
  }

  lemma OneMoreReading(
      times: seq<real>, elapsed: real, reported: real, reports: seq<real>, reported': real, reports': seq<real>)
    requires ReportedSoFar(times, reported, reports) && (times != [] ==> times[|times| - 1] <= elapsed)
    requires if elapsed - reported >= 5.0 then reported' == elapsed && reports' == reports + [elapsed]
             else reported' == reported && reports' == reports
    ensures ReportedSoFar(times + [elapsed], reported', reports')
  {
    StillInformed(times, elapsed, reports, reports');
    if elapsed - reported >= 5.0 {
      SpacedFurther(reports, elapsed);
    }
  }

  lemma SpacedFurther(reports: seq<real>, elapsed: real)
    requires ReportsSpaced(reports) && elapsed - (if reports == [] then 0.0 else reports[|reports| - 1]) >= 5.0
    ensures ReportsSpaced(reports + [elapsed])
  {
    var more := reports + [elapsed];
    forall i, j | 0 <= i < j < |more|
      ensures more[j] - more[i] >= 5.0
    {
      assert more[i] == reports[i] && reports[i] <= reports[|reports| - 1];
    }
  }

  lemma StillInformed(times: seq<real>, elapsed: real, before: seq<real>, reports: seq<real>)
    requires ReportsFollow(times, before) && before <= reports && |reports| <= |before| + 1
    requires |reports| > |before| ==> reports[|before|] == elapsed
    requires Informed(reports, elapsed)
    ensures ReportsFollow(times + [elapsed], reports)
  {
    forall i | 0 <= i < |reports|
      ensures reports[i] in times + [elapsed]
    {
      assert i < |before| ==> reports[i] == before[i];
    }
    forall a | 0 <= a < |times|
      ensures Informed(reports, times[a])
    {
      assert Informed(before, times[a]);
      if i :| 0 <= i < |before| && before[i] <= times[a] < before[i] + 5.0 {
        assert reports[i] == before[i];
      }
    }
  }

  /** If the port is free from `released` on, and no attempt takes longer than
      `check` from its bind to its clock reading, then a wait whose timeout
      leaves room for one attempt after `released` acquires the lock. */
  lemma WaitCatchesRelease(
      e: Attempts, started: real, timeout: real, released: real, check: real, k: nat, acquired: bool)
    requires WaitOutcome(e, started, timeout, k, acquired)
    requires forall i: nat :: e.now(i) <= e.tried(i) + check
    requires forall t: real :: t >= released ==> e.free(t)
    requires released + check < started + timeout
    ensures acquired
  {
  }

  // ---------------------------------------------------------------------
  // The takeover
  // ---------------------------------------------------------------------

  /** One instance asked to stop: what it answered, if anything. */
  datatype StopAttempt = StopAttempt(port: nat, status: int, answered: bool) {
    predicate Accepted() {
      answered && 200 <= status < 300
    }
  }

  datatype ReclaimStatus = Ended | Refused | NothingFound

  datatype Claim = LockWasFree | TookAfterStop | TookAfterKill | GaveUp

  function StopWait(attempts: seq<StopAttempt>): real {
    if exists a :: a in attempts && a.Accepted() then TAKEOVER_STOP_WAIT else TAKEOVER_WAIT
  }

  /** Some instance answered the stop request, and with success. */
  predicate SomeoneAgreed(attempts: seq<StopAttempt>) {
    exists i :: 0 <= i < |attempts| && attempts[i].answered && 200 <= attempts[i].status <= 299
  }

  lemma AgreedIsAccepted(attempts: seq<StopAttempt>)
    ensures SomeoneAgreed(attempts) <==> exists a :: a in attempts && a.Accepted()
  {
    if SomeoneAgreed(attempts) {
      var i :| 0 <= i < |attempts| && attempts[i].answered && 200 <= attempts[i].status <= 299;
      assert attempts[i].Accepted();
    }
  }

  /** Takes the lock at once, or after asking politely, or after ending the
      holder; `killed` says whether the last resort was reached. */
  method ClaimSingleInstance(
      lockFree: bool, attempts: seq<StopAttempt>, started: real, e: Attempts,
      reclaim: ReclaimStatus, restarted: real, e2: Attempts)
    returns (claim: Claim, killed: bool, k: nat, k2: nat)
    requires AttemptsInOrder(e, started, TAKEOVER_POLL) && AttemptsInOrder(e2, restarted, TAKEOVER_POLL)
    ensures claim == LockWasFree <==> lockFree
    ensures !lockFree && SomeoneAgreed(attempts) ==> WaitOutcome(e, started, 70.0, k, claim == TookAfterStop)
    ensures !lockFree && !SomeoneAgreed(attempts) ==> WaitOutcome(e, started, 20.0, k, claim == TookAfterStop)
    ensures killed <==> claim == TookAfterKill || claim == GaveUp
    ensures claim == TookAfterKill ==> reclaim == Ended
    ensures killed && reclaim == Ended ==> WaitOutcome(e2, restarted, 10.0, k2, claim == TookAfterKill)
  {
    k, k2 := 0, 0;
    if lockFree {
      return LockWasFree, false, k, k2;
    }
    AgreedIsAccepted(attempts);
    var wait := StopWait(attempts);
    var acquired, reports;
    acquired, k, reports := WaitForLock(e, started, wait, TAKEOVER_POLL);
    if acquired {
      return TookAfterStop, false, k, k2;
    }
    if reclaim == Ended {
      acquired, k2, reports := WaitForLock(e2, restarted, TAKEOVER_RECLAIM_WAIT, TAKEOVER_POLL);
      if acquired {
        return TookAfterKill, true, k, k2;
      }
    }
    return GaveUp, true, k, k2;
  }

  /** What the old instance takes besides waiting for its operation: starting
      the wait, one overrun sleep, one look, and its teardown. */
  datatype OldInstance = OldInstance(
    accepted: real, startDelay: real, looks: Looks, check: real, late: real, teardown: real, last: nat)

  ghost predicate StopsOnRequest(o: OldInstance) {
    && 0.0 <= o.startDelay && 0.0 <= o.late
    && o.looks.asked(0) == o.accepted + o.startDelay
    && LooksWithin(o.looks, 0.5, o.check, o.late)
    && WaitEndsAt(o.looks, o.accepted + o.startDelay, 60.0, o.last)
  }

  function ReleasedAt(o: OldInstance): real {
    o.looks.now(o.last) + o.teardown
  }

  /** The polite takeover always wins in time. However long the operation runs,
      if the old instance accepted the stop before the new one began to wait,
      and everything besides the two waits takes less than 9.5 seconds, then a
      wait of the accepted-stop length ends holding the lock. */
  lemma PoliteTakeoverWins(
      o: OldInstance, e: Attempts, started: real, attempts: seq<StopAttempt>, newCheck: real,
      k: nat, acquired: bool)
    requires StopsOnRequest(o) && o.accepted <= started
    requires exists a :: a in attempts && a.Accepted()
    requires WaitOutcome(e, started, StopWait(attempts), k, acquired)
    requires forall i: nat :: e.now(i) <= e.tried(i) + newCheck
    requires forall t: real :: t >= ReleasedAt(o) ==> e.free(t)
    requires o.startDelay + o.late + o.check + o.teardown + newCheck < 9.5
    ensures acquired
  {
    StopTime(o.looks, o.accepted + o.startDelay, 60.0, 0.5, o.check, o.late, o.last);
    WaitCatchesRelease(e, started, StopWait(attempts), ReleasedAt(o), newCheck, k, acquired);
  }

  /** The same, for the whole claim: the kill path is never reached. */
  method TakeOverPolitely(
      o: OldInstance, attempts: seq<StopAttempt>, started: real, e: Attempts, newCheck: real,
      reclaim: ReclaimStatus, restarted: real, e2: Attempts)
    returns (claim: Claim, killed: bool)
    requires AttemptsInOrder(e, started, TAKEOVER_POLL) && AttemptsInOrder(e2, restarted, TAKEOVER_POLL)
    requires StopsOnRequest(o) && o.accepted <= started
    requires exists a :: a in attempts && a.Accepted()
    requires forall i: nat :: e.now(i) <= e.tried(i) + newCheck
    requires forall t: real :: t >= ReleasedAt(o) ==> e.free(t)
    requires o.startDelay + o.late + o.check + o.teardown + newCheck < 9.5
    ensures claim == TookAfterStop && !killed
  {
    var k, k2;
    AgreedIsAccepted(attempts);
    claim, killed, k, k2 := ClaimSingleInstance(false, attempts, started, e, reclaim, restarted, e2);
    PoliteTakeoverWins(o, e, started, attempts, newCheck, k, claim == TookAfterStop);
  }

  /** A start that asked the old instance to stop, and how its wait went. */
  datatype Newcomer = Newcomer(
    e: Attempts, started: real, attempts: seq<StopAttempt>, check: real, k: nat, acquired: bool)

  ghost predicate AskedInTime(o: OldInstance, n: Newcomer) {
    && o.accepted <= n.started
    && (exists a :: a in n.attempts && a.Accepted())
    && WaitOutcome(n.e, n.started, StopWait(n.attempts), n.k, n.acquired)
    && (forall i: nat :: n.e.now(i) <= n.e.tried(i) + n.check)
    && o.startDelay + o.late + o.check + o.teardown + n.check < 9.5
  }

  /** What the lock port sees, in order: a newcomer tries to bind it, or the one that
      holds it lets go. */
  datatype PortEvent = Try(who: nat, at: real) | Leave(at: real)

  /** Which newcomer the port is bound by after `n` events: the first to try once the
      old instance has released it, until that one leaves. */
  function Owner(log: seq<PortEvent>, released: real, n: nat): Option<nat>
    requires n <= |log|
    decreases n, 0
  {
    if n == 0 then None
    else match log[n - 1]
      case Leave(_) => None
      case Try(who, _) => if Binds(log, released, n - 1) then Some(who) else Owner(log, released, n - 1)
  }

  predicate Binds(log: seq<PortEvent>, released: real, n: nat)
    requires n < |log|
    decreases n, 1
  {
    log[n].Try? && log[n].at >= released && Owner(log, released, n) == None
  }

  ghost predicate InOrder(log: seq<PortEvent>) {
    forall m, n :: 0 <= m < n < |log| ==> log[m].at <= log[n].at
  }

  /** Event `n` is newcomer `i`'s attempt `k`, and it succeeds when the port says so. */
  ghost predicate IsAttempt(
      log: seq<PortEvent>, released: real, newcomers: seq<Newcomer>, n: nat, i: nat, k: nat)
    requires n < |log| && i < |newcomers|
  {
    && log[n] == Try(i, newcomers[i].e.tried(k)) && k <= newcomers[i].k
    && (newcomers[i].e.free(newcomers[i].e.tried(k)) <==> Binds(log, released, n))
  }

  /** One exclusive port: every event is some newcomer's attempt or a release, and
      every newcomer's last attempt is among them. */
  ghost predicate SharePort(log: seq<PortEvent>, released: real, newcomers: seq<Newcomer>) {
    && InOrder(log)
    && (forall n :: 0 <= n < |log| && log[n].Try? ==>
          log[n].who < |newcomers| && exists k :: IsAttempt(log, released, newcomers, n, log[n].who, k))
    && (forall i :: 0 <= i < |newcomers| ==>
          exists n :: 0 <= n < |log| && IsAttempt(log, released, newcomers, n, i, newcomers[i].k))
  }

  /** The first attempt after the release. */
  ghost predicate FirstTry(log: seq<PortEvent>, released: real, n: nat) {
    && n < |log| && log[n].Try? && log[n].at >= released
    && forall m :: 0 <= m < n && log[m].Try? ==> log[m].at < released
  }

  lemma {:induction false} NobodyBefore(log: seq<PortEvent>, released: real, n: nat)
    requires n <= |log| && forall m :: 0 <= m < n && log[m].Try? ==> log[m].at < released
    ensures Owner(log, released, n) == None
  {
    if n > 0 {
      NobodyBefore(log, released, n - 1);
    }
  }

  lemma {:induction false} FindFirstTry(log: seq<PortEvent>, released: real, some: nat) returns (n: nat)
    requires some < |log| && log[some].Try? && log[some].at >= released
    ensures n <= some && FirstTry(log, released, n)
  {
    if m: nat :| m < some && log[m].Try? && log[m].at >= released {
      n := FindFirstTry(log, released, m);
    } else {
      n := some;
    }
  }

  lemma LastTryIsLate(o: OldInstance, n: Newcomer)
    requires StopsOnRequest(o) && AskedInTime(o, n)
    ensures !n.acquired ==> n.e.tried(n.k) >= ReleasedAt(o)
  {
    StopTime(o.looks, o.accepted + o.startDelay, 60.0, 0.5, o.check, o.late, o.last);
  }

  /** Any number of newcomers share the port. The first attempt after the old instance
      released it wins; every newcomer's wait ends no earlier than that, so whoever
      gives up does so with the old instance gone, and none goes on to end it. */
  lemma OneOfSeveralNewcomersWins(o: OldInstance, newcomers: seq<Newcomer>, log: seq<PortEvent>)
      returns (first: nat)
    requires StopsOnRequest(o) && newcomers != []
    requires forall n :: n in newcomers ==> AskedInTime(o, n)
    requires SharePort(log, ReleasedAt(o), newcomers)
    ensures FirstTry(log, ReleasedAt(o), first) && log[first].who < |newcomers|
    ensures var winner := newcomers[log[first].who]; winner.acquired && winner.e.tried(winner.k) == log[first].at
    ensures forall i :: 0 <= i < |newcomers| ==> log[first].at <= newcomers[i].e.tried(newcomers[i].k)
  {
    var released := ReleasedAt(o);
    forall i | 0 <= i < |newcomers|
      ensures newcomers[i].e.tried(newcomers[i].k) >= released
    {
      assert AskedInTime(o, newcomers[i]);
      LastTryIsLate(o, newcomers[i]);
      var n :| 0 <= n < |log| && IsAttempt(log, released, newcomers, n, i, newcomers[i].k);
    }
    var n :| 0 <= n < |log| && IsAttempt(log, released, newcomers, n, 0, newcomers[0].k);
    first := FindFirstTry(log, released, n);
    FirstTryWins(o, newcomers, log, first);
    forall i | 0 <= i < |newcomers|
      ensures log[first].at <= newcomers[i].e.tried(newcomers[i].k)
    {
      var m :| 0 <= m < |log| && IsAttempt(log, released, newcomers, m, i, newcomers[i].k);
      assert m >= first;
    }
  }

  lemma FirstTryWins(o: OldInstance, newcomers: seq<Newcomer>, log: seq<PortEvent>, first: nat)
    requires forall n :: n in newcomers ==> AskedInTime(o, n)
    requires SharePort(log, ReleasedAt(o), newcomers) && FirstTry(log, ReleasedAt(o), first)
    ensures log[first].who < |newcomers|
    ensures var winner := newcomers[log[first].who]; winner.acquired && winner.e.tried(winner.k) == log[first].at
  {
    var released := ReleasedAt(o);
    NobodyBefore(log, released, first);
    var i := log[first].who;
    var k :| IsAttempt(log, released, newcomers, first, i, k);
    assert AskedInTime(o, newcomers[i]);
    assert newcomers[i].e.free(newcomers[i].e.tried(k));
  }
}
