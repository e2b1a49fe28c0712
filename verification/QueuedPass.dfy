/** The deep-queue pass: one thread and one handle per outstanding request, a
    barrier between opening the handles and issuing the requests, and a main
    thread that starts and joins them. Every interleaving of their steps. */
module QueuedPass {
  import opened Lanes
  import opened Sequences

  datatype Fault = OpenFailed | BarrierBroken | RequestFailed(code: int)

  datatype Lane =
    | NotStarted
    | Opening
    | AtBarrier
    | Reading(next: nat)
    | Finished
    | Died

  datatype Main =
    | Starting(next: nat)
    | Joining(next: nat)
    | Returned(latencies: seq<real>)
    | Raised(fault: Fault)
    | StartFailed

  /** A pass over some offsets, at some depth, in a process whose switch
      interval was `interval`. */
  datatype Pass = Pass(offsets: seq<nat>, depth: nat, interval: real)

  const SWITCH_INTERVAL := 0.00005

  function LaneOffsets(p: Pass, i: nat): seq<nat>
    requires p.depth > 0
  {
    Strided(p.offsets, i, p.depth)
  }

  /** `served` lists the requests that completed, by lane and place in the lane,
      in the order they completed. */
  datatype World = World(
    main: Main,
    lanes: seq<Lane>,
    arrived: set<nat>,
    broken: bool,
    results: seq<seq<real>>,
    failures: seq<Fault>,
    served: seq<(nat, nat)>,
    interval: real)

  function Begin(p: Pass): World {
    World(Starting(0), seq(p.depth, _ => NotStarted), {}, false, seq(p.depth, _ => []), [], [], SWITCH_INTERVAL)
  }

  datatype Step =
    | StartThread
    | StartThreadFails
    | Open(lane: nat)
    | OpenFails(lane: nat)
    | Leave(lane: nat)
    | TimeOut(lane: nat)
    | SeeBroken(lane: nat)
    | Request(lane: nat, latency: real)
    | RequestFails(lane: nat, code: int)
    | LaneEnds(lane: nat)
    | Join
    | Finish

  /** The barrier lets everyone go once as many have arrived as there are lanes. */
  predicate Tripped(p: Pass, w: World) {
    |w.arrived| == p.depth
  }

  predicate Over(lane: Lane) {
    lane == Finished || lane == Died
  }

  predicate Enabled(p: Pass, w: World, s: Step)
    requires p.depth > 0 && |w.lanes| == p.depth && |w.results| == p.depth
  {
    match s
    case StartThread => w.main.Starting? && w.main.next < p.depth && w.lanes[w.main.next] == NotStarted
    case StartThreadFails => w.main.Starting? && w.main.next < p.depth
    case Open(i) => i < p.depth && w.lanes[i] == Opening
    case OpenFails(i) => i < p.depth && w.lanes[i] == Opening
    case Leave(i) => i < p.depth && w.lanes[i] == AtBarrier && Tripped(p, w)
    case TimeOut(i) => i < p.depth && w.lanes[i] == AtBarrier && !Tripped(p, w)
    case SeeBroken(i) => i < p.depth && w.lanes[i] == AtBarrier && w.broken && !Tripped(p, w)
    case Request(i, _) => i < p.depth && w.lanes[i].Reading? && w.lanes[i].next < |LaneOffsets(p, i)|
    case RequestFails(i, _) => i < p.depth && w.lanes[i].Reading? && w.lanes[i].next < |LaneOffsets(p, i)|
    case LaneEnds(i) => i < p.depth && w.lanes[i] == Reading(|LaneOffsets(p, i)|)
    case Join => w.main.Joining? && w.main.next < p.depth && Over(w.lanes[w.main.next])
    case Finish => w.main == Joining(p.depth)
  }

  function Die(w: World, i: nat, fault: Fault): World
    requires i < |w.lanes|
  {
    w.(lanes := w.lanes[i := Died], failures := w.failures + [fault])
  }

  function Apply(p: Pass, w: World, s: Step): (w': World)
    requires p.depth > 0 && |w.lanes| == p.depth && |w.results| == p.depth && Enabled(p, w, s)
    ensures |w'.lanes| == p.depth && |w'.results| == p.depth
  {
    match s
    case StartThread =>
      var i := w.main.next;
      w.(lanes := w.lanes[i := Opening], main := if i + 1 == p.depth then Joining(0) else Starting(i + 1))
    case StartThreadFails => w.(main := StartFailed, interval := p.interval)
    case Open(i) =>
      if w.broken then Die(w, i, BarrierBroken)
      else w.(lanes := w.lanes[i := AtBarrier], arrived := w.arrived + {i})
    case OpenFails(i) => Die(w, i, OpenFailed)
    case Leave(i) => w.(lanes := w.lanes[i := Reading(0)])
    case TimeOut(i) => Die(w, i, BarrierBroken).(broken := true)
    case SeeBroken(i) => Die(w, i, BarrierBroken)
    case Request(i, latency) =>
      var k := w.lanes[i].next;
      w.(lanes := w.lanes[i := Reading(k + 1)],
         results := w.results[i := w.results[i] + [latency]],
         served := w.served + [(i, k)])
    case RequestFails(i, code) => Die(w, i, RequestFailed(code))
    case LaneEnds(i) => w.(lanes := w.lanes[i := Finished])
    case Join => w.(main := Joining(w.main.next + 1))
    case Finish =>
      w.(main := if w.failures != [] then Raised(w.failures[0]) else Returned(Flatten(w.results)),
         interval := p.interval)
  }

  // ---------------------------------------------------------------------
  // What every step keeps
  // ---------------------------------------------------------------------

  /** The places of one lane's completed requests, in completion order. */
  function ServedIn(served: seq<(nat, nat)>, i: nat): seq<nat> {
    if served == [] then []
    else
      var last := served[|served| - 1];
      ServedIn(served[..|served| - 1], i) + (if last.0 == i then [last.1] else [])
  }

  predicate UpTo(places: seq<nat>) {
    forall k :: 0 <= k < |places| ==> places[k] == k
  }

  predicate Reads(lane: Lane) {
    lane.Reading? || lane == Finished
  }

  ghost predicate LaneOk(p: Pass, w: World, i: nat)
    requires p.depth > 0 && i < |w.lanes| && i < |w.results|
  {
    && (i in w.arrived ==> w.lanes[i] != NotStarted && w.lanes[i] != Opening)
    && (w.lanes[i] == AtBarrier ==> i in w.arrived)
    && (Reads(w.lanes[i]) ==> Tripped(p, w))
    && (w.lanes[i].Reading? ==> |w.results[i]| == w.lanes[i].next <= |LaneOffsets(p, i)|)
    && (w.lanes[i] == Finished ==> |w.results[i]| == |LaneOffsets(p, i)|)
    && (!Reads(w.lanes[i]) && w.lanes[i] != Died ==> w.results[i] == [])
    && UpTo(ServedIn(w.served, i)) && |ServedIn(w.served, i)| == |w.results[i]|
    && |w.results[i]| <= |LaneOffsets(p, i)|
    && (w.lanes[i] == Died ==> w.failures != [])
  }

  ghost predicate MainOk(p: Pass, w: World)
    requires |w.lanes| == p.depth
  {
    match w.main
    case Starting(n) => n < p.depth && w.interval == SWITCH_INTERVAL
    case Joining(n) =>
      n <= p.depth && w.interval == SWITCH_INTERVAL && forall i :: 0 <= i < n ==> Over(w.lanes[i])
    case Returned(latencies) =>
      && w.interval == p.interval
      && (forall i :: 0 <= i < p.depth ==> w.lanes[i] == Finished)
      && latencies == Flatten(w.results)
    case Raised(fault) => w.interval == p.interval && w.failures != [] && fault == w.failures[0]
    case StartFailed => w.interval == p.interval
  }

  ghost predicate Ok(p: Pass, w: World) {
    && p.depth > 0 && |w.lanes| == p.depth && |w.results| == p.depth
    && (forall i :: i in w.arrived ==> i < p.depth)
    && (forall i :: 0 <= i < p.depth ==> LaneOk(p, w, i))
    && (w.failures != [] <==> exists i :: 0 <= i < p.depth && w.lanes[i] == Died)
    && MainOk(p, w)
    && (forall e :: e in w.served ==> e.0 < p.depth)
  }

  lemma BeginOk(p: Pass)
    requires p.depth > 0
    ensures Ok(p, Begin(p))
  {
  }

  lemma SubsetOfSameSize(a: set<nat>, n: nat)
    requires |a| == n && forall i :: i in a ==> i < n
    ensures forall i: nat :: i < n ==> i in a
  {
    if n > 0 {
      if n - 1 in a {
        SubsetOfSameSize(a - {n - 1}, n - 1);
      } else {
        FitsBelow(a, n - 1);
      }
    }
  }

  lemma {:induction false} FitsBelow(a: set<nat>, n: nat)
    requires forall i :: i in a ==> i < n
    ensures |a| <= n
  {
    if n > 0 {
      FitsBelow(a - {n - 1}, n - 1);
    } else {
      assert a == {};
    }
  }

  lemma TrippedMeansEveryone(p: Pass, w: World, i: nat)
    requires Ok(p, w) && Tripped(p, w) && i < p.depth
    ensures i in w.arrived && w.lanes[i] != NotStarted && w.lanes[i] != Opening
  {
    SubsetOfSameSize(w.arrived, p.depth);
    assert LaneOk(p, w, i);
  }

  lemma TrippedStays(p: Pass, w: World, s: Step)
    requires Ok(p, w) && Enabled(p, w, s) && Tripped(p, w)
    ensures Tripped(p, Apply(p, w, s))
  {
    if s.Open? {
      TrippedMeansEveryone(p, w, s.lane);
    }
  }

  lemma ServedSnoc(served: seq<(nat, nat)>, e: (nat, nat), i: nat)
    ensures ServedIn(served + [e], i) == ServedIn(served, i) + (if e.0 == i then [e.1] else [])
  {
    assert (served + [e])[..|served|] == served;
  }

  lemma RequestStep(p: Pass, w: World, s: Step, i: nat)
    requires Ok(p, w) && Enabled(p, w, s) && i < p.depth && s.Request?
    ensures LaneOk(p, Apply(p, w, s), i)
  {
    assert LaneOk(p, w, i);
    assert LaneOk(p, w, s.lane);
    TrippedStays(p, w, s);
    ServedSnoc(w.served, (s.lane, w.lanes[s.lane].next), i);
  }

  /** A step that serves nothing and is not this lane's leaves it as it was. */
  lemma OtherLaneStep(p: Pass, w: World, s: Step, i: nat)
    requires Ok(p, w) && Enabled(p, w, s) && i < p.depth && !s.Request?
    requires Apply(p, w, s).lanes[i] == w.lanes[i]
    ensures LaneOk(p, Apply(p, w, s), i)
  {
    assert LaneOk(p, w, i);
    if Tripped(p, w) {
      TrippedStays(p, w, s);
    }
  }

  lemma OwnLaneStep(p: Pass, w: World, s: Step, i: nat)
    requires Ok(p, w) && Enabled(p, w, s) && i < p.depth && !s.Request?
    requires Apply(p, w, s).lanes[i] != w.lanes[i]
    ensures LaneOk(p, Apply(p, w, s), i)
  {
    assert LaneOk(p, w, i);
    if Tripped(p, w) {
      TrippedStays(p, w, s);
    }
  }

  lemma LaneStep(p: Pass, w: World, s: Step, i: nat)
    requires Ok(p, w) && Enabled(p, w, s) && i < p.depth
    ensures LaneOk(p, Apply(p, w, s), i)
  {
    if s.Request? {
      RequestStep(p, w, s, i);
    } else if Apply(p, w, s).lanes[i] == w.lanes[i] {
      OtherLaneStep(p, w, s, i);
    } else {
      OwnLaneStep(p, w, s, i);
    }
  }

  lemma DeathsStep(p: Pass, w: World, s: Step)
    requires Ok(p, w) && Enabled(p, w, s)
    ensures var w' := Apply(p, w, s);
            w'.failures != [] <==> exists i :: 0 <= i < p.depth && w'.lanes[i] == Died
  {
    var w' := Apply(p, w, s);
    if exists i :: 0 <= i < p.depth && w.lanes[i] == Died {
      var i :| 0 <= i < p.depth && w.lanes[i] == Died;
      assert w'.lanes[i] == Died;
    } else if w'.failures != [] {
      assert w'.lanes[s.lane] == Died;
    }
  }

  lemma MainStep(p: Pass, w: World, s: Step)
    requires Ok(p, w) && Enabled(p, w, s)
    ensures MainOk(p, Apply(p, w, s))
  {
    var w' := Apply(p, w, s);
    if s.Finish? && w.failures == [] {
      forall i | 0 <= i < p.depth
        ensures w.lanes[i] == Finished
      {
        assert Over(w.lanes[i]) && w.lanes[i] != Died;
      }
    }
  }

  lemma StepOk(p: Pass, w: World, s: Step)
    requires Ok(p, w) && Enabled(p, w, s)
    ensures Ok(p, Apply(p, w, s))
  {
    forall i | 0 <= i < p.depth
      ensures LaneOk(p, Apply(p, w, s), i)
    {
      LaneStep(p, w, s, i);
    }
    DeathsStep(p, w, s);
    MainStep(p, w, s);
  }

  // ---------------------------------------------------------------------
  // Every run
  // ---------------------------------------------------------------------

  ghost predicate Runs(p: Pass, w: World, steps: seq<Step>)
    requires p.depth > 0 && |w.lanes| == p.depth && |w.results| == p.depth
    decreases |steps|
  {
    steps == [] || (Enabled(p, w, steps[0]) && Runs(p, Apply(p, w, steps[0]), steps[1..]))
  }

  ghost function After(p: Pass, w: World, steps: seq<Step>): (r: World)
    requires p.depth > 0 && |w.lanes| == p.depth && |w.results| == p.depth && Runs(p, w, steps)
    ensures |r.lanes| == p.depth && |r.results| == p.depth
    decreases |steps|
  {
    if steps == [] then w else After(p, Apply(p, w, steps[0]), steps[1..])
  }

  lemma {:induction false} RunsStayOk(p: Pass, w: World, steps: seq<Step>)
    requires Ok(p, w) && Runs(p, w, steps)
    ensures Ok(p, After(p, w, steps))
    decreases |steps|
  {
    if steps != [] {
      StepOk(p, w, steps[0]);
      RunsStayOk(p, Apply(p, w, steps[0]), steps[1..]);
    }
  }

  ghost predicate Reached(p: Pass, steps: seq<Step>) {
    p.depth > 0 && Runs(p, Begin(p), steps)
  }

  ghost function At(p: Pass, steps: seq<Step>): (r: World)
    requires Reached(p, steps)
    ensures |r.lanes| == p.depth && |r.results| == p.depth
  {
    After(p, Begin(p), steps)
  }

  lemma ReachedOk(p: Pass, steps: seq<Step>)
    requires Reached(p, steps)
    ensures Ok(p, At(p, steps))
  {
    BeginOk(p);
    RunsStayOk(p, Begin(p), steps);
  }

  /** The queue is full before it is used: whenever some lane can issue a
      request, every lane has opened its handle and reached the barrier. */
  lemma NoRequestBeforeEveryLaneOpened(p: Pass, steps: seq<Step>, s: Step, i: nat)
    requires Reached(p, steps) && (s.Request? || s.RequestFails?) && i < p.depth
    requires Enabled(p, At(p, steps), s)
    ensures var w := At(p, steps);
            i in w.arrived && w.lanes[i] != NotStarted && w.lanes[i] != Opening
  {
    ReachedOk(p, steps);
    var w := At(p, steps);
    assert LaneOk(p, w, s.lane);
    TrippedMeansEveryone(p, w, i);
  }

  // ---- a normal return --------------------------------------------------

  lemma {:induction false} ServedOnce(served: seq<(nat, nat)>, i: nat, k: nat)
    ensures multiset(served)[(i, k)] == multiset(ServedIn(served, i))[k]
  {
    if served != [] {
      var front, last := served[..|served| - 1], served[|served| - 1];
      assert served == front + [last];
      ServedOnce(front, i, k);
    }
  }

  lemma {:induction false} UpToOnce(places: seq<nat>, k: nat)
    requires UpTo(places)
    ensures multiset(places)[k] == if k < |places| then 1 else 0
  {
    if places != [] {
      var front := places[..|places| - 1];
      assert places == front + [places[|places| - 1]];
      UpToOnce(front, k);
    }
  }

  lemma {:induction false} FlattenLength(p: Pass, results: seq<seq<real>>, m: nat)
    requires p.depth > 0 && m <= |results|
    requires forall i :: 0 <= i < m ==> |results[i]| == |LaneOffsets(p, i)|
    ensures |Flatten(results[..m])| == |Dealt(p.offsets, p.depth, m)|
    decreases m
  {
    if m > 0 {
      FlattenLength(p, results, m - 1);
      assert results[..m] == results[..m - 1] + [results[m - 1]];
      FlattenSnoc(results[..m - 1], results[m - 1]);
    }
  }

  /** A place of a lane that has read all its results was served once. */
  lemma PlaceServedOnce(p: Pass, w: World, lane: nat, k: nat)
    requires Ok(p, w) && lane < p.depth && k < |w.results[lane]|
    ensures multiset(w.served)[(lane, k)] == 1
    ensures UpTo(ServedIn(w.served, lane))
  {
    assert LaneOk(p, w, lane);
    ServedOnce(w.served, lane, k);
    UpToOnce(ServedIn(w.served, lane), k);
  }

  lemma ResultsAreComplete(p: Pass, w: World)
    requires Ok(p, w) && w.main.Returned?
    ensures forall i :: 0 <= i < p.depth ==> |w.results[i]| == |LaneOffsets(p, i)|
    ensures w.failures == []
  {
    forall i | 0 <= i < p.depth
      ensures |w.results[i]| == |LaneOffsets(p, i)|
    {
      assert LaneOk(p, w, i);
    }
  }

  lemma OneLatencyEach(p: Pass, w: World)
    requires Ok(p, w) && w.main.Returned?
    ensures |w.main.latencies| == |p.offsets|
  {
    ResultsAreComplete(p, w);
    assert w.results[..p.depth] == w.results;
    FlattenLength(p, w.results, p.depth);
    LanesPartition(p.offsets, p.depth);
  }

  /** A pass that returns has served every offset exactly once, in order within
      its lane, has one latency for each, no lane failed, and the switch
      interval is the one the process had. */
  lemma NormalReturn(p: Pass, steps: seq<Step>, j: nat)
    requires Reached(p, steps) && At(p, steps).main.Returned? && j < |p.offsets|
    ensures var w := At(p, steps);
            var place := (j % p.depth, j / p.depth);
            && multiset(w.served)[place] == 1
            && place.1 < |LaneOffsets(p, place.0)| && LaneOffsets(p, place.0)[place.1] == p.offsets[j]
            && UpTo(ServedIn(w.served, place.0))
            && |w.main.latencies| == |p.offsets|
            && w.failures == [] && w.interval == p.interval
  {
    ReachedOk(p, steps);
    var w := At(p, steps);
    PlaceOf(p.offsets, p.depth, j);
    ResultsAreComplete(p, w);
    PlaceServedOnce(p, w, j % p.depth, j / p.depth);
    OneLatencyEach(p, w);
  }

  /** Nothing else is served: every completed request is a place of a lane. */
  lemma NothingElseServed(p: Pass, steps: seq<Step>, i: nat, k: nat)
    requires Reached(p, steps) && (i, k) in At(p, steps).served
    ensures i < p.depth && k < |LaneOffsets(p, i)| && multiset(At(p, steps).served)[(i, k)] == 1
  {
    ReachedOk(p, steps);
    var w := At(p, steps);
    assert (i, k) in multiset(w.served);
    assert LaneOk(p, w, i);
    ServedOnce(w.served, i, k);
    UpToOnce(ServedIn(w.served, i), k);
  }

  /** A pass that joined its lanes raises exactly when some lane failed, and
      what it raises is the first failure; either way the interval is restored. */
  lemma LaneFailureIsRaised(p: Pass, steps: seq<Step>)
    requires Reached(p, steps)
    requires At(p, steps).main.Returned? || At(p, steps).main.Raised?
    ensures var w := At(p, steps);
            && (w.main.Raised? <==> exists i :: 0 <= i < p.depth && w.lanes[i] == Died)
            && (w.main.Raised? ==> w.failures != [] && w.main.fault == w.failures[0])
            && w.interval == p.interval
  {
    ReachedOk(p, steps);
  }

  // ---------------------------------------------------------------------
  // What the steps say
  // ---------------------------------------------------------------------

  lemma {:induction false} RunsSnoc(p: Pass, w: World, steps: seq<Step>)
    requires p.depth > 0 && |w.lanes| == p.depth && |w.results| == p.depth
    requires steps != [] && Runs(p, w, steps)
    ensures var front := steps[..|steps| - 1];
            && Runs(p, w, front)
            && Enabled(p, After(p, w, front), steps[|steps| - 1])
            && After(p, w, steps) == Apply(p, After(p, w, front), steps[|steps| - 1])
    decreases |steps|
  {
    if |steps| > 1 {
      RunsSnoc(p, Apply(p, w, steps[0]), steps[1..]);
      assert steps[1..][..|steps| - 2] == steps[..|steps| - 1][1..];
    }
  }

  lemma ReachedSnoc(p: Pass, steps: seq<Step>)
    requires steps != [] && Reached(p, steps)
    ensures var front := steps[..|steps| - 1];
            && Reached(p, front)
            && Enabled(p, At(p, front), steps[|steps| - 1])
            && At(p, steps) == Apply(p, At(p, front), steps[|steps| - 1])
  {
    RunsSnoc(p, Begin(p), steps);
  }

  /** The latencies a lane measured, in order: those of its requests. */
  function Measured(steps: seq<Step>, i: nat): seq<real> {
    if steps == [] then []
    else
      var last := steps[|steps| - 1];
      Measured(steps[..|steps| - 1], i)
      + if last.Request? && last.lane == i then [last.latency] else []
  }

  function ByLane(steps: seq<Step>, depth: nat): seq<seq<real>> {
    seq(depth, i requires 0 <= i < depth => Measured(steps, i))
  }

  /** All the latencies measured, as they were. */
  function AllMeasured(steps: seq<Step>): seq<real> {
    if steps == [] then []
    else
      var last := steps[|steps| - 1];
      AllMeasured(steps[..|steps| - 1]) + if last.Request? then [last.latency] else []
  }

  lemma {:induction false} ResultsAreMeasured(p: Pass, steps: seq<Step>, i: nat)
    requires Reached(p, steps) && i < p.depth
    ensures At(p, steps).results[i] == Measured(steps, i)
    decreases |steps|
  {
    if steps != [] {
      ReachedSnoc(p, steps);
      ResultsAreMeasured(p, steps[..|steps| - 1], i);
    }
  }

  lemma {:induction false} FlattenOneMore(parts: seq<seq<real>>, i: nat, x: real)
    requires i < |parts|
    ensures multiset(Flatten(parts[i := parts[i] + [x]])) == multiset(Flatten(parts)) + multiset{x}
  {
    var more := parts[i := parts[i] + [x]];
    if i == 0 {
      assert more[1..] == parts[1..];
    } else {
      assert more[1..] == parts[1..][i - 1 := parts[i] + [x]];
      FlattenOneMore(parts[1..], i - 1, x);
    }
  }

  lemma {:induction false} FlattenNothing(parts: seq<seq<real>>)
    requires forall part :: part in parts ==> part == []
    ensures Flatten(parts) == []
  {
    if parts != [] {
      assert parts[0] in parts && forall part :: part in parts[1..] ==> part in parts;
      FlattenNothing(parts[1..]);
    }
  }

  lemma {:induction false} ResultsTogether(p: Pass, steps: seq<Step>)
    requires Reached(p, steps)
    ensures multiset(Flatten(At(p, steps).results)) == multiset(AllMeasured(steps))
    decreases |steps|
  {
    if steps == [] {
      FlattenNothing(Begin(p).results);
    } else {
      var front, last := steps[..|steps| - 1], steps[|steps| - 1];
      ReachedSnoc(p, steps);
      ResultsTogether(p, front);
      if last.Request? {
        FlattenOneMore(At(p, front).results, last.lane, last.latency);
      }
    }
  }

  /** A pass that returns gives back the latencies its lanes measured, lane after
      lane and in each lane's order: together, exactly those of all the requests. */
  lemma LatenciesAreMeasured(p: Pass, steps: seq<Step>)
    requires Reached(p, steps) && At(p, steps).main.Returned?
    ensures At(p, steps).main.latencies == Flatten(ByLane(steps, p.depth))
    ensures multiset(At(p, steps).main.latencies) == multiset(AllMeasured(steps))
  {
    ReachedOk(p, steps);
    var w := At(p, steps);
    forall i | 0 <= i < p.depth
      ensures w.results[i] == Measured(steps, i)
    {
      ResultsAreMeasured(p, steps, i);
    }
    assert w.results == ByLane(steps, p.depth);
    ResultsTogether(p, steps);
  }

  /** What failed, in order: a handle that did not open, a request and its code, or a
      barrier that a lane waited out, found broken or came to once it was. */
  function Faults(steps: seq<Step>): seq<Fault> {
    if steps == [] then []
    else
      var front := steps[..|steps| - 1];
      Faults(front) + FaultOf(steps[|steps| - 1], WaitedOut(front))
  }

  function FaultOf(s: Step, broken: bool): seq<Fault> {
    match s
    case OpenFails(_) => [OpenFailed]
    case RequestFails(_, code) => [RequestFailed(code)]
    case TimeOut(_) => [BarrierBroken]
    case SeeBroken(_) => [BarrierBroken]
    case Open(_) => if broken then [BarrierBroken] else []
    case _ => []
  }

  predicate WaitedOut(steps: seq<Step>) {
    exists i :: 0 <= i < |steps| && steps[i].TimeOut?
  }

  lemma {:induction false} FailuresAreFaults(p: Pass, steps: seq<Step>)
    requires Reached(p, steps)
    ensures At(p, steps).failures == Faults(steps)
    ensures At(p, steps).broken <==> WaitedOut(steps)
    decreases |steps|
  {
    if steps != [] {
      var front, last := steps[..|steps| - 1], steps[|steps| - 1];
      ReachedSnoc(p, steps);
      FailuresAreFaults(p, front);
      OneFault(p, At(p, front), last);
      OneMoreWait(front, last);
      assert steps == front + [last];
    }
  }

  lemma OneFault(p: Pass, w: World, s: Step)
    requires p.depth > 0 && |w.lanes| == p.depth && |w.results| == p.depth && Enabled(p, w, s)
    ensures Apply(p, w, s).failures == w.failures + FaultOf(s, w.broken)
    ensures Apply(p, w, s).broken <==> w.broken || s.TimeOut?
  {
  }

  lemma OneMoreWait(steps: seq<Step>, s: Step)
    ensures WaitedOut(steps + [s]) <==> WaitedOut(steps) || s.TimeOut?
  {
    var all := steps + [s];
    assert all[|steps|] == s;
    if i :| 0 <= i < |steps| && steps[i].TimeOut? {
      assert all[i].TimeOut?;
    }
  }

  /** A pass that joined its lanes raises the first thing that failed, and returns
      when nothing did. */
  lemma FirstFaultIsRaised(p: Pass, steps: seq<Step>)
    requires Reached(p, steps)
    ensures At(p, steps).main.Raised? ==> Faults(steps) != [] && At(p, steps).main.fault == Faults(steps)[0]
    ensures At(p, steps).main.Returned? ==> Faults(steps) == []
  {
    ReachedOk(p, steps);
    FailuresAreFaults(p, steps);
    if At(p, steps).main.Returned? {
      ResultsAreComplete(p, At(p, steps));
    }
  }

  /** While the pass runs the switch interval is fifty microseconds, and before and
      after it is the process's own. */
  lemma IntervalIsLowered(p: Pass, steps: seq<Step>)
    requires Reached(p, steps)
    ensures At(p, steps).interval
         == if At(p, steps).main.Starting? || At(p, steps).main.Joining? then 0.00005 else p.interval
  {
    ReachedOk(p, steps);
  }

  // ---- a pass can always go on -------------------------------------------

  ghost predicate StartedUpTo(p: Pass, w: World) {
    && |w.lanes| == p.depth
    && match w.main
       case Starting(n) => forall i :: 0 <= i < p.depth ==> (w.lanes[i] == NotStarted <==> i >= n)
       case Joining(_) => forall i :: 0 <= i < p.depth ==> w.lanes[i] != NotStarted
       case _ => true
  }

  lemma {:induction false} RunsStart(p: Pass, steps: seq<Step>)
    requires Reached(p, steps)
    ensures StartedUpTo(p, At(p, steps))
    decreases |steps|
  {
    if steps != [] {
      ReachedSnoc(p, steps);
      RunsStart(p, steps[..|steps| - 1]);
    }
  }

  /** What a lane that has started and is not over does next. */
  function LaneMove(p: Pass, w: World, i: nat): Step
    requires p.depth > 0 && i < p.depth && |w.lanes| == p.depth
  {
    match w.lanes[i]
    case AtBarrier => if Tripped(p, w) then Leave(i) else TimeOut(i)
    case Reading(k) => if k < |LaneOffsets(p, i)| then Request(i, 0.0) else LaneEnds(i)
    case _ => Open(i)
  }

  /** No reachable state is stuck before the pass has returned or raised. */
  lemma NeverStuck(p: Pass, steps: seq<Step>) returns (s: Step)
    requires Reached(p, steps) && (At(p, steps).main.Starting? || At(p, steps).main.Joining?)
    ensures Enabled(p, At(p, steps), s)
  {
    ReachedOk(p, steps);
    RunsStart(p, steps);
    var w := At(p, steps);
    match w.main {
      case Starting(_) => s := StartThread;
      case Joining(n) =>
        if n == p.depth {
          s := Finish;
        } else if Over(w.lanes[n]) {
          s := Join;
        } else {
          assert LaneOk(p, w, n);
          s := LaneMove(p, w, n);
        }
    }
  }
}
