/** The single-instance lock and the PID file, over any number of processes.

    A process is the sequence of effects `serve` has on the machine: bind the
    lock port, write the PID file, and at the end remove the file and close the
    socket. Effects of different processes interleave in any order, and any
    process can be killed between two of them; the operating system then closes
    its socket and leaves the file behind. */
module InstanceLock {

  type Pid = nat

  datatype Port = Free | BoundBy(pid: Pid) | BoundByForeign

  /** What the PID file holds. A write that failed half-way leaves it `Torn`. */
  datatype PidFile = Absent | Names(pid: Pid, port: nat) | Torn

  datatype WriteOutcome = Written | NotOpened | WriteTorn

  function AfterWrite(file: PidFile, pid: Pid, port: nat, outcome: WriteOutcome): PidFile {
    match outcome
    case Written => Names(pid, port)
    case NotOpened => file
    case WriteTorn => Torn
  }

  function AfterUnlink(file: PidFile, unlinked: bool): PidFile {
    if unlinked then Absent else file
  }

  // ---------------------------------------------------------------------
  // One process, as the code that runs in it
  // ---------------------------------------------------------------------

  datatype Moment = Moment(port: Port, file: PidFile)

  class Machine {
    var port: Port
    var file: PidFile
    /** What the lock port and the file have been after each effect so far. */
    ghost var trail: seq<Moment>

    constructor ()
      ensures port == Free && file == Absent && trail == []
    {
      port, file, trail := Free, Absent, [];
    }

    ghost method Note()
      modifies this`trail
      ensures trail == old(trail) + [Moment(port, file)]
    {
      trail := trail + [Moment(port, file)];
    }
  }

  class Instance {
    const pid: Pid
    const machine: Machine
    /** Whether the module-level lock socket is open in this process. */
    var lockSock: bool

    ghost predicate Valid()
      reads this, machine
    {
      lockSock <==> machine.port == BoundBy(pid)
    }

    constructor (pid: Pid, machine: Machine)
      requires machine.port != BoundBy(pid)
      ensures Valid() && !lockSock
      ensures this.pid == pid && this.machine == machine
    {
      this.pid, this.machine, lockSock := pid, machine, false;
    }

    /** Binding succeeds exactly when nobody holds the port. */
    method AcquireInstanceLock() returns (ok: bool)
      requires Valid() && !lockSock
      modifies this`lockSock, machine`port, machine`trail
      ensures Valid() && lockSock == ok
      ensures ok <==> old(machine.port) == Free
      ensures machine.port == if ok then BoundBy(pid) else old(machine.port)
      ensures machine.trail == old(machine.trail) + if ok then [Moment(BoundBy(pid), machine.file)] else []
    {
      ok := machine.port == Free;
      if ok {
        machine.port := BoundBy(pid);
        lockSock := true;
        machine.Note();
      }
    }

    method WritePidFile(port: nat, outcome: WriteOutcome)
      requires Valid()
      modifies machine`file, machine`trail
      ensures Valid()
      ensures machine.file == AfterWrite(old(machine.file), pid, port, outcome)
      ensures outcome == Written ==> machine.file == Names(pid, port)
      ensures outcome == NotOpened ==> machine.file == old(machine.file)
      ensures outcome == WriteTorn ==> machine.file == Torn
      ensures machine.trail == old(machine.trail) + [Moment(machine.port, machine.file)]
    {
      match outcome {
        case Written => machine.file := Names(pid, port);
        case NotOpened =>
        case WriteTorn => machine.file := Torn;
      }
      machine.Note();
    }

    method RemovePidFile(unlinked: bool)
      requires Valid()
      modifies machine`file, machine`trail
      ensures Valid()
      ensures machine.file == AfterUnlink(old(machine.file), unlinked)
      ensures machine.trail == old(machine.trail) + [Moment(machine.port, machine.file)]
    {
      if unlinked {
        machine.file := Absent;
      }
      machine.Note();
    }

    /** The file first, the lock second, so that no newer process can have
        written its own file yet; called again it still removes the file. */
    method ShutdownCleanup(unlinked: bool)
      requires Valid()
      modifies this`lockSock, machine`file, machine`port, machine`trail
      ensures Valid() && !lockSock
      ensures machine.file == if unlinked then Absent else old(machine.file)
      ensures machine.port == if old(lockSock) then Free else old(machine.port)
      ensures machine.trail
           == old(machine.trail) + [Moment(old(machine.port), machine.file)]
              + if old(lockSock) then [Moment(Free, machine.file)] else []
    {
      RemovePidFile(unlinked);
      if lockSock {
        machine.port := Free;
        lockSock := false;
        machine.Note();
      }
    }
  }

  // ---------------------------------------------------------------------
  // Every interleaving of those effects
  // ---------------------------------------------------------------------

  /** Where a process is in `serve`. `Serving` remembers whether its PID file
      was written, and with which port; `CleanedUp` is still alive with its
      lock closed. */
  datatype Phase =
    | Claiming
    | Locked
    | Serving(written: bool, port: nat)
    | FileRemoved
    | CleanedUp
    | Gone

  datatype Process = Process(phase: Phase, lockSock: bool)

  datatype World = World(port: Port, file: PidFile, procs: map<Pid, Process>)

  datatype Step =
    | Start(pid: Pid)
    | TryLock(pid: Pid)
    | WritePid(pid: Pid, port: nat, outcome: WriteOutcome)
    | ExitUnelevated(pid: Pid)
    | RemovePid(pid: Pid, unlinked: bool)
    | CloseLock(pid: Pid)
    | RemovePidAgain(pid: Pid, unlinked: bool)
    | Exit(pid: Pid)
    | Kill(pid: Pid)
    | ForeignBind
    | ForeignRelease

  const Initial := World(Free, Absent, map[])

  predicate In(w: World, p: Pid, phase: Phase) {
    p in w.procs && w.procs[p].phase == phase
  }

  predicate IsServing(w: World, p: Pid) {
    p in w.procs && w.procs[p].phase.Serving?
  }

  predicate Holds(w: World, p: Pid) {
    p in w.procs && w.procs[p].lockSock
  }

  predicate Enabled(w: World, s: Step) {
    match s
    case Start(p) => p !in w.procs
    case TryLock(p) => In(w, p, Claiming)
    case WritePid(p, _, _) => In(w, p, Locked)
    case ExitUnelevated(p) => IsServing(w, p)
    case RemovePid(p, _) => IsServing(w, p)
    case CloseLock(p) => In(w, p, FileRemoved)
    case RemovePidAgain(p, _) => In(w, p, CleanedUp)
    case Exit(p) => In(w, p, Claiming) || In(w, p, CleanedUp)
    case Kill(p) => p in w.procs && w.procs[p].phase != Gone
    case ForeignBind => w.port == Free
    case ForeignRelease => w.port == BoundByForeign
  }

  function WithProcess(w: World, p: Pid, phase: Phase, lockSock: bool): World {
    w.(procs := w.procs[p := Process(phase, lockSock)])
  }

  /** The process ends: the operating system closes the socket it held. */
  function End(w: World, p: Pid): World
    requires p in w.procs
  {
    WithProcess(if w.procs[p].lockSock then w.(port := Free) else w, p, Gone, false)
  }

  function Apply(w: World, s: Step): World
    requires Enabled(w, s)
  {
    match s
    case Start(p) => WithProcess(w, p, Claiming, false)
    case TryLock(p) =>
      if w.port == Free then WithProcess(w.(port := BoundBy(p)), p, Locked, true) else w
    case WritePid(p, port, outcome) =>
      WithProcess(w.(file := AfterWrite(w.file, p, port, outcome)), p, Serving(outcome == Written, port), true)
    case ExitUnelevated(p) => End(w, p)
    case RemovePid(p, unlinked) =>
      WithProcess(w.(file := AfterUnlink(w.file, unlinked)), p, FileRemoved, true)
    case CloseLock(p) => WithProcess(w.(port := Free), p, CleanedUp, false)
    case RemovePidAgain(p, unlinked) => w.(file := AfterUnlink(w.file, unlinked))
    case Exit(p) => End(w, p)
    case Kill(p) => End(w, p)
    case ForeignBind => w.(port := BoundByForeign)
    case ForeignRelease => w.(port := Free)
  }

  predicate Runs(w: World, steps: seq<Step>)
    decreases |steps|
  {
    steps == [] || (Enabled(w, steps[0]) && Runs(Apply(w, steps[0]), steps[1..]))
  }

  function After(w: World, steps: seq<Step>): World
    requires Runs(w, steps)
    decreases |steps|
  {
    if steps == [] then w else After(Apply(w, steps[0]), steps[1..])
  }

  predicate CleansUpOnce(steps: seq<Step>) {
    forall i :: 0 <= i < |steps| ==> !steps[i].RemovePidAgain?
  }

  // ---- the lock ---------------------------------------------------------

  ghost predicate LockInvariant(w: World) {
    && (forall p :: p in w.procs ==>
          (w.procs[p].lockSock <==>
             w.procs[p].phase.Locked? || w.procs[p].phase.Serving? || w.procs[p].phase.FileRemoved?))
    && (forall p :: Holds(w, p) <==> w.port == BoundBy(p))
  }

  lemma LockStep(w: World, s: Step)
    requires LockInvariant(w) && Enabled(w, s)
    ensures LockInvariant(Apply(w, s))
  {
    var w' := Apply(w, s);
    forall p
      ensures Holds(w', p) <==> w'.port == BoundBy(p)
    {
      assert Holds(w, p) <==> w.port == BoundBy(p);
      match s {
        case ForeignBind =>
        case ForeignRelease =>
        case _ => assert Holds(w, s.pid) <==> w.port == BoundBy(s.pid);
      }
    }
  }

  lemma {:induction false} LockAlways(w: World, steps: seq<Step>)
    requires LockInvariant(w) && Runs(w, steps)
    ensures LockInvariant(After(w, steps))
    decreases |steps|
  {
    if steps != [] {
      LockStep(w, steps[0]);
      LockAlways(Apply(w, steps[0]), steps[1..]);
    }
  }

  /** In every reachable state at most one process holds the lock, it is the one
      the port is bound by, and a process serves only while it holds it. */
  lemma AtMostOneHolder(steps: seq<Step>, p: Pid, q: Pid)
    requires Runs(Initial, steps)
    ensures var w := After(Initial, steps);
            && (Holds(w, p) && Holds(w, q) ==> p == q)
            && (Holds(w, p) <==> w.port == BoundBy(p))
            && (IsServing(w, p) ==> Holds(w, p))
  {
    LockAlways(Initial, steps);
  }

  // ---- the PID file -----------------------------------------------------

  /** A serving process whose file was written still finds its own file. */
  ghost predicate FileIntact(w: World) {
    forall p :: IsServing(w, p) && w.procs[p].phase.written ==> w.file == Names(p, w.procs[p].phase.port)
  }

  predicate TouchesFile(s: Step) {
    s.WritePid? || s.RemovePid? || s.RemovePidAgain?
  }

  lemma FileStep(w: World, s: Step)
    requires LockInvariant(w) && FileIntact(w) && Enabled(w, s) && !s.RemovePidAgain?
    ensures FileIntact(Apply(w, s))
    ensures TouchesFile(s) ==> Holds(w, s.pid)
  {
    var w' := Apply(w, s);
    forall p | IsServing(w', p) && w'.procs[p].phase.written
      ensures w'.file == Names(p, w'.procs[p].phase.port)
    {
      if TouchesFile(s) {
        assert Holds(w, s.pid);
        assert p != s.pid ==> w.procs[p].lockSock && Holds(w, p);
      }
    }
  }

  lemma {:induction false} FileAlways(w: World, steps: seq<Step>)
    requires LockInvariant(w) && FileIntact(w) && Runs(w, steps) && CleansUpOnce(steps)
    ensures LockInvariant(After(w, steps)) && FileIntact(After(w, steps))
    decreases |steps|
  {
    if steps != [] {
      LockStep(w, steps[0]);
      FileStep(w, steps[0]);
      assert CleansUpOnce(steps[1..]);
      FileAlways(Apply(w, steps[0]), steps[1..]);
    }
  }

  /** With one cleanup per process: whatever happened before, the next step
      writes or removes the PID file only if its process holds the lock, and a
      serving instance's file is never the one that goes. */
  lemma PidFileBelongsToHolder(steps: seq<Step>, s: Step)
    requires Runs(Initial, steps) && CleansUpOnce(steps)
    requires Enabled(After(Initial, steps), s) && !s.RemovePidAgain?
    ensures var w := After(Initial, steps);
            && FileIntact(w) && FileIntact(Apply(w, s))
            && (TouchesFile(s) ==> Holds(w, s.pid))
  {
    FileAlways(Initial, steps);
    FileStep(After(Initial, steps), s);
  }

  /** A serving process keeps its PID file for as long as it keeps serving,
      through any steps of any other processes. */
  lemma ServingFileSurvives(before: seq<Step>, during: seq<Step>, p: Pid)
    requires Runs(Initial, before) && CleansUpOnce(before)
    requires Runs(After(Initial, before), during) && CleansUpOnce(during)
    requires IsServing(After(Initial, before), p) && After(Initial, before).procs[p].phase.written
    requires In(After(After(Initial, before), during), p, After(Initial, before).procs[p].phase)
    ensures After(After(Initial, before), during).file == After(Initial, before).file
    ensures After(Initial, before).file == Names(p, After(Initial, before).procs[p].phase.port)
  {
    FileAlways(Initial, before);
    FileAlways(After(Initial, before), during);
    assert IsServing(After(After(Initial, before), during), p);
  }

  /** The process the port is bound by serves under a file it wrote. */
  predicate HolderServes(w: World) {
    w.port.BoundBy? && IsServing(w, w.port.pid) && w.procs[w.port.pid].phase.written
  }

  /** A second cleanup touches the file without the lock. In any reachable state,
      whatever cleanups went before, every serving instance finds its file after it
      exactly when the removal fails and they all did before, or it goes through
      and no process that wrote its file is serving. */
  lemma SecondCleanupExactly(steps: seq<Step>, s: Step)
    requires Runs(Initial, steps)
    requires s.RemovePidAgain? && Enabled(After(Initial, steps), s)
    ensures var w := After(Initial, steps);
            && !Holds(w, s.pid)
            && (FileIntact(Apply(w, s)) <==> if s.unlinked then !HolderServes(w) else FileIntact(w))
  {
    LockAlways(Initial, steps);
    var w := After(Initial, steps);
    var w' := Apply(w, s);
    assert w'.procs == w.procs;
    if HolderServes(w) {
      assert IsServing(w', w.port.pid);
    } else if s.unlinked {
      forall p | IsServing(w', p)
        ensures !w'.procs[p].phase.written
      {
        assert IsServing(w, p) && Holds(w, p);
      }
    } else {
      assert w' == w;
    }
  }

  /** A serving process that stops, with the removal going through, leaves the machine
      as it was before any fpstune: no file, the port free, and the next process to
      ask for the lock has it. */
  lemma StopLeavesNothingBehind(steps: seq<Step>, p: Pid, q: Pid)
    requires Runs(Initial, steps) && IsServing(After(Initial, steps), p) && In(After(Initial, steps), q, Claiming)
    ensures Enabled(After(Initial, steps), RemovePid(p, true))
    ensures var w1 := Apply(After(Initial, steps), RemovePid(p, true));
            && Enabled(w1, CloseLock(p))
            && var w2 := Apply(w1, CloseLock(p));
               && w2.port == Free && w2.file == Absent && (forall r :: !Holds(w2, r))
               && Enabled(w2, TryLock(q)) && Holds(Apply(w2, TryLock(q)), q)
  {
    LockAlways(Initial, steps);
    var w := After(Initial, steps);
    var w1 := Apply(w, RemovePid(p, true));
    LockStep(w, RemovePid(p, true));
    LockStep(w1, CloseLock(p));
  }

  /** What is killed in between leaves its lock to no one and its file where it was. */
  lemma KilledFreesTheLock(steps: seq<Step>, p: Pid)
    requires Runs(Initial, steps) && Enabled(After(Initial, steps), Kill(p))
    ensures var w, w' := After(Initial, steps), Apply(After(Initial, steps), Kill(p));
            && w'.file == w.file && !Holds(w', p)
            && w'.port == (if Holds(w, p) then Free else w.port)
            && (forall r :: r != p ==> (Holds(w', r) <==> Holds(w, r)))
  {
    LockAlways(Initial, steps);
  }

  const TakeoverThenSecondCleanup: seq<Step> := [
    Start(1), TryLock(1), WritePid(1, 8000, Written), RemovePid(1, true), CloseLock(1),
    Start(2), TryLock(2), WritePid(2, 8000, Written), RemovePidAgain(1, true)
  ]

  /** Cleaning up twice is not safe: process 1, cleaning up a second time after
      process 2 took over, deletes the file process 2 is serving under. */
  lemma SecondCleanupDeletesNewerFile()
    ensures Runs(Initial, TakeoverThenSecondCleanup)
    ensures var w := After(Initial, TakeoverThenSecondCleanup);
            IsServing(w, 2) && Holds(w, 2) && w.procs[2].phase.written && w.file == Absent
  {
    var steps := TakeoverThenSecondCleanup;
    var w5 := World(Free, Absent, map[1 := Process(CleanedUp, false)]);
    FirstInstanceComesAndGoes();
    SecondInstanceStarts(w5);
    assert steps[..5] + steps[5..] == steps;
    RunsConcat(Initial, steps[..5], steps[5..]);
  }

  lemma FirstInstanceComesAndGoes()
    ensures Runs(Initial, TakeoverThenSecondCleanup[..5])
    ensures After(Initial, TakeoverThenSecondCleanup[..5])
         == World(Free, Absent, map[1 := Process(CleanedUp, false)])
  {
    var t4 := [CloseLock(1)];
    var t3 := [RemovePid(1, true)] + t4;
    var t2 := [WritePid(1, 8000, Written)] + t3;
    var t1 := [TryLock(1)] + t2;
    assert TakeoverThenSecondCleanup[..5] == [Start(1)] + t1;
    var w1 := World(Free, Absent, map[1 := Process(Claiming, false)]);
    RunsCons(Initial, Start(1), t1, w1);
    var w2 := World(BoundBy(1), Absent, map[1 := Process(Locked, true)]);
    RunsCons(w1, TryLock(1), t2, w2);
    var w3 := World(BoundBy(1), Names(1, 8000), map[1 := Process(Serving(true, 8000), true)]);
    RunsCons(w2, WritePid(1, 8000, Written), t3, w3);
    var w4 := World(BoundBy(1), Absent, map[1 := Process(FileRemoved, true)]);
    RunsCons(w3, RemovePid(1, true), t4, w4);
    RunsCons(w4, CloseLock(1), [], World(Free, Absent, map[1 := Process(CleanedUp, false)]));
  }

  lemma SecondInstanceStarts(w: World)
    requires w == World(Free, Absent, map[1 := Process(CleanedUp, false)])
    ensures Runs(w, TakeoverThenSecondCleanup[5..])
    ensures After(w, TakeoverThenSecondCleanup[5..])
         == World(BoundBy(2), Absent,
                  map[1 := Process(CleanedUp, false), 2 := Process(Serving(true, 8000), true)])
  {
    var first := Process(CleanedUp, false);
    var t3 := [RemovePidAgain(1, true)];
    var t2 := [WritePid(2, 8000, Written)] + t3;
    var t1 := [TryLock(2)] + t2;
    assert TakeoverThenSecondCleanup[5..] == [Start(2)] + t1;
    var w1 := World(Free, Absent, map[1 := first, 2 := Process(Claiming, false)]);
    RunsCons(w, Start(2), t1, w1);
    var w2 := World(BoundBy(2), Absent, map[1 := first, 2 := Process(Locked, true)]);
    RunsCons(w1, TryLock(2), t2, w2);
    var serving := Process(Serving(true, 8000), true);
    var w3 := World(BoundBy(2), Names(2, 8000), map[1 := first, 2 := serving]);
    RunsCons(w2, WritePid(2, 8000, Written), t3, w3);
    RunsCons(w3, RemovePidAgain(1, true), [], w3.(file := Absent));
  }

  lemma RunsCons(w: World, s: Step, rest: seq<Step>, next: World)
    requires Enabled(w, s) && Apply(w, s) == next
    ensures Runs(w, [s] + rest) <==> Runs(next, rest)
    ensures Runs(w, [s] + rest) ==> After(w, [s] + rest) == After(next, rest)
  {
    assert ([s] + rest)[1..] == rest;
  }

  lemma {:induction false} RunsConcat(w: World, a: seq<Step>, b: seq<Step>)
    requires Runs(w, a) && Runs(After(w, a), b)
    ensures Runs(w, a + b) && After(w, a + b) == After(After(w, a), b)
    decreases |a|
  {
    if a == [] {
      assert a + b == b;
    } else {
      assert (a + b)[1..] == a[1..] + b;
      RunsConcat(Apply(w, a[0]), a[1..], b);
    }
  }
}
