/** The registry of quality controls against the stages that run them:
    `scripts/controls.py --check`. */
module Controls {
  import opened Options
  import opened Text

  const STAGES := ["pre-commit", "pre-push", "ci", "manual"]

  /** The stages a file runs; `manual` has none. */
  const STAGE_FILES := ["pre-commit", "pre-push", "ci"]

  datatype Control = Control(id: string, command: string, stages: seq<string>, prevents: string, status: string)

  /** What the stage files run, by stage, and what exists on disk. */
  datatype Tree = Tree(commands: map<string, seq<string>>, scripts: set<string>)

  /** A sentence `check` can return. */
  datatype Problem =
    | Unreadable
    | NoPrevents(id: string)
    | UnknownStages(id: string)
    | RunsNowhere(id: string)
    | ScriptGone(id: string)
    | ManualButRun(id: string)
    | ProposedButRun(id: string)
    | UnknownStatus(id: string)
    | MissingFromEarliest(id: string, stage: string)
    | DeclaredNotRun(id: string, stage: string)
    | RunsTwice(id: string, stage: string)
    | RunsTooEarly(id: string, stage: string)
    | Unregistered(stage: string, command: string)

  predicate Known(stage: string) {
    stage in STAGES
  }

  function Order(stage: string): nat {
    if stage == STAGES[0] then 0 else if stage == STAGES[1] then 1 else if stage == STAGES[2] then 2 else 3
  }

  /** How many of a stage's commands contain the control's command. */
  function Runs(commands: seq<string>, command: string): nat {
    if commands == [] then 0
    else Runs(commands[..|commands| - 1], command)
         + (if Contains(commands[|commands| - 1], command) then 1 else 0)
  }

  function CountAt(t: Tree, c: Control, stage: string): nat {
    if stage in t.commands then Runs(t.commands[stage], c.command) else 0
  }

  /** `stage_commands` answered for every stage that has a file. */
  predicate HasAllStages(t: Tree) {
    t.commands.Keys == set s | s in STAGE_FILES
  }

  /** The declared stage that comes first. */
  function Earliest(stages: seq<string>): string
    requires stages != []
  {
    if |stages| == 1 then stages[0]
    else
      var before := Earliest(stages[..|stages| - 1]);
      if Order(stages[|stages| - 1]) < Order(before) then stages[|stages| - 1] else before
  }

  /** `re.search(r"scripts/[\w./-]+\.(py|sh)")` on a manual control's command
      is a parameter: the script path it names, if any. */
  type ScriptOf = string -> Option<string>

  // ---------------------------------------------------------------------
  // The rules, as a reader would state them
  // ---------------------------------------------------------------------

  /** Command `i` is or contains the control's. */
  predicate RunAt(commands: seq<string>, command: string, i: int) {
    0 <= i < |commands| && Contains(commands[i], command)
  }

  predicate RunsThere(t: Tree, c: Control, stage: string) {
    stage in t.commands
    && exists i :: 0 <= i < |t.commands[stage]| && RunAt(t.commands[stage], c.command, i)
  }

  predicate RunsSomewhere(t: Tree, c: Control) {
    exists s :: s in t.commands && RunsThere(t, c, s)
  }

  predicate AtMostOnce(commands: seq<string>, command: string) {
    forall i, j | 0 <= i < |commands| && 0 <= j < |commands| ::
      RunAt(commands, command, i) && RunAt(commands, command, j) ==> i == j
  }

  /** Something to read in it. */
  predicate SaysSomething(text: string) {
    exists i :: 0 <= i < |text| && !IsSpace(text[i])
  }

  predicate WellFormed(c: Control) {
    && SaysSomething(c.prevents) && c.stages != []
    && forall s :: s in c.stages ==> s in ["pre-commit", "pre-push", "ci", "manual"]
  }

  /** Runs exactly once at every declared stage, never before the first of them,
      and at most once anywhere else. */
  predicate WiredRight(t: Tree, c: Control) {
    && (forall s :: s in c.stages ==> RunsThere(t, c, s))
    && (forall s :: s in t.commands ==> AtMostOnce(t.commands[s], c.command))
    && (RunsThere(t, c, "pre-commit") ==> "pre-commit" in c.stages)
    && (RunsThere(t, c, "pre-push") ==> "pre-commit" in c.stages || "pre-push" in c.stages)
  }

  predicate ControlRight(t: Tree, c: Control, scriptOf: ScriptOf) {
    && WellFormed(c)
    && if "manual" in c.stages then
         && (scriptOf(c.command).Some? ==> scriptOf(c.command).value in t.scripts)
         && !RunsSomewhere(t, c)
       else if c.status == "proposed" then !RunsSomewhere(t, c)
       else c.status == "wired" && WiredRight(t, c)
  }

  predicate IsCheck(prefixes: seq<string>, command: string) {
    exists p :: p in prefixes && StartsWith(command, p)
  }

  predicate Owned(controls: seq<Control>, command: string) {
    exists c :: c in controls && Contains(command, c.command)
  }

  /** The control's command stands in this one, from `i` on. */
  predicate StandsIn(c: Control, command: string, i: int) {
    0 <= i <= |command| - |c.command| && command[i..i + |c.command|] == c.command
  }

  /** Where it starts with a check's prefix, some control's command stands in it. */
  predicate CheckOwned(prefixes: seq<string>, controls: seq<Control>, command: string) {
    || (forall p :: p in prefixes ==> !(p <= command))
    || (exists j, i :: 0 <= j < |controls| && 0 <= i <= |command| && StandsIn(controls[j], command, i))
  }

  predicate EveryCheckOwned(t: Tree, prefixes: seq<string>, controls: seq<Control>) {
    forall s, k :: s in t.commands && 0 <= k < |t.commands[s]| ==> CheckOwned(prefixes, controls, t.commands[s][k])
  }

  // ---------------------------------------------------------------------
  // Every problem, and when it is one
  // ---------------------------------------------------------------------

  predicate DeclaredProblem(t: Tree, c: Control, stages: seq<string>, p: Problem) {
    p.DeclaredNotRun? && p.id == c.id && p.stage in stages && CountAt(t, c, p.stage) == 0
  }

  predicate StageProblem(t: Tree, c: Control, earliest: string, stages: seq<string>, p: Problem) {
    || (p.RunsTwice? && p.id == c.id && p.stage in stages && CountAt(t, c, p.stage) > 1)
    || (p.RunsTooEarly? && p.id == c.id && p.stage in stages && CountAt(t, c, p.stage) > 0
        && Order(p.stage) < Order(earliest))
  }

  predicate WiredProblem(t: Tree, c: Control, p: Problem)
    requires c.stages != []
  {
    var earliest := Earliest(c.stages);
    || (p == MissingFromEarliest(c.id, earliest) && CountAt(t, c, earliest) == 0)
    || DeclaredProblem(t, c, c.stages, p)
    || StageProblem(t, c, earliest, STAGE_FILES, p)
  }

  predicate ManualProblem(t: Tree, c: Control, scriptOf: ScriptOf, p: Problem) {
    || (p == ScriptGone(c.id) && scriptOf(c.command).Some? && scriptOf(c.command).value !in t.scripts)
    || (p == ManualButRun(c.id) && RunsSomewhere(t, c))
  }

  predicate HasUnknownStage(c: Control) {
    exists s :: s in c.stages && !Known(s)
  }

  predicate ControlProblem(t: Tree, c: Control, scriptOf: ScriptOf, p: Problem) {
    || (p == NoPrevents(c.id) && Trim(c.prevents) == "")
    || (if HasUnknownStage(c) then p == UnknownStages(c.id)
        else if c.stages == [] then p == RunsNowhere(c.id)
        else if "manual" in c.stages then ManualProblem(t, c, scriptOf, p)
        else if c.status == "proposed" then p == ProposedButRun(c.id) && RunsSomewhere(t, c)
        else if c.status != "wired" then p == UnknownStatus(c.id)
        else WiredProblem(t, c, p))
  }

  predicate UnregisteredProblem(
      commands: seq<string>, stage: string, prefixes: seq<string>, controls: seq<Control>, p: Problem)
  {
    && p.Unregistered? && p.stage == stage && p.command in commands
    && IsCheck(prefixes, p.command) && !Owned(controls, p.command)
  }

  // ---------------------------------------------------------------------
  // The checker
  // ---------------------------------------------------------------------

  method CountRuns(commands: seq<string>, command: string) returns (count: nat)
    ensures count == Runs(commands, command)
  {
    count := 0;
    for i := 0 to |commands|
      invariant count == Runs(commands[..i], command)
    {
      assert commands[..i + 1][..i] == commands[..i];
      if Contains(commands[i], command) {
        count := count + 1;
      }
    }
    assert commands[..|commands|] == commands;
  }

  method EarliestStage(stages: seq<string>) returns (earliest: string)
    requires stages != []
    ensures earliest == Earliest(stages)
  {
    earliest := stages[0];
    for i := 1 to |stages|
      invariant earliest == Earliest(stages[..i])
    {
      assert stages[..i + 1][..i] == stages[..i];
      if Order(stages[i]) < Order(earliest) {
        earliest := stages[i];
      }
    }
    assert stages[..|stages|] == stages;
  }

  method DeclaredProblems(t: Tree, c: Control) returns (problems: seq<Problem>)
    requires forall s :: s in c.stages ==> s in t.commands
    ensures forall p :: p in problems <==> DeclaredProblem(t, c, c.stages, p)
  {
    problems := [];
    for i := 0 to |c.stages|
      invariant forall p :: p in problems <==> DeclaredProblem(t, c, c.stages[..i], p)
    {
      var count := CountRuns(t.commands[c.stages[i]], c.command);
      assert c.stages[..i + 1] == c.stages[..i] + [c.stages[i]];
      if count == 0 {
        problems := problems + [DeclaredNotRun(c.id, c.stages[i])];
      }
    }
    assert c.stages[..|c.stages|] == c.stages;
  }

  method StageProblems(t: Tree, c: Control, earliest: string) returns (problems: seq<Problem>)
    requires HasAllStages(t)
    ensures forall p :: p in problems <==> StageProblem(t, c, earliest, STAGE_FILES, p)
  {
    problems := [];
    for i := 0 to |STAGE_FILES|
      invariant forall p :: p in problems <==> StageProblem(t, c, earliest, STAGE_FILES[..i], p)
    {
      var stage := STAGE_FILES[i];
      assert stage in STAGE_FILES;
      var count := CountRuns(t.commands[stage], c.command);
      assert STAGE_FILES[..i + 1] == STAGE_FILES[..i] + [stage];
      if count > 1 {
        problems := problems + [RunsTwice(c.id, stage)];
      }
      if count > 0 && Order(stage) < Order(earliest) {
        problems := problems + [RunsTooEarly(c.id, stage)];
      }
    }
    assert STAGE_FILES[..|STAGE_FILES|] == STAGE_FILES;
  }

  /** The problems of a wired control are exactly the rules it breaks. */
  method WiredProblems(t: Tree, c: Control) returns (problems: seq<Problem>)
    requires HasAllStages(t) && c.stages != [] && forall s :: s in c.stages ==> s in t.commands
    ensures forall p :: p in problems <==> WiredProblem(t, c, p)
  {
    problems := [];
    var earliest := EarliestStage(c.stages);
    EarliestIsFirst(c.stages);
    var count := CountRuns(t.commands[earliest], c.command);
    if count == 0 {
      problems := [MissingFromEarliest(c.id, earliest)];
    }
    var declared := DeclaredProblems(t, c);
    var staged := StageProblems(t, c, earliest);
    problems := problems + declared + staged;
  }

  method RunsAnywhere(t: Tree, c: Control) returns (some: bool)
    requires HasAllStages(t)
    ensures some <==> RunsSomewhere(t, c)
  {
    forall s | s in t.commands
      ensures CountAt(t, c, s) > 0 <==> RunsThere(t, c, s)
    {
      RunsCounts(t.commands[s], c.command);
    }
    some := false;
    for i := 0 to |STAGE_FILES|
      invariant some <==> exists j :: 0 <= j < i && CountAt(t, c, STAGE_FILES[j]) > 0
    {
      assert STAGE_FILES[i] in STAGE_FILES;
      var count := CountRuns(t.commands[STAGE_FILES[i]], c.command);
      some := some || count > 0;
    }
    if some {
      var j :| 0 <= j < |STAGE_FILES| && CountAt(t, c, STAGE_FILES[j]) > 0;
      assert STAGE_FILES[j] in STAGE_FILES && STAGE_FILES[j] in t.commands;
      assert RunsThere(t, c, STAGE_FILES[j]);
    }
    forall s | s in t.commands && RunsThere(t, c, s)
      ensures some
    {
      assert s in STAGE_FILES;
    }
  }

  method ManualProblems(t: Tree, c: Control, scriptOf: ScriptOf) returns (problems: seq<Problem>)
    requires HasAllStages(t)
    ensures forall p :: p in problems <==> ManualProblem(t, c, scriptOf, p)
  {
    problems := [];
    var script := scriptOf(c.command);
    if script.Some? && script.value !in t.scripts {
      problems := problems + [ScriptGone(c.id)];
    }
    var some := RunsAnywhere(t, c);
    if some {
      problems := problems + [ManualButRun(c.id)];
    }
  }

  method ControlProblems(t: Tree, c: Control, scriptOf: ScriptOf) returns (problems: seq<Problem>)
    requires HasAllStages(t)
    ensures forall p :: p in problems <==> ControlProblem(t, c, scriptOf, p)
  {
    problems := [];
    if Trim(c.prevents) == "" {
      problems := [NoPrevents(c.id)];
    }
    if HasUnknownStage(c) {
      return problems + [UnknownStages(c.id)];
    }
    if c.stages == [] {
      return problems + [RunsNowhere(c.id)];
    }
    if "manual" in c.stages {
      var manual := ManualProblems(t, c, scriptOf);
      return problems + manual;
    }
    if c.status == "proposed" {
      var some := RunsAnywhere(t, c);
      return problems + if some then [ProposedButRun(c.id)] else [];
    }
    if c.status != "wired" {
      return problems + [UnknownStatus(c.id)];
    }
    forall s | s in c.stages
      ensures s in t.commands
    {
      assert Known(s) && s != "manual";
      assert s in STAGE_FILES;
    }
    var wired := WiredProblems(t, c);
    return problems + wired;
  }

  method UnregisteredIn(commands: seq<string>, stage: string, prefixes: seq<string>, controls: seq<Control>)
    returns (problems: seq<Problem>)
    ensures forall p :: p in problems <==> UnregisteredProblem(commands, stage, prefixes, controls, p)
  {
    problems := [];
    for i := 0 to |commands|
      invariant forall p :: p in problems <==> UnregisteredProblem(commands[..i], stage, prefixes, controls, p)
    {
      assert commands[..i + 1] == commands[..i] + [commands[i]];
      if !IsCheck(prefixes, commands[i]) {
        continue;
      }
      if Owned(controls, commands[i]) {
        continue;
      }
      problems := problems + [Unregistered(stage, commands[i])];
    }
    assert commands[..|commands|] == commands;
  }

  predicate AnyControlProblem(t: Tree, controls: seq<Control>, scriptOf: ScriptOf, p: Problem) {
    exists c :: c in controls && ControlProblem(t, c, scriptOf, p)
  }

  predicate AnyUnregistered(t: Tree, prefixes: seq<string>, controls: seq<Control>, stages: seq<string>, p: Problem) {
    p.Unregistered? && p.stage in stages && p.stage in t.commands
    && UnregisteredProblem(t.commands[p.stage], p.stage, prefixes, controls, p)
  }

  /** Everything `check` reports, and nothing else. */
  method Check(tree: Option<Tree>, prefixes: seq<string>, controls: seq<Control>, scriptOf: ScriptOf)
    returns (problems: seq<Problem>)
    requires tree.Some? ==> HasAllStages(tree.value)
    ensures tree == None ==> problems == [Unreadable]
    ensures tree.Some? ==>
              forall p :: p in problems <==>
                AnyControlProblem(tree.value, controls, scriptOf, p)
                || AnyUnregistered(tree.value, prefixes, controls, STAGE_FILES, p)
  {
    if tree == None {
      return [Unreadable];
    }
    var t := tree.value;
    problems := [];
    for i := 0 to |controls|
      invariant forall p :: p in problems <==> AnyControlProblem(t, controls[..i], scriptOf, p)
    {
      assert controls[..i + 1] == controls[..i] + [controls[i]];
      var more := ControlProblems(t, controls[i], scriptOf);
      problems := problems + more;
    }
    assert controls[..|controls|] == controls;
    var strays: seq<Problem> := [];
    for i := 0 to |STAGE_FILES|
      invariant forall p :: p in strays <==> AnyUnregistered(t, prefixes, controls, STAGE_FILES[..i], p)
    {
      var stage := STAGE_FILES[i];
      assert stage in STAGE_FILES;
      assert STAGE_FILES[..i + 1] == STAGE_FILES[..i] + [stage];
      var more := UnregisteredIn(t.commands[stage], stage, prefixes, controls);
      strays := strays + more;
    }
    assert STAGE_FILES[..|STAGE_FILES|] == STAGE_FILES;
    problems := problems + strays;
  }

  // ---------------------------------------------------------------------
  // No problem exactly when the rules hold
  // ---------------------------------------------------------------------

  lemma {:induction false} EarliestIsFirst(stages: seq<string>)
    requires stages != []
    ensures Earliest(stages) in stages
    ensures forall s :: s in stages ==> Order(Earliest(stages)) <= Order(s)
  {
    if |stages| > 1 {
      var front := stages[..|stages| - 1];
      EarliestIsFirst(front);
      assert stages == front + [stages[|stages| - 1]];
    }
  }

  /** Counting to nothing, and to no more than one, is what it should be. */
  lemma {:induction false} RunsCounts(commands: seq<string>, command: string)
    ensures Runs(commands, command) == 0 <==> forall i | 0 <= i < |commands| :: !RunAt(commands, command, i)
    ensures Runs(commands, command) <= 1 <==> AtMostOnce(commands, command)
  {
    if commands != [] {
      var front, n := commands[..|commands| - 1], |commands| - 1;
      RunsCounts(front, command);
      assert forall i | 0 <= i < n :: RunAt(commands, command, i) <==> RunAt(front, command, i);
      if RunAt(commands, command, n) {
        if AtMostOnce(commands, command) {
          assert forall i | 0 <= i < n :: !RunAt(front, command, i);
        } else if i, j :| 0 <= i < |commands| && 0 <= j < |commands| && i != j
                          && RunAt(commands, command, i) && RunAt(commands, command, j) {
          assert RunAt(front, command, if i < n then i else j);
        }
      } else {
        assert AtMostOnce(commands, command) <==> AtMostOnce(front, command);
      }
    }
  }

  lemma CountsAt(t: Tree, c: Control, s: string)
    requires s in t.commands
    ensures CountAt(t, c, s) > 0 <==> RunsThere(t, c, s)
    ensures CountAt(t, c, s) <= 1 <==> AtMostOnce(t.commands[s], c.command)
  {
    RunsCounts(t.commands[s], c.command);
  }

  /** No stage before the declared ones: a stage is early exactly when it comes before
      the earliest declared one. */
  lemma EarlyExactly(stages: seq<string>, stage: string)
    requires stages != [] && stage in STAGE_FILES && forall s :: s in stages ==> s in STAGE_FILES
    ensures Order(stage) < Order(Earliest(stages))
            <==> (stage == "pre-commit" && "pre-commit" !in stages)
                 || (stage == "pre-push" && "pre-commit" !in stages && "pre-push" !in stages)
  {
    EarliestIsFirst(stages);
    assert forall s :: s in STAGE_FILES ==> s == "pre-commit" || s == "pre-push" || s == "ci";
  }

  lemma WiredCleanIsRight(t: Tree, c: Control)
    requires HasAllStages(t) && c.stages != [] && forall s :: s in c.stages ==> s in t.commands
    requires forall p :: !WiredProblem(t, c, p)
    ensures WiredRight(t, c)
  {
    forall s | s in t.commands
      ensures AtMostOnce(t.commands[s], c.command)
      ensures RunsThere(t, c, s) ==> Order(Earliest(c.stages)) <= Order(s)
    {
      assert s in STAGE_FILES;
      assert !WiredProblem(t, c, RunsTwice(c.id, s));
      assert !WiredProblem(t, c, RunsTooEarly(c.id, s));
      CountsAt(t, c, s);
    }
    forall s | s in c.stages
      ensures RunsThere(t, c, s)
    {
      assert !WiredProblem(t, c, DeclaredNotRun(c.id, s));
      CountsAt(t, c, s);
    }
    EarlyExactly(c.stages, "pre-commit");
    EarlyExactly(c.stages, "pre-push");
  }

  lemma WiredRightIsClean(t: Tree, c: Control, p: Problem)
    requires HasAllStages(t) && c.stages != [] && forall s :: s in c.stages ==> s in t.commands
    requires WiredRight(t, c)
    ensures !WiredProblem(t, c, p)
  {
    EarliestIsFirst(c.stages);
    CountsAt(t, c, Earliest(c.stages));
    if p.DeclaredNotRun? && p.stage in c.stages {
      CountsAt(t, c, p.stage);
    } else if (p.RunsTwice? || p.RunsTooEarly?) && p.stage in STAGE_FILES {
      assert p.stage in t.commands;
      CountsAt(t, c, p.stage);
      EarlyExactly(c.stages, p.stage);
    }
  }

  lemma WiredCleanExactly(t: Tree, c: Control)
    requires HasAllStages(t) && c.stages != [] && forall s :: s in c.stages ==> s in t.commands
    ensures (forall p :: !WiredProblem(t, c, p)) <==> WiredRight(t, c)
  {
    if forall p :: !WiredProblem(t, c, p) {
      WiredCleanIsRight(t, c);
    }
    if WiredRight(t, c) {
      forall p
        ensures !WiredProblem(t, c, p)
      {
        WiredRightIsClean(t, c, p);
      }
    }
  }

  lemma ControlCleanExactly(t: Tree, c: Control, scriptOf: ScriptOf)
    requires HasAllStages(t)
    ensures (forall p :: !ControlProblem(t, c, scriptOf, p)) <==> ControlRight(t, c, scriptOf)
  {
    TrimBlank(c.prevents);
    assert Trim(c.prevents) == "" <==> !SaysSomething(c.prevents);
    assert forall s :: Known(s) <==> s in ["pre-commit", "pre-push", "ci", "manual"];
    if forall p :: !ControlProblem(t, c, scriptOf, p) {
      assert !ControlProblem(t, c, scriptOf, NoPrevents(c.id));
      assert !ControlProblem(t, c, scriptOf, UnknownStages(c.id));
      assert !ControlProblem(t, c, scriptOf, RunsNowhere(c.id));
      assert !ControlProblem(t, c, scriptOf, ScriptGone(c.id));
      assert !ControlProblem(t, c, scriptOf, ManualButRun(c.id));
      assert !ControlProblem(t, c, scriptOf, ProposedButRun(c.id));
      assert !ControlProblem(t, c, scriptOf, UnknownStatus(c.id));
    }
    if WellFormed(c) && "manual" !in c.stages && c.status == "wired" {
      forall s | s in c.stages
        ensures s in t.commands
      {
        assert Known(s) && s in STAGE_FILES;
      }
      WiredCleanExactly(t, c);
      forall p
        ensures ControlProblem(t, c, scriptOf, p) <==> WiredProblem(t, c, p)
      {
      }
    }
  }

  lemma OwnedExactly(t: Tree, prefixes: seq<string>, controls: seq<Control>)
    requires HasAllStages(t)
    ensures (forall p :: !AnyUnregistered(t, prefixes, controls, STAGE_FILES, p))
            <==> EveryCheckOwned(t, prefixes, controls)
  {
    forall command: string
      ensures CheckOwned(prefixes, controls, command) <==> !IsCheck(prefixes, command) || Owned(controls, command)
    {
      OwnedByOne(prefixes, controls, command);
    }
    if forall p :: !AnyUnregistered(t, prefixes, controls, STAGE_FILES, p) {
      forall s, k | s in t.commands && 0 <= k < |t.commands[s]|
        ensures CheckOwned(prefixes, controls, t.commands[s][k])
      {
        assert s in STAGE_FILES;
        assert !AnyUnregistered(t, prefixes, controls, STAGE_FILES, Unregistered(s, t.commands[s][k]));
      }
    }
  }

  lemma OwnedByOne(prefixes: seq<string>, controls: seq<Control>, command: string)
    ensures CheckOwned(prefixes, controls, command) <==> !IsCheck(prefixes, command) || Owned(controls, command)
  {
    if Owned(controls, command) {
      var c :| c in controls && Contains(command, c.command);
      var j :| 0 <= j < |controls| && controls[j] == c;
      var i :| 0 <= i <= |command| && OccursAt(command, c.command, i);
      assert StandsIn(controls[j], command, i);
    }
    if j, i :| 0 <= j < |controls| && 0 <= i <= |command| && StandsIn(controls[j], command, i) {
      assert OccursAt(command, controls[j].command, i);
    }
  }

  /** The checker is green exactly when the rules hold: every control is as it
      should be, and every check a stage runs is somebody's. */
  method CheckIsGreenExactly(t: Tree, prefixes: seq<string>, controls: seq<Control>, scriptOf: ScriptOf)
    returns (problems: seq<Problem>)
    requires HasAllStages(t)
    ensures problems == []
            <==> (forall c :: c in controls ==> ControlRight(t, c, scriptOf)) && EveryCheckOwned(t, prefixes, controls)
  {
    problems := Check(Some(t), prefixes, controls, scriptOf);
    OwnedExactly(t, prefixes, controls);
    forall c | c in controls
      ensures (forall p :: !ControlProblem(t, c, scriptOf, p)) <==> ControlRight(t, c, scriptOf)
    {
      ControlCleanExactly(t, c, scriptOf);
    }
    if problems == [] {
      forall c, p | c in controls
        ensures !ControlProblem(t, c, scriptOf, p)
      {
        assert !AnyControlProblem(t, controls, scriptOf, p);
      }
      forall p
        ensures !AnyUnregistered(t, prefixes, controls, STAGE_FILES, p)
      {
        assert p !in problems;
      }
    } else {
      assert problems[0] in problems;
    }
  }
}
