/** The settings map of the store: what a definition becomes, what a detection
    result does to a row, and the counts and buttons that read the rows. */
module SettingsStore {
  import opened Options
  import opened Text
  import opened SettingValues

  type Id = string
  type Category = string

  datatype RowStatus = Loading | Optimal | Suboptimal | Default

  datatype CategoryStatus = Idle | LoadingCategory | DoneCategory | ErrorCategory

  const SCOPES := ["essential", "recommended", "complete"]

  datatype Definition = Definition(
    id: Id, category: Category, isAction: bool, isReadonly: bool, scope: Value,
    recommended: Value, default: Value)

  datatype Setting = Setting(
    id: Id, category: Category, isAction: bool, isReadonly: bool, scope: string,
    currentValue: Value, recommendedValue: Value, defaultValue: Value, defaultSource: Value,
    isOptimized: bool, isApplicable: bool, applicableReason: Value,
    detectionError: Value, finding: Option<string>, status: RowStatus)

  /** One wire text narrowed to the texts a union knows, or the fallback. */
  function OneOf(allowed: seq<string>, raw: Value, fallback: string): (r: string)
    ensures raw.Str? && raw.s in allowed ==> r == raw.s
    ensures r != fallback ==> raw == Str(r) && r in allowed
  {
    if raw.Str? && raw.s in allowed then raw.s else fallback
  }

  function DefinitionToSetting(def: Definition): Setting {
    Setting(def.id, def.category, def.isAction, def.isReadonly, OneOf(SCOPES, def.scope, "recommended"),
            Null, def.recommended, def.default, Undefined,
            false, true, Undefined, Undefined, None, Loading)
  }

  function ComputeStatus(isOptimized: bool, value: Value): RowStatus {
    if isOptimized then Optimal
    else if value == Null || (value.Str? && Lower(value.s) == "unknown") then Default
    else Suboptimal
  }

  // ---------------------------------------------------------------------
  // Detection results
  // ---------------------------------------------------------------------

  /** The finding field of a result: absent, null, an object that names its kind,
      or anything else. */
  datatype FindingField = NoNews | NullFinding | Found(kind: string) | Malformed

  /** The backend's state of one setting. A field it leaves out is `Undefined`. */
  datatype SettingState = SettingState(
    isAction: bool, current: Value, reading: Value, applicable: bool, applicableReason: Value,
    recommended: Value, default: Value, defaultSource: Value, isOptimized: bool, error: Value, finding: FindingField)

  datatype Update = Update(
    value: Value, isOptimized: bool, isApplicable: bool, applicableReason: Value, error: Value,
    recommended: Value, finding: FindingField, default: Value, defaultSource: Value)

  function UpdateFromState(s: SettingState): Update {
    Update(if s.isAction then s.reading else s.current, s.isOptimized, s.applicable, s.applicableReason,
           s.error, s.recommended, s.finding, s.default, s.defaultSource)
  }

  /** The three-state merge: an absent field leaves the row's own standing, a
      null error or finding clears it, anything else replaces it. */
  function Merge(row: Setting, u: Update): Setting {
    row.(currentValue := u.value,
         isOptimized := u.isOptimized,
         isApplicable := u.isApplicable,
         applicableReason := u.applicableReason,
         detectionError := if u.error == Undefined then row.detectionError
                           else if u.error == Null then Undefined else u.error,
         recommendedValue := if u.recommended == Undefined then row.recommendedValue else u.recommended,
         defaultValue := if u.default == Undefined then row.defaultValue else u.default,
         defaultSource := if u.defaultSource == Undefined then row.defaultSource else u.defaultSource,
         finding := match u.finding
                    case NoNews => row.finding
                    case Found(kind) => Some(kind)
                    case _ => None,
         status := ComputeStatus(u.isOptimized, u.value))
  }

  datatype Slice = Slice(
    settings: map<Id, Setting>, categoryStatus: map<Category, CategoryStatus>, version: nat)

  const EmptySlice := Slice(map[], map[], 0)

  function MergeAll(settings: map<Id, Setting>, results: map<Id, Update>): map<Id, Setting> {
    map id | id in settings :: if id in results then Merge(settings[id], results[id]) else settings[id]
  }

  function MarkDone(status: map<Category, CategoryStatus>, done: seq<Category>): map<Category, CategoryStatus> {
    if done == [] then status else MarkDone(status, done[..|done| - 1])[done[|done| - 1] := DoneCategory]
  }

  function Finalize(s: Slice, results: map<Id, Update>, done: seq<Category>): Slice {
    Slice(MergeAll(s.settings, results), MarkDone(s.categoryStatus, done), s.version + 1)
  }

  function Updates(states: map<Id, SettingState>): map<Id, Update> {
    map id | id in states :: UpdateFromState(states[id])
  }

  /** The last definition of an id wins. */
  function FromDefinitions(defs: seq<Definition>): map<Id, Setting> {
    if defs == [] then map[]
    else
      var last := DefinitionToSetting(defs[|defs| - 1]);
      FromDefinitions(defs[..|defs| - 1])[last.id := last]
  }

  function Categories(settings: map<Id, Setting>, ids: set<Id>): set<Category> {
    set id | id in ids && id in settings :: settings[id].category
  }

  function AllIdle(categories: set<Category>): map<Category, CategoryStatus> {
    map c | c in categories :: Idle
  }

  function Initialize(s: Slice, defs: seq<Definition>): Slice {
    var settings := FromDefinitions(defs);
    Slice(settings, AllIdle(Categories(settings, settings.Keys)), s.version + 1)
  }

  class SettingsSlice {
    var settings: map<Id, Setting>
    var categoryDetectionStatus: map<Category, CategoryStatus>
    var settingsVersion: nat

    ghost function View(): Slice
      reads this
    {
      Slice(settings, categoryDetectionStatus, settingsVersion)
    }

    constructor ()
      ensures View() == EmptySlice
    {
      settings, categoryDetectionStatus, settingsVersion := map[], map[], 0;
    }

    method InitializeFromDefinitions(defs: seq<Definition>)
      modifies this
      ensures View() == Initialize(old(View()), defs)
    {
      var newSettings: map<Id, Setting> := map[];
      for i := 0 to |defs|
        invariant newSettings == FromDefinitions(defs[..i])
        invariant View() == old(View())
      {
        var setting := DefinitionToSetting(defs[i]);
        newSettings := newSettings[setting.id := setting];
        assert defs[..i + 1][..i] == defs[..i];
      }
      assert defs[..|defs|] == defs;
      var status: map<Category, CategoryStatus> := map[];
      var left := newSettings.Keys;
      while left != {}
        invariant left <= newSettings.Keys
        invariant status == AllIdle(Categories(newSettings, newSettings.Keys - left))
        invariant View() == old(View())
        decreases left
      {
        var id :| id in left;
        status := status[newSettings[id].category := Idle];
        assert Categories(newSettings, newSettings.Keys - (left - {id}))
            == Categories(newSettings, newSettings.Keys - left) + {newSettings[id].category};
        left := left - {id};
      }
      assert newSettings.Keys - left == newSettings.Keys;
      settings, categoryDetectionStatus, settingsVersion := newSettings, status, settingsVersion + 1;
    }

    method SetSettingsCategoryStatus(category: Category, status: CategoryStatus)
      modifies this`categoryDetectionStatus
      ensures categoryDetectionStatus == old(categoryDetectionStatus)[category := status]
    {
      categoryDetectionStatus := categoryDetectionStatus[category := status];
    }

    /** One write of every result and every finished category, and one bump. */
    method FinalizeDetection(results: map<Id, Update>, done: seq<Category>)
      modifies this
      ensures View() == Finalize(old(View()), results, done)
    {
      var newSettings := settings;
      var left := results.Keys;
      while left != {}
        invariant left <= results.Keys
        invariant newSettings.Keys == settings.Keys
        invariant forall id :: id in settings ==>
                    newSettings[id] == if id in results && id !in left then Merge(settings[id], results[id]) else settings[id]
        invariant View() == old(View())
        decreases left
      {
        var id :| id in left;
        if id in newSettings {
          newSettings := newSettings[id := Merge(newSettings[id], results[id])];
        }
        left := left - {id};
      }
      var newStatus := categoryDetectionStatus;
      for i := 0 to |done|
        invariant newStatus == MarkDone(categoryDetectionStatus, done[..i])
        invariant View() == old(View())
      {
        newStatus := newStatus[done[i] := DoneCategory];
        assert done[..i + 1][..i] == done[..i];
      }
      assert done[..|done|] == done;
      settings, categoryDetectionStatus, settingsVersion := newSettings, newStatus, settingsVersion + 1;
    }

    method ApplySettingStates(states: map<Id, SettingState>, done: seq<Category>)
      modifies this
      ensures View() == Finalize(old(View()), Updates(states), done)
      ensures Lands(old(View()), View(), states, done)
    {
      FinalizeDetection(Updates(states), done);
      StatesLand(old(View()), states, done);
    }
  }

  // ---------------------------------------------------------------------
  // What a row shows after a reply, and after a definition
  // ---------------------------------------------------------------------

  /** A row after the backend said `state` of it: the reading of an action and the
      value of a tweak, the verdict and the status it implies. What the reply leaves
      out stays, what it says is null is cleared where null means none, and the rest
      is replaced; what the row is does not change. */
  predicate Shows(after: Setting, state: SettingState, before: Setting) {
    && after.currentValue == (if state.isAction then state.reading else state.current)
    && after.isOptimized == state.isOptimized
    && after.isApplicable == state.applicable && after.applicableReason == state.applicableReason
    && (state.isOptimized ==> after.status == Optimal)
    && (!state.isOptimized ==>
          after.status == if after.currentValue == Null || (after.currentValue.Str? && Lower(after.currentValue.s) == "unknown")
                          then Default else Suboptimal)
    && (state.error == Undefined ==> after.detectionError == before.detectionError)
    && (state.error == Null ==> after.detectionError == Undefined)
    && (state.error != Undefined && state.error != Null ==> after.detectionError == state.error)
    && after.recommendedValue == (if state.recommended == Undefined then before.recommendedValue else state.recommended)
    && after.defaultValue == (if state.default == Undefined then before.defaultValue else state.default)
    && after.defaultSource == (if state.defaultSource == Undefined then before.defaultSource else state.defaultSource)
    && (state.finding == NoNews ==> after.finding == before.finding)
    && (state.finding.Found? ==> after.finding == Some(state.finding.kind))
    && (state.finding == NullFinding || state.finding == Malformed ==> after.finding == None)
    && (after.id, after.category, after.isAction, after.isReadonly, after.scope)
       == (before.id, before.category, before.isAction, before.isReadonly, before.scope)
  }

  /** A reply lands: its known rows show it, the others stay, the finished categories
      are done, the others stay, and the readers of the map are told once. */
  ghost predicate Lands(before: Slice, after: Slice, states: map<Id, SettingState>, done: seq<Category>) {
    && after.settings.Keys == before.settings.Keys
    && (forall id :: id in before.settings && id in states ==>
          Shows(after.settings[id], states[id], before.settings[id]))
    && (forall id :: id in before.settings && id !in states ==> after.settings[id] == before.settings[id])
    && (forall c :: c in done ==> c in after.categoryStatus && after.categoryStatus[c] == DoneCategory)
    && (forall c :: c !in done ==>
          (c in after.categoryStatus <==> c in before.categoryStatus)
          && (c in before.categoryStatus ==> after.categoryStatus[c] == before.categoryStatus[c]))
    && after.version == before.version + 1
  }

  lemma {:induction false} DoneAreMarked(status: map<Category, CategoryStatus>, done: seq<Category>)
    ensures forall c :: c in done ==> c in MarkDone(status, done) && MarkDone(status, done)[c] == DoneCategory
    ensures forall c :: c !in done ==>
              (c in MarkDone(status, done) <==> c in status) && (c in status ==> MarkDone(status, done)[c] == status[c])
  {
    if done != [] {
      var front := done[..|done| - 1];
      DoneAreMarked(status, front);
      assert done == front + [done[|done| - 1]];
    }
  }

  lemma StatesLand(s: Slice, states: map<Id, SettingState>, done: seq<Category>)
    ensures Lands(s, Finalize(s, Updates(states), done), states, done)
  {
    DoneAreMarked(s.categoryStatus, done);
  }

  /** The row a definition gives: unread, applicable until something else is known, and
      in one of the three scopes. */
  predicate Defines(row: Setting, def: Definition) {
    && (row.id, row.category, row.isAction, row.isReadonly)
       == (def.id, def.category, def.isAction, def.isReadonly)
    && (row.recommendedValue, row.defaultValue) == (def.recommended, def.default)
    && row.scope == (if def.scope in [Str("essential"), Str("recommended"), Str("complete")] then def.scope.s
                     else "recommended")
    && row.currentValue == Null && row.status == Loading && !row.isOptimized && row.isApplicable
    && row.detectionError == Undefined && row.finding == None
  }

  lemma {:induction false} LastDefinitionWins(defs: seq<Definition>, i: nat)
    requires i < |defs| && forall j :: i < j < |defs| ==> defs[j].id != defs[i].id
    ensures defs[i].id in FromDefinitions(defs) && Defines(FromDefinitions(defs)[defs[i].id], defs[i])
  {
    var front := defs[..|defs| - 1];
    if i < |defs| - 1 {
      LastDefinitionWins(front, i);
    }
  }

  lemma {:induction false} OnlyDefinedRows(defs: seq<Definition>, id: Id)
    ensures id in FromDefinitions(defs) <==> exists i :: 0 <= i < |defs| && defs[i].id == id
  {
    if defs != [] {
      var front := defs[..|defs| - 1];
      OnlyDefinedRows(front, id);
      if i :| 0 <= i < |front| && front[i].id == id {
        assert defs[i].id == id;
      }
    }
  }

  /** A store from its definitions: one row per id, the last definition's, and every
      category that has a row idle. */
  lemma InitializedExactly(s: Slice, defs: seq<Definition>, i: nat)
    requires i < |defs| && forall j :: i < j < |defs| ==> defs[j].id != defs[i].id
    ensures var t := Initialize(s, defs);
            && defs[i].id in t.settings && Defines(t.settings[defs[i].id], defs[i])
            && (forall id :: id in t.settings <==> exists k :: 0 <= k < |defs| && defs[k].id == id)
            && (forall c :: c in t.categoryStatus <==> exists id :: id in t.settings && t.settings[id].category == c)
            && (forall c :: c in t.categoryStatus ==> t.categoryStatus[c] == Idle)
            && t.version == s.version + 1
  {
    LastDefinitionWins(defs, i);
    forall id
      ensures id in FromDefinitions(defs) <==> exists k :: 0 <= k < |defs| && defs[k].id == id
    {
      OnlyDefinedRows(defs, id);
    }
  }

  // ---------------------------------------------------------------------
  // Every reachable store
  // ---------------------------------------------------------------------

  datatype Step =
    | Define(defs: seq<Definition>)
    | Detected(results: map<Id, Update>, done: seq<Category>)
    | SetCategory(category: Category, status: CategoryStatus)

  function Apply(s: Slice, step: Step): Slice {
    match step
    case Define(defs) => Initialize(s, defs)
    case Detected(results, done) => Finalize(s, results, done)
    case SetCategory(c, status) => s.(categoryStatus := s.categoryStatus[c := status])
  }

  function Reached(steps: seq<Step>): Slice {
    if steps == [] then EmptySlice else Apply(Reached(steps[..|steps| - 1]), steps[|steps| - 1])
  }

  /** A row is either still being read for the first time, or its status is
      what its verdict and value say; its scope is one of the three. */
  predicate Coherent(row: Setting) {
    && (row.status == Loading ==> row.currentValue == Null && !row.isOptimized)
    && (row.status != Loading ==> row.status == ComputeStatus(row.isOptimized, row.currentValue))
    && row.scope in SCOPES
  }

  ghost predicate AllCoherent(settings: map<Id, Setting>) {
    forall id :: id in settings ==> Coherent(settings[id])
  }

  lemma {:induction false} DefinedRowsCoherent(defs: seq<Definition>)
    ensures AllCoherent(FromDefinitions(defs))
  {
    if defs != [] {
      DefinedRowsCoherent(defs[..|defs| - 1]);
      var def := defs[|defs| - 1];
      assert SCOPES[1] == "recommended";
      assert Coherent(DefinitionToSetting(def));
    }
  }

  lemma {:induction false} ReachedRowsCoherent(steps: seq<Step>)
    ensures AllCoherent(Reached(steps).settings)
  {
    if steps != [] {
      ReachedRowsCoherent(steps[..|steps| - 1]);
      match steps[|steps| - 1] {
        case Define(defs) => DefinedRowsCoherent(defs);
        case Detected(results, done) =>
        case SetCategory(_, _) =>
      }
    }
  }

  /** The rows of a scope: any rows a reachable store holds. */
  ghost predicate RowsOf(steps: seq<Step>, rows: seq<Setting>) {
    forall r :: r in rows ==> exists id :: id in Reached(steps).settings && Reached(steps).settings[id] == r
  }

  // ---------------------------------------------------------------------
  // Counts and buttons
  // ---------------------------------------------------------------------

  function Select(rows: seq<Setting>, wanted: Setting -> bool): seq<Setting> {
    if rows == [] then []
    else Select(rows[..|rows| - 1], wanted) + (if wanted(rows[|rows| - 1]) then [rows[|rows| - 1]] else [])
  }

  predicate IsTweakSuboptimal(s: Setting) {
    s.isApplicable && !s.isAction && !s.isReadonly && s.currentValue != Null && s.status == Suboptimal
  }

  predicate CanReset(js: Numbers, s: Setting) {
    && s.isApplicable && !s.isAction && !s.isReadonly
    && s.currentValue != Null && s.currentValue != Undefined
    && s.defaultValue != Null && s.defaultValue != Undefined
    && !ValuesEqual(js, s.currentValue, s.defaultValue)
  }

  datatype Counts = Counts(total: nat, notOptimized: nat, reading: nat)

  predicate Writable(s: Setting) {
    s.isApplicable && !s.isAction && !s.isReadonly
  }

  predicate StillReading(s: Setting) {
    Writable(s) && s.status == Loading && s.currentValue == Null
  }

  /** Counted in a header as not optimized. */
  predicate NotOptimized(s: Setting) {
    Writable(s) && !StillReading(s) && !s.isOptimized
  }

  /** Read, but as nothing: null, or the word. */
  predicate ReadAsNothing(s: Setting) {
    s.currentValue == Null || (s.currentValue.Str? && Lower(s.currentValue.s) == "unknown")
  }

  method TweakCounts(rows: seq<Setting>) returns (counts: Counts)
    ensures counts.notOptimized == |Select(rows, NotOptimized)|
    ensures counts.reading == |Select(rows, StillReading)|
    ensures counts.total + counts.reading == |Select(rows, Writable)|
  {
    counts := Counts(0, 0, 0);
    for i := 0 to |rows|
      invariant counts.notOptimized == |Select(rows[..i], NotOptimized)|
      invariant counts.reading == |Select(rows[..i], StillReading)|
      invariant counts.total + counts.reading == |Select(rows[..i], Writable)|
    {
      var s := rows[i];
      assert rows[..i + 1][..i] == rows[..i];
      if s.isReadonly || s.isAction || !s.isApplicable {
        continue;
      }
      if s.status == Loading && s.currentValue == Null {
        counts := counts.(reading := counts.reading + 1);
        continue;
      }
      counts := counts.(total := counts.total + 1);
      if !s.isOptimized {
        counts := counts.(notOptimized := counts.notOptimized + 1);
      }
    }
    assert rows[..|rows|] == rows;
  }

  method ScopeTargets(js: Numbers, rows: seq<Setting>) returns (apply: seq<Setting>, reset: seq<Setting>)
    ensures apply == Select(rows, IsTweakSuboptimal)
    ensures reset == Select(rows, s => CanReset(js, s))
  {
    apply, reset := [], [];
    for i := 0 to |rows|
      invariant apply == Select(rows[..i], IsTweakSuboptimal)
      invariant reset == Select(rows[..i], s => CanReset(js, s))
    {
      var s := rows[i];
      assert rows[..i + 1][..i] == rows[..i];
      if !s.isApplicable || s.isAction || s.isReadonly || s.currentValue == Null {
        continue;
      }
      if IsTweakSuboptimal(s) {
        apply := apply + [s];
      }
      if CanReset(js, s) {
        reset := reset + [s];
      }
    }
    assert rows[..|rows|] == rows;
  }

  /** Which rows the header and the buttons mean, in the row's own fields. */
  lemma RowsMeant(s: Setting)
    ensures NotOptimized(s) <==> s.isApplicable && !s.isAction && !s.isReadonly && !s.isOptimized
                                 && (s.status != Loading || s.currentValue != Null)
    ensures StillReading(s) <==> s.isApplicable && !s.isAction && !s.isReadonly
                                 && s.status == Loading && s.currentValue == Null
    ensures Writable(s) <==> s.isApplicable && !s.isAction && !s.isReadonly
    ensures IsTweakSuboptimal(s) <==> s.isApplicable && !s.isAction && !s.isReadonly
                                      && s.status == Suboptimal && s.currentValue != Null
  {
  }

  datatype Level = Essential | Recommended | Complete

  function LevelScopes(level: Level): seq<string> {
    match level
    case Essential => ["essential"]
    case Recommended => ["essential", "recommended"]
    case Complete => ["essential", "recommended", "complete"]
  }

  predicate AtLevel(level: Level, s: Setting) {
    s.scope in LevelScopes(level)
  }

  function LevelTargets(rows: seq<Setting>, level: Level): seq<Setting> {
    Select(Select(rows, IsTweakSuboptimal), s => AtLevel(level, s))
  }

  /** What "apply <level>" writes: the suboptimal rows whose own scope is at or below it. */
  lemma LevelTargetsExactly(rows: seq<Setting>, s: Setting)
    ensures s in LevelTargets(rows, Essential) <==> s in rows && IsTweakSuboptimal(s) && s.scope == "essential"
    ensures s in LevelTargets(rows, Recommended)
            <==> s in rows && IsTweakSuboptimal(s) && (s.scope == "essential" || s.scope == "recommended")
    ensures s in LevelTargets(rows, Complete)
            <==> s in rows && IsTweakSuboptimal(s)
                 && (s.scope == "essential" || s.scope == "recommended" || s.scope == "complete")
  {
    LevelMembers(rows, s, Essential);
    LevelMembers(rows, s, Recommended);
    LevelMembers(rows, s, Complete);
  }

  lemma LevelMembers(rows: seq<Setting>, s: Setting, level: Level)
    ensures s in LevelTargets(rows, level) <==> s in rows && IsTweakSuboptimal(s) && s.scope in LevelScopes(level)
  {
    SelectTwice(rows, IsTweakSuboptimal, IsTweakSuboptimal);
    SelectTwice(Select(rows, IsTweakSuboptimal), r => AtLevel(level, r), IsTweakSuboptimal);
  }

  /** A reset is offered for a writable row that has a value and a default, neither null
      nor unknown to the store, and is not at that default; resetting it withdraws the offer. */
  lemma ResetExactly(js: Numbers, s: Setting)
    ensures CanReset(js, s)
            <==> s.isApplicable && !s.isAction && !s.isReadonly
                 && !(s.currentValue in {Null, Undefined}) && !(s.defaultValue in {Null, Undefined})
                 && !ValuesEqual(js, s.defaultValue, s.currentValue)
    ensures !CanReset(js, s.(currentValue := s.defaultValue))
  {
    EqualIsSymmetric(js, s.currentValue, s.defaultValue);
    EqualIsReflexiveExactly(js, s.defaultValue);
  }

  lemma {:induction false} SelectAgrees(rows: seq<Setting>, p: Setting -> bool, q: Setting -> bool)
    requires forall r :: r in rows ==> p(r) == q(r)
    ensures Select(rows, p) == Select(rows, q)
  {
    if rows != [] {
      SelectAgrees(rows[..|rows| - 1], p, q);
    }
  }

  function Both(p: Setting -> bool, q: Setting -> bool): Setting -> bool {
    r => p(r) && q(r)
  }

  function ButNot(p: Setting -> bool, q: Setting -> bool): Setting -> bool {
    r => p(r) && !q(r)
  }

  /** The places the selected rows come from: in order, every wanted row's and no other. */
  predicate SelectedFrom(rows: seq<Setting>, wanted: Setting -> bool, selected: seq<Setting>, at: seq<nat>) {
    && |at| == |selected| && (forall i, j :: 0 <= i < j < |at| ==> at[i] < at[j])
    && (forall i :: 0 <= i < |at| ==> at[i] < |rows| && selected[i] == rows[at[i]])
    && (forall k :: 0 <= k < |rows| ==> (k in at <==> wanted(rows[k])))
  }

  lemma {:induction false} SelectsInOrder(rows: seq<Setting>, wanted: Setting -> bool) returns (at: seq<nat>)
    ensures SelectedFrom(rows, wanted, Select(rows, wanted), at)
  {
    at := [];
    if rows != [] {
      var front, last := rows[..|rows| - 1], rows[|rows| - 1];
      at := SelectsInOrder(front, wanted);
      assert rows == front + [last];
      OneMoreRow(front, last, wanted, Select(front, wanted), at);
      if wanted(last) {
        at := at + [|front|];
      } else {
        assert Select(front, wanted) + [] == Select(front, wanted);
      }
    }
  }

  lemma OneMoreRow(front: seq<Setting>, last: Setting, wanted: Setting -> bool, selected: seq<Setting>, at: seq<nat>)
    requires SelectedFrom(front, wanted, selected, at)
    ensures wanted(last) ==> SelectedFrom(front + [last], wanted, selected + [last], at + [|front|])
    ensures !wanted(last) ==> SelectedFrom(front + [last], wanted, selected, at)
  {
    var rows := front + [last];
    assert forall k :: 0 <= k < |front| ==> rows[k] == front[k];
    var more: seq<nat> := at + [|front|];
    forall k | 0 <= k < |rows|
      ensures wanted(last) ==> (k in more <==> wanted(rows[k]))
    {
      assert k in more <==> k in at || k == |front|;
    }
  }

  lemma {:induction false} SelectTwice(rows: seq<Setting>, p: Setting -> bool, q: Setting -> bool)
    ensures Select(Select(rows, p), q) == Select(rows, Both(p, q))
    ensures forall r :: r in Select(rows, p) <==> r in rows && p(r)
  {
    if rows != [] {
      var front, last := rows[..|rows| - 1], rows[|rows| - 1];
      SelectTwice(front, p, q);
      assert rows == front + [last];
      if p(last) {
        var s := Select(rows, p);
        assert s == Select(front, p) + [last];
        assert s[..|s| - 1] == Select(front, p);
        assert Select(s, q) == Select(Select(front, p), q) + (if q(last) then [last] else []);
      } else {
        assert Select(rows, p) == Select(front, p);
      }
      assert Both(p, q)(last) == (p(last) && q(last));
    }
  }

  lemma {:induction false} SelectCounts(rows: seq<Setting>, p: Setting -> bool, q: Setting -> bool)
    ensures |Select(rows, p)| == |Select(rows, Both(p, q))| + |Select(rows, ButNot(p, q))|
  {
    if rows != [] {
      SelectCounts(rows[..|rows| - 1], p, q);
    }
  }

  lemma CoherentRowsAgree(r: Setting)
    requires Coherent(r)
    ensures IsTweakSuboptimal(r) <==> NotOptimized(r) && !ReadAsNothing(r)
  {
  }

  /** The header and the button agree in every reachable store: what "apply"
      would write is exactly the rows the header counts as not optimized, less
      those that were read as nothing. */
  lemma HeaderAndButtonAgree(steps: seq<Step>, rows: seq<Setting>)
    requires RowsOf(steps, rows)
    ensures Select(rows, IsTweakSuboptimal) == Select(rows, ButNot(NotOptimized, ReadAsNothing))
    ensures |Select(rows, NotOptimized)|
         == |Select(rows, IsTweakSuboptimal)| + |Select(rows, Both(NotOptimized, ReadAsNothing))|
  {
    ReachedRowsCoherent(steps);
    forall r | r in rows
      ensures IsTweakSuboptimal(r) == ButNot(NotOptimized, ReadAsNothing)(r)
    {
      var id :| id in Reached(steps).settings && Reached(steps).settings[id] == r;
      CoherentRowsAgree(r);
    }
    SelectAgrees(rows, IsTweakSuboptimal, ButNot(NotOptimized, ReadAsNothing));
    SelectCounts(rows, NotOptimized, ReadAsNothing);
  }

  /** The three levels nest, and the widest one is the whole apply list: no row
      of a reachable store has a scope outside the three. */
  lemma LevelsNest(steps: seq<Step>, rows: seq<Setting>)
    requires RowsOf(steps, rows)
    ensures LevelTargets(rows, Complete) == Select(rows, IsTweakSuboptimal)
    ensures LevelTargets(rows, Recommended)
         == Select(LevelTargets(rows, Complete), s => AtLevel(Recommended, s))
    ensures LevelTargets(rows, Essential)
         == Select(LevelTargets(rows, Recommended), s => AtLevel(Essential, s))
  {
    ReachedRowsCoherent(steps);
    var apply := Select(rows, IsTweakSuboptimal);
    var complete := s => AtLevel(Complete, s);
    var recommended := s => AtLevel(Recommended, s);
    var essential := s => AtLevel(Essential, s);
    SelectTwice(rows, IsTweakSuboptimal, complete);
    forall r | r in apply
      ensures complete(r)
    {
      var id :| id in Reached(steps).settings && Reached(steps).settings[id] == r;
    }
    SelectAll(apply, complete);
    SelectTwice(apply, recommended, essential);
    SelectAgrees(apply, Both(recommended, essential), essential);
  }

  lemma {:induction false} SelectAll(rows: seq<Setting>, p: Setting -> bool)
    requires forall r :: r in rows ==> p(r)
    ensures Select(rows, p) == rows
  {
    if rows != [] {
      var front := rows[..|rows| - 1];
      assert rows[|rows| - 1] in rows;
      SelectAll(front, p);
      assert rows == front + [rows[|rows| - 1]];
    }
  }

  // ---------------------------------------------------------------------
  // The values a bulk run sends
  // ---------------------------------------------------------------------

  function OrNull(v: Value): Value {
    if v == Undefined then Null else v
  }

  /** The value a bulk run sends for each id, and for no other: its default or its
      recommendation, `true` for an action that is run, and null where there is none
      or the id is unknown. */
  method BulkTargets(settings: map<Id, Setting>, ids: seq<Id>, reset: bool) returns (targets: map<Id, Value>)
    ensures targets.Keys == set id | id in ids
    ensures forall id | id in ids && id !in settings :: targets[id] == Null
    ensures forall id | id in ids && id in settings && reset ::
              targets[id] == if settings[id].defaultValue == Undefined then Null else settings[id].defaultValue
    ensures forall id | id in ids && id in settings && !reset && settings[id].isAction :: targets[id] == Bool(true)
    ensures forall id | id in ids && id in settings && !reset && !settings[id].isAction ::
              targets[id] == if settings[id].recommendedValue == Undefined then Null else settings[id].recommendedValue
  {
    targets := map[];
    for i := 0 to |ids|
      invariant targets.Keys == set id | id in ids[..i]
      invariant forall id | id in targets && id !in settings :: targets[id] == Null
      invariant forall id | id in targets && id in settings && reset ::
                  targets[id] == OrNull(settings[id].defaultValue)
      invariant forall id | id in targets && id in settings && !reset ::
                  targets[id] == if settings[id].isAction then Bool(true) else OrNull(settings[id].recommendedValue)
    {
      var id := ids[i];
      if id !in settings {
        targets := targets[id := Null];
      } else if reset {
        targets := targets[id := OrNull(settings[id].defaultValue)];
      } else {
        targets := targets[id := if settings[id].isAction then Bool(true) else OrNull(settings[id].recommendedValue)];
      }
      assert ids[..i + 1] == ids[..i] + [id];
    }
    assert ids[..|ids|] == ids;
  }
}
