/** Requests to detect settings, and their answers in whatever order they come:
    `DetectionManager`. A request is asked at one step and answered at a later
    one; anything can happen in between. */
module Detection {
  import opened Options
  import opened Text
  import opened Sorting
  import opened SettingsStore

  datatype Reply = Results(states: map<Id, SettingState>) | Failed

  const MAINTENANCE := "maintenance"

  // ---------------------------------------------------------------------
  // One detection reply in the store
  // ---------------------------------------------------------------------

  /** A category's reply lands: its results and its status, or its error. */
  function Arrive(s: Slice, c: Category, reply: Reply): Slice {
    match reply
    case Results(states) => Finalize(s, Updates(states), [c])
    case Failed => s.(categoryStatus := s.categoryStatus[c := ErrorCategory])
  }

  /** A re-detect's reply finishes no category; a failed one changes nothing. */
  function ArriveRedetect(s: Slice, reply: Reply): Slice {
    match reply
    case Results(states) => Finalize(s, Updates(states), [])
    case Failed => s
  }

  function ArriveAll(s: Slice, order: seq<Category>, replies: map<Category, Reply>): Slice
    requires forall c :: c in order ==> c in replies
  {
    if order == [] then s
    else
      assert forall c :: c in order[..|order| - 1] ==> c in order;
      Arrive(ArriveAll(s, order[..|order| - 1], replies), order[|order| - 1], replies[order[|order| - 1]])
  }

  /** Each reply names only settings of its own category. */
  ghost predicate OwnRows(s: Slice, replies: map<Category, Reply>) {
    forall c, id :: c in replies && replies[c].Results? && id in replies[c].states && id in s.settings ==>
                      s.settings[id].category == c
  }

  predicate Answered(replies: map<Category, Reply>, cs: set<Category>, c: Category) {
    c in cs && c in replies && replies[c].Results?
  }

  /** The same, with no order in it: every row by its own category's reply. */
  function Settled(s: Slice, cs: set<Category>, replies: map<Category, Reply>): Slice {
    Slice(
      map id | id in s.settings ::
        var c := s.settings[id].category;
        if Answered(replies, cs, c) && id in replies[c].states
        then Merge(s.settings[id], UpdateFromState(replies[c].states[id]))
        else s.settings[id],
      map c | c in s.categoryStatus.Keys + cs ::
        if c !in cs then s.categoryStatus[c]
        else if Answered(replies, cs, c) then DoneCategory else ErrorCategory,
      s.version + |set c | c in cs && Answered(replies, cs, c)|)
  }

  predicate Distinct<T(==)>(xs: seq<T>) {
    forall i, j :: 0 <= i < j < |xs| ==> xs[i] != xs[j]
  }

  function Elements(order: seq<Category>): set<Category> {
    set c | c in order
  }

  lemma {:induction false} ArrivalsSettle(s: Slice, order: seq<Category>, replies: map<Category, Reply>)
    requires forall c :: c in order ==> c in replies
    requires Distinct(order) && OwnRows(s, replies)
    ensures ArriveAll(s, order, replies) == Settled(s, Elements(order), replies)
  {
    if order == [] {
      NothingSettles(s, replies);
      assert Elements(order) == {};
    } else {
      var front, last := order[..|order| - 1], order[|order| - 1];
      assert forall c :: c in front ==> c in order;
      assert order == front + [last];
      ArrivalsSettle(s, front, replies);
      assert last !in front;
      assert Elements(order) == Elements(front) + {last};
      OneMoreSettles(s, Elements(front), last, replies);
    }
  }

  lemma NothingSettles(s: Slice, replies: map<Category, Reply>)
    ensures Settled(s, {}, replies) == s
  {
    assert Settled(s, {}, replies).settings == s.settings;
    assert Settled(s, {}, replies).categoryStatus == s.categoryStatus;
    assert (set c | c in {} && Answered(replies, {}, c)) == {};
  }

  lemma MarkOne(status: map<Category, CategoryStatus>, c: Category)
    ensures MarkDone(status, [c]) == status[c := DoneCategory]
  {
    assert [c][..0] == [];
  }

  lemma OneMoreAnswered(cs: set<Category>, c: Category, replies: map<Category, Reply>)
    requires c !in cs && c in replies
    ensures |set d | d in cs + {c} && Answered(replies, cs + {c}, d)|
         == |set d | d in cs && Answered(replies, cs, d)| + (if replies[c].Results? then 1 else 0)
  {
    var before := set d | d in cs && Answered(replies, cs, d);
    var after := set d | d in cs + {c} && Answered(replies, cs + {c}, d);
    assert after == if replies[c].Results? then before + {c} else before;
  }

  lemma OneMoreRow(s: Slice, cs: set<Category>, c: Category, replies: map<Category, Reply>, id: Id)
    requires c !in cs && c in replies && OwnRows(s, replies) && id in s.settings
    ensures Arrive(Settled(s, cs, replies), c, replies[c]).settings[id] == Settled(s, cs + {c}, replies).settings[id]
  {
    if replies[c].Results? && id in replies[c].states {
      assert s.settings[id].category == c;
    }
  }

  lemma OneMoreStatus(s: Slice, cs: set<Category>, c: Category, replies: map<Category, Reply>)
    requires c !in cs && c in replies
    ensures Arrive(Settled(s, cs, replies), c, replies[c]).categoryStatus
         == Settled(s, cs + {c}, replies).categoryStatus
  {
    var before, after := Settled(s, cs, replies).categoryStatus, Settled(s, cs + {c}, replies).categoryStatus;
    ArriveStatus(Settled(s, cs, replies), c, replies[c]);
    forall d | d in after
      ensures after[d] == if d != c then before[d] else if replies[c].Results? then DoneCategory else ErrorCategory
    {
    }
    assert after.Keys == before.Keys + {c};
  }

  lemma OneMoreSettles(s: Slice, cs: set<Category>, c: Category, replies: map<Category, Reply>)
    requires c !in cs && c in replies && OwnRows(s, replies)
    ensures Arrive(Settled(s, cs, replies), c, replies[c]) == Settled(s, cs + {c}, replies)
  {
    OneMoreStatus(s, cs, c, replies);
    OneMoreAnswered(cs, c, replies);
    forall id | id in s.settings
      ensures Arrive(Settled(s, cs, replies), c, replies[c]).settings[id] == Settled(s, cs + {c}, replies).settings[id]
    {
      OneMoreRow(s, cs, c, replies, id);
    }
    SameRows(Arrive(Settled(s, cs, replies), c, replies[c]), Settled(s, cs + {c}, replies));
  }

  lemma SameRows(a: Slice, b: Slice)
    requires a.settings.Keys == b.settings.Keys
    requires forall id :: id in a.settings ==> a.settings[id] == b.settings[id]
    requires a.categoryStatus == b.categoryStatus && a.version == b.version
    ensures a == b
  {
    assert a.settings == b.settings;
  }

  /** Detection is confluent: the categories' replies, arriving in any two
      orders, leave the same settings, the same statuses and the same version,
      and no asked category is left loading. */
  lemma DetectionIsConfluent(
      s: Slice, order1: seq<Category>, order2: seq<Category>, replies: map<Category, Reply>)
    requires Distinct(order1) && Distinct(order2) && multiset(order1) == multiset(order2)
    requires forall c :: c in order1 ==> c in replies
    requires forall c :: c in order2 ==> c in replies
    requires OwnRows(s, replies)
    ensures ArriveAll(s, order1, replies) == ArriveAll(s, order2, replies)
    ensures forall c | c in order1 ::
              && c in ArriveAll(s, order1, replies).categoryStatus
              && ArriveAll(s, order1, replies).categoryStatus[c] in {DoneCategory, ErrorCategory}
  {
    assert forall c :: c in order1 <==> c in multiset(order1);
    assert forall c :: c in order2 <==> c in multiset(order2);
    assert (set c | c in order1) == (set c | c in order2);
    ArrivalsSettle(s, order1, replies);
    ArrivalsSettle(s, order2, replies);
  }

  // ---------------------------------------------------------------------
  // The key of a re-detect request
  // ---------------------------------------------------------------------

  /** The order `Array.sort` puts texts in. */
  predicate TextLe(a: string, b: string) {
    a == "" || (b != "" && (a[0] < b[0] || (a[0] == b[0] && TextLe(a[1..], b[1..]))))
  }

  lemma {:induction false} TextLeAntisymmetric(a: string, b: string)
    ensures TextLe(a, b) || TextLe(b, a)
    ensures TextLe(a, b) && TextLe(b, a) ==> a == b
  {
    if a != "" && b != "" && a[0] == b[0] {
      TextLeAntisymmetric(a[1..], b[1..]);
      assert a == [a[0]] + a[1..] && b == [b[0]] + b[1..];
    }
  }

  lemma {:induction false} TextLeTransitive(a: string, b: string, c: string)
    requires TextLe(a, b) && TextLe(b, c)
    ensures TextLe(a, c)
  {
    if a != "" && a[0] == b[0] == c[0] {
      TextLeTransitive(a[1..], b[1..], c[1..]);
    }
  }

  lemma TextOrder()
    ensures TotalOrder(TextLe)
  {
    forall a, b
      ensures (TextLe(a, b) || TextLe(b, a)) && (TextLe(a, b) && TextLe(b, a) ==> a == b)
    {
      TextLeAntisymmetric(a, b);
    }
    forall a, b, c | TextLe(a, b) && TextLe(b, c)
      ensures TextLe(a, c)
    {
      TextLeTransitive(a, b, c);
    }
  }

  function Key(ids: seq<Id>): string {
    Join(",", Sort(TextLe, ids))
  }

  ghost predicate CommaFree(ids: seq<Id>) {
    forall id :: id in ids ==> ',' !in id
  }

  /** Two non-empty lists of comma-free ids share a key exactly when they are
      permutations of each other. */
  lemma KeyIsCanonical(a: seq<Id>, b: seq<Id>)
    requires a != [] && b != [] && CommaFree(a) && CommaFree(b)
    ensures Key(a) == Key(b) <==> multiset(a) == multiset(b)
  {
    TextOrder();
    SortCanonical(TextLe, a, b);
    SortedParts(a);
    SortedParts(b);
  }

  lemma SortedParts(ids: seq<Id>)
    requires ids != [] && CommaFree(ids)
    ensures Split(',', Key(ids)) == Sort(TextLe, ids)
  {
    TextOrder();
    SortOrdered(TextLe, ids);
    var sorted := Sort(TextLe, ids);
    forall p | p in sorted
      ensures ',' !in p
    {
      assert p in multiset(sorted) && p in multiset(ids);
    }
    JoinThenSplit(',', sorted);
  }

  /** The ids cut at their commas, in order. */
  function Pieces(ids: seq<Id>): seq<string> {
    if ids == [] then [] else Split(',', ids[0]) + Pieces(ids[1..])
  }

  lemma {:induction false} SplitOfJoin(ids: seq<Id>)
    requires ids != []
    ensures Split(',', Join(",", ids)) == Pieces(ids)
  {
    if |ids| == 1 {
      assert Pieces(ids) == Split(',', ids[0]) + [];
    } else {
      SplitOfJoin(ids[1..]);
      SplitAcross(',', ids[0], Join(",", ids[1..]));
    }
  }

  /** Any two non-empty lists share a key exactly when, sorted, they are cut by
      their commas into the same pieces. */
  lemma KeyIsPieces(a: seq<Id>, b: seq<Id>)
    requires a != [] && b != []
    ensures Key(a) == Key(b) <==> Pieces(Sort(TextLe, a)) == Pieces(Sort(TextLe, b))
  {
    SortIsThere(a);
    SortIsThere(b);
    SplitOfJoin(Sort(TextLe, a));
    SplitOfJoin(Sort(TextLe, b));
    SplitThenJoin(',', Key(a));
    SplitThenJoin(',', Key(b));
  }

  lemma SortIsThere(ids: seq<Id>)
    requires ids != []
    ensures Sort(TextLe, ids) != []
  {
    TextOrder();
    SortOrdered(TextLe, ids);
    assert |multiset(ids)| == |multiset(Sort(TextLe, ids))|;
  }

  /** With a comma in an id, two different requests share a key. */
  lemma CommaBreaksTheKey()
    ensures Key(["a,b"]) == Key(["a", "b"])
  {
    assert ["a", "b"][1..] == ["b"] && ["b"][1..] == [];
    assert Sort(TextLe, ["b"]) == ["b"];
    assert TextLe("a", "b");
    assert Sort(TextLe, ["a", "b"]) == ["a"] + ["b"];
    assert (["a"] + ["b"])[1..] == ["b"];
    assert Join(",", ["a"] + ["b"]) == "a" + "," + "b";
    assert Sort(TextLe, ["a,b"]) == ["a,b"];
  }

  // ---------------------------------------------------------------------
  // The manager
  // ---------------------------------------------------------------------

  /** `pendingAll` and `pendingOne` are the category requests still unanswered,
      from a whole pass and from single calls; `requests` the re-detects. */
  datatype State = State(
    store: Slice,
    detecting: set<Category>,
    allRunning: bool,
    allDone: bool,
    pendingAll: set<Category>,
    pendingOne: multiset<Category>,
    inflight: map<string, seq<Id>>,
    requests: multiset<string>)

  datatype Step =
    | DetectAll
    | AllReply(category: Category, reply: Reply)
    | AllSettled
    | DetectCategory(category: Category)
    | OneReply(category: Category, reply: Reply)
    | Redetect(ids: seq<Id>)
    | RedetectReply(key: string, reply: Reply)
    | StopAll

  predicate Enabled(m: State, s: Step) {
    match s
    case AllReply(c, _) => c in m.pendingAll
    case AllSettled => m.allRunning && m.pendingAll == {}
    case OneReply(c, _) => c in m.pendingOne
    case RedetectReply(key, _) => key in m.requests
    case _ => true
  }

  predicate AllCategoriesDone(s: Slice) {
    forall c :: c in s.categoryStatus ==> s.categoryStatus[c] == DoneCategory
  }

  /** Maintenance has nothing to detect; every other category starts loading. */
  function MarkAllLoading(s: Slice): Slice {
    s.(categoryStatus := map c | c in s.categoryStatus ::
         StartingStatus(s.categoryStatus[c], false, c))
  }

  function StartingStatus(before: CategoryStatus, untouched: bool, c: Category): CategoryStatus {
    if untouched then before else if c == MAINTENANCE then DoneCategory else LoadingCategory
  }

  function ApplyStep(m: State, s: Step): State
    requires Enabled(m, s)
  {
    match s
    case DetectAll =>
      if m.allDone || m.allRunning then m
      else if AllCategoriesDone(m.store) then m.(allDone := true)
      else
        var asked := m.store.categoryStatus.Keys - {MAINTENANCE};
        m.(store := MarkAllLoading(m.store), allRunning := true, pendingAll := asked,
           detecting := m.detecting + asked)
    case AllReply(c, reply) =>
      m.(store := Arrive(m.store, c, reply), pendingAll := m.pendingAll - {c}, detecting := m.detecting - {c})
    case AllSettled => m.(allDone := true, allRunning := false, detecting := {})
    case DetectCategory(c) =>
      var known := c in m.store.categoryStatus;
      if known && m.store.categoryStatus[c] == DoneCategory then m
      else if c in m.detecting || (known && m.store.categoryStatus[c] == LoadingCategory) then m
      else if c == MAINTENANCE then
        m.(store := m.store.(categoryStatus := m.store.categoryStatus[c := DoneCategory]))
      else
        m.(store := m.store.(categoryStatus := m.store.categoryStatus[c := LoadingCategory]),
           detecting := m.detecting + {c}, pendingOne := m.pendingOne + multiset{c})
    case OneReply(c, reply) =>
      m.(store := Arrive(m.store, c, reply), pendingOne := m.pendingOne - multiset{c},
         detecting := m.detecting - {c})
    case Redetect(ids) =>
      if ids == [] || Key(ids) in m.inflight then m
      else m.(inflight := m.inflight[Key(ids) := ids], requests := m.requests + multiset{Key(ids)})
    case RedetectReply(key, reply) =>
      m.(store := ArriveRedetect(m.store, reply),
         inflight := m.inflight - {key}, requests := m.requests - multiset{key})
    case StopAll => m.(detecting := {})
  }

  class DetectionManager {
    const store: SettingsSlice
    var detectingCategories: set<Category>
    var allDetectionRunning: bool
    var allDetectionDone: bool
    var inflightRedetects: map<string, seq<Id>>
    ghost var pendingAll: set<Category>
    ghost var pendingOne: multiset<Category>
    ghost var requests: multiset<string>

    ghost function View(): State
      reads this, store
    {
      State(store.View(), detectingCategories, allDetectionRunning, allDetectionDone,
            pendingAll, pendingOne, inflightRedetects, requests)
    }

    constructor (store: SettingsSlice)
      ensures this.store == store
      ensures View() == State(store.View(), {}, false, false, {}, multiset{}, map[], multiset{})
    {
      this.store := store;
      detectingCategories, allDetectionRunning, allDetectionDone := {}, false, false;
      inflightRedetects := map[];
      pendingAll, pendingOne, requests := {}, multiset{}, multiset{};
    }

    /** Returns the categories a request goes out for. */
    method StartAll() returns (asked: set<Category>)
      requires !allDetectionRunning ==> pendingAll == {}
      modifies this, store
      ensures View() == ApplyStep(old(View()), DetectAll)
      ensures asked == pendingAll - old(pendingAll)
    {
      asked := {};
      if allDetectionDone || allDetectionRunning {
        return;
      }
      var categories := store.categoryDetectionStatus.Keys;
      if forall c :: c in categories ==> store.categoryDetectionStatus[c] == DoneCategory {
        allDetectionDone := true;
        return;
      }
      asked := MarkLoading();
      allDetectionRunning := true;
      pendingAll := asked;
    }

    method MarkLoading() returns (asked: set<Category>)
      modifies this`detectingCategories, store
      ensures store.View() == MarkAllLoading(old(store.View()))
      ensures asked == old(store.categoryDetectionStatus).Keys - {MAINTENANCE}
      ensures detectingCategories == old(detectingCategories) + asked
    {
      var categories := store.categoryDetectionStatus.Keys;
      var left := categories;
      ghost var was := store.categoryDetectionStatus;
      asked := {};
      while left != {}
        invariant left <= categories == was.Keys == store.categoryDetectionStatus.Keys
        invariant store.View() == old(store.View()).(categoryStatus := store.categoryDetectionStatus)
        invariant forall c :: c in categories ==>
                    store.categoryDetectionStatus[c] == StartingStatus(was[c], c in left, c)
        invariant asked == categories - left - {MAINTENANCE}
        invariant detectingCategories == old(detectingCategories) + asked
        decreases left
      {
        var c :| c in left;
        if c == MAINTENANCE {
          store.SetSettingsCategoryStatus(c, DoneCategory);
        } else {
          store.SetSettingsCategoryStatus(c, LoadingCategory);
          detectingCategories := detectingCategories + {c};
          asked := asked + {c};
        }
        left := left - {c};
      }
    }

    /** What both kinds of category request do with their answer. */
    method Land(c: Category, reply: Reply)
      modifies this`detectingCategories, store
      ensures store.View() == Arrive(old(store.View()), c, reply)
      ensures detectingCategories == old(detectingCategories) - {c}
    {
      match reply {
        case Results(states) => store.ApplySettingStates(states, [c]);
        case Failed => store.SetSettingsCategoryStatus(c, ErrorCategory);
      }
      detectingCategories := detectingCategories - {c};
    }

    method AllReplied(c: Category, reply: Reply)
      requires c in pendingAll
      modifies this, store
      ensures View() == ApplyStep(old(View()), AllReply(c, reply))
    {
      Land(c, reply);
      pendingAll := pendingAll - {c};
    }

    method AllFinished()
      requires allDetectionRunning && pendingAll == {}
      modifies this
      ensures View() == ApplyStep(old(View()), AllSettled)
    {
      allDetectionDone := true;
      detectingCategories := {};
      allDetectionRunning := false;
    }

    method StartCategory(c: Category) returns (asked: bool)
      modifies this, store
      ensures View() == ApplyStep(old(View()), DetectCategory(c))
      ensures asked <==> pendingOne != old(pendingOne)
    {
      var status := store.categoryDetectionStatus;
      asked := false;
      if c in status && status[c] == DoneCategory {
        return;
      }
      if c in detectingCategories || (c in status && status[c] == LoadingCategory) {
        return;
      }
      if c == MAINTENANCE {
        store.SetSettingsCategoryStatus(c, DoneCategory);
        return;
      }
      store.SetSettingsCategoryStatus(c, LoadingCategory);
      detectingCategories := detectingCategories + {c};
      assert (pendingOne + multiset{c})[c] == pendingOne[c] + 1;
      pendingOne := pendingOne + multiset{c};
      asked := true;
    }

    method CategoryReplied(c: Category, reply: Reply)
      requires c in pendingOne
      modifies this, store
      ensures View() == ApplyStep(old(View()), OneReply(c, reply))
    {
      Land(c, reply);
      pendingOne := pendingOne - multiset{c};
    }

    /** Joins the request in flight for the same ids, if there is one. */
    method RedetectSettings(ids: seq<Id>) returns (asked: bool)
      modifies this
      ensures View() == ApplyStep(old(View()), Redetect(ids))
      ensures asked <==> ids != [] && Key(ids) !in old(inflightRedetects)
    {
      asked := false;
      if ids == [] {
        return;
      }
      var key := Key(ids);
      if key in inflightRedetects {
        return;
      }
      inflightRedetects := inflightRedetects[key := ids];
      requests := requests + multiset{key};
      asked := true;
    }

    method LandRedetect(reply: Reply)
      modifies store
      ensures store.View() == ArriveRedetect(old(store.View()), reply)
      ensures reply.Results? ==> Lands(old(store.View()), store.View(), reply.states, [])
      ensures reply.Failed? ==> store.View() == old(store.View())
    {
      match reply {
        case Results(states) => store.ApplySettingStates(states, []);
        case Failed =>
      }
    }

    method RedetectReplied(key: string, reply: Reply)
      requires key in requests
      modifies this, store
      ensures View() == ApplyStep(old(View()), RedetectReply(key, reply))
      ensures reply.Results? ==> Lands(old(store.View()), store.View(), reply.states, [])
      ensures reply.Failed? ==> store.View() == old(store.View())
    {
      LandRedetect(reply);
      inflightRedetects := inflightRedetects - {key};
      requests := requests - multiset{key};
    }

    method Stop()
      modifies this`detectingCategories
      ensures View() == ApplyStep(old(View()), StopAll)
    {
      detectingCategories := {};
    }
  }

  // ---------------------------------------------------------------------
  // Every interleaving
  // ---------------------------------------------------------------------

  predicate Runs(m: State, steps: seq<Step>)
    decreases |steps|
  {
    steps == [] || (Enabled(m, steps[0]) && Runs(ApplyStep(m, steps[0]), steps[1..]))
  }

  function After(m: State, steps: seq<Step>): State
    requires Runs(m, steps)
    decreases |steps|
  {
    if steps == [] then m else After(ApplyStep(m, steps[0]), steps[1..])
  }

  ghost predicate LoadingIsPending(m: State) {
    && (forall c :: c in m.store.categoryStatus && m.store.categoryStatus[c] == LoadingCategory ==>
                      c in m.pendingAll || c in m.pendingOne)
    && (m.pendingAll != {} ==> m.allRunning)
  }

  /** Every unanswered re-detect is in flight under its own key, once. */
  ghost predicate Tracked(inflight: map<string, seq<Id>>, requests: multiset<string>) {
    && (forall key :: requests[key] == if key in inflight then 1 else 0)
    && (forall key :: key in inflight ==> inflight[key] != [] && key == Key(inflight[key]))
  }

  ghost predicate Consistent(m: State) {
    LoadingIsPending(m) && Tracked(m.inflight, m.requests)
  }

  lemma ArriveStatus(s: Slice, c: Category, reply: Reply)
    ensures Arrive(s, c, reply).categoryStatus
         == s.categoryStatus[c := if reply.Results? then DoneCategory else ErrorCategory]
  {
    MarkOne(s.categoryStatus, c);
  }

  lemma PendingReply(m: State, s: Step)
    requires LoadingIsPending(m) && Enabled(m, s) && (s.AllReply? || s.OneReply?)
    ensures LoadingIsPending(ApplyStep(m, s))
  {
    ArriveStatus(m.store, s.category, s.reply);
  }

  lemma PendingRedetect(m: State, s: Step)
    requires LoadingIsPending(m) && Enabled(m, s) && (s.Redetect? || s.RedetectReply?)
    ensures LoadingIsPending(ApplyStep(m, s))
  {
  }

  lemma PendingStep(m: State, s: Step)
    requires LoadingIsPending(m) && Enabled(m, s)
    ensures LoadingIsPending(ApplyStep(m, s))
  {
    match s {
      case AllReply(_, _) => PendingReply(m, s);
      case OneReply(_, _) => PendingReply(m, s);
      case Redetect(_) => PendingRedetect(m, s);
      case RedetectReply(_, _) => PendingRedetect(m, s);
      case _ =>
    }
  }

  lemma TrackedAdd(inflight: map<string, seq<Id>>, requests: multiset<string>, key: string, ids: seq<Id>)
    requires Tracked(inflight, requests) && key !in inflight && ids != [] && key == Key(ids)
    ensures Tracked(inflight[key := ids], requests + multiset{key})
  {
  }

  lemma TrackedRemove(inflight: map<string, seq<Id>>, requests: multiset<string>, key: string)
    requires Tracked(inflight, requests) && key in requests
    ensures Tracked(inflight - {key}, requests - multiset{key})
  {
    assert requests[key] == 1;
  }

  lemma TrackedStep(m: State, s: Step)
    requires Tracked(m.inflight, m.requests) && Enabled(m, s)
    ensures Tracked(ApplyStep(m, s).inflight, ApplyStep(m, s).requests)
  {
    match s {
      case Redetect(ids) =>
        if ids != [] && Key(ids) !in m.inflight {
          TrackedAdd(m.inflight, m.requests, Key(ids), ids);
        }
      case RedetectReply(key, reply) => TrackedRemove(m.inflight, m.requests, key);
      case _ =>
    }
  }

  lemma ConsistentStep(m: State, s: Step)
    requires Consistent(m) && Enabled(m, s)
    ensures Consistent(ApplyStep(m, s))
  {
    PendingStep(m, s);
    TrackedStep(m, s);
  }

  lemma {:induction false} ConsistentFrom(m: State, steps: seq<Step>)
    requires Consistent(m) && Runs(m, steps)
    ensures Consistent(After(m, steps))
    decreases |steps|
  {
    if steps != [] {
      ConsistentStep(m, steps[0]);
      ConsistentFrom(ApplyStep(m, steps[0]), steps[1..]);
    }
  }

  /** A manager over a store with nothing loading, and nothing asked yet. */
  ghost predicate Idling(m: State) {
    && m == State(m.store, {}, false, false, {}, multiset{}, map[], multiset{})
    && forall c :: c in m.store.categoryStatus ==> m.store.categoryStatus[c] != LoadingCategory
  }

  /** Whatever whole passes, single calls, re-detects and stops interleave: once
      every category request has been answered, no category is left loading. */
  lemma NothingLeftLoading(m: State, steps: seq<Step>)
    requires Idling(m) && Runs(m, steps)
    requires After(m, steps).pendingAll == {} && After(m, steps).pendingOne == multiset{}
    ensures forall c :: c in After(m, steps).store.categoryStatus ==>
                          After(m, steps).store.categoryStatus[c] != LoadingCategory
  {
    ConsistentFrom(m, steps);
  }

  // ---- what each call and each answer does ---------------------------------

  /** A re-detect's answer shows in its rows and nowhere else, finishes no category and
      frees its key; a failed one only frees the key. */
  lemma RedetectLands(m: State, key: string, reply: Reply)
    requires Enabled(m, RedetectReply(key, reply))
    ensures var next := ApplyStep(m, RedetectReply(key, reply));
            && (reply.Results? ==> Lands(m.store, next.store, reply.states, []))
            && (reply.Failed? ==> next.store == m.store)
            && next.store.categoryStatus == m.store.categoryStatus
            && next.inflight == m.inflight - {key} && next.requests == m.requests - multiset{key}
            && (next.detecting, next.allRunning, next.allDone, next.pendingAll, next.pendingOne)
               == (m.detecting, m.allRunning, m.allDone, m.pendingAll, m.pendingOne)
  {
    if reply.Results? {
      StatesLand(m.store, reply.states, []);
    }
  }

  /** A category's answer shows in its rows and finishes that category; a failed one
      puts that category in error and changes no row. Either way it may be asked again. */
  lemma CategoryReplyLands(m: State, s: Step)
    requires Enabled(m, s) && (s.AllReply? || s.OneReply?)
    ensures var next := ApplyStep(m, s);
            && (s.reply.Results? ==> Lands(m.store, next.store, s.reply.states, [s.category]))
            && (s.reply.Failed? ==>
                  next.store == m.store.(categoryStatus := m.store.categoryStatus[s.category := ErrorCategory]))
            && next.detecting == m.detecting - {s.category}
            && (s.AllReply? ==> next.pendingAll == m.pendingAll - {s.category} && next.pendingOne == m.pendingOne)
            && (s.OneReply? ==>
                  next.pendingOne == m.pendingOne - multiset{s.category} && next.pendingAll == m.pendingAll)
  {
    if s.reply.Results? {
      StatesLand(m.store, s.reply.states, [s.category]);
    }
  }

  /** A single call asks for a category exactly when it is neither done nor being read
      and has something to detect; maintenance is done at once. */
  lemma SingleCallExactly(m: State, c: Category)
    ensures var next := ApplyStep(m, DetectCategory(c));
            var status := m.store.categoryStatus;
            var idle := c !in m.detecting && (c in status ==> status[c] != DoneCategory && status[c] != LoadingCategory);
            if idle && c != "maintenance" then
              next == m.(store := m.store.(categoryStatus := status[c := LoadingCategory]),
                         detecting := m.detecting + {c}, pendingOne := m.pendingOne + multiset{c})
            else if idle then next == m.(store := m.store.(categoryStatus := status[c := DoneCategory]))
            else next == m
  {
  }

  /** A category whose single call failed is asked again by the next one. */
  lemma FailedCallCanBeRetried(m: State, c: Category)
    requires c in m.pendingOne && c != "maintenance"
    ensures var failed := ApplyStep(m, OneReply(c, Failed));
            ApplyStep(failed, DetectCategory(c)).pendingOne == m.pendingOne
  {
    var failed := ApplyStep(m, OneReply(c, Failed));
    SingleCallExactly(failed, c);
    assert m.pendingOne - multiset{c} + multiset{c} == m.pendingOne;
  }

  /** A pass that begins asks for every category but maintenance, which is done at once,
      and shows them all as being read. */
  lemma PassBeginsExactly(m: State)
    ensures var next := ApplyStep(m, DetectAll);
            var status := m.store.categoryStatus;
            if m.allDone || m.allRunning then next == m
            else if forall c :: c in status ==> status[c] == DoneCategory then next == m.(allDone := true)
            else
              && next.allRunning && !next.allDone && next.pendingAll == status.Keys - {"maintenance"}
              && next.detecting == m.detecting + next.pendingAll
              && next.store.settings == m.store.settings && next.store.version == m.store.version
              && next.store.categoryStatus.Keys == status.Keys
              && (forall c :: c in status ==>
                    next.store.categoryStatus[c] == if c == "maintenance" then DoneCategory else LoadingCategory)
              && (next.pendingOne, next.inflight, next.requests) == (m.pendingOne, m.inflight, m.requests)
  {
  }

  /** Stopping forgets which categories are being read and nothing else. */
  lemma StopForgets(m: State)
    ensures ApplyStep(m, StopAll) == m.(detecting := {})
  {
  }

  // ---- what a pass leaves ------------------------------------------------

  lemma {:induction false} RunsSnoc(m: State, steps: seq<Step>)
    requires steps != [] && Runs(m, steps)
    ensures var front := steps[..|steps| - 1];
            && Runs(m, front)
            && Enabled(After(m, front), steps[|steps| - 1])
            && After(m, steps) == ApplyStep(After(m, front), steps[|steps| - 1])
    decreases |steps|
  {
    if |steps| > 1 {
      RunsSnoc(ApplyStep(m, steps[0]), steps[1..]);
      assert steps[1..][..|steps| - 2] == steps[..|steps| - 1][1..];
    }
  }

  /** The last answer a category got, from a pass or from a single call. */
  function LastReply(steps: seq<Step>, c: Category): Option<Reply> {
    if steps == [] then None
    else match steps[|steps| - 1]
      case AllReply(d, reply) => if d == c then Some(reply) else LastReply(steps[..|steps| - 1], c)
      case OneReply(d, reply) => if d == c then Some(reply) else LastReply(steps[..|steps| - 1], c)
      case _ => LastReply(steps[..|steps| - 1], c)
  }

  function Landed(reply: Reply): CategoryStatus {
    if reply.Results? then DoneCategory else ErrorCategory
  }

  predicate PassEnded(steps: seq<Step>) {
    AllSettled in steps
  }

  ghost predicate Unanswered(m: State, c: Category) {
    c in m.pendingAll || c in m.pendingOne
  }

  /** A category that was answered shows its last answer or is being asked again. */
  ghost predicate ShowsLastReply(m: State, steps: seq<Step>, c: Category) {
    LastReply(steps, c).Some? ==>
      && c in m.store.categoryStatus
      && m.store.categoryStatus[c] in {LoadingCategory, Landed(LastReply(steps, c).value)}
  }

  /** Since a pass began, every category was answered or still is to be. */
  ghost predicate Reached(m: State, steps: seq<Step>, c: Category) {
    c in m.store.categoryStatus ==>
      if c == MAINTENANCE then m.store.categoryStatus[c] == DoneCategory
      else Unanswered(m, c) || LastReply(steps, c).Some?
  }

  ghost predicate Recorded(m: State, steps: seq<Step>) {
    && !Unanswered(m, MAINTENANCE) && LastReply(steps, MAINTENANCE) == None && MAINTENANCE !in m.detecting
    && (forall c :: ShowsLastReply(m, steps, c))
    && (m.allRunning || PassEnded(steps) ==> forall c :: Reached(m, steps, c))
    && (PassEnded(steps) ==> m.allDone)
  }

  lemma ReplyRecorded(m: State, steps: seq<Step>, s: Step)
    requires Recorded(m, steps) && Enabled(m, s) && (s.AllReply? || s.OneReply?)
    ensures Recorded(ApplyStep(m, s), steps + [s])
  {
    var next := ApplyStep(m, s);
    assert (steps + [s])[..|steps|] == steps;
    ArriveStatus(m.store, s.category, s.reply);
    assert s.category != MAINTENANCE;
    forall c
      ensures ShowsLastReply(next, steps + [s], c)
      ensures Reached(m, steps, c) ==> Reached(next, steps + [s], c)
    {
      assert ShowsLastReply(m, steps, c);
    }
  }

  lemma SilentRecorded(m: State, steps: seq<Step>, s: Step)
    requires Recorded(m, steps) && Enabled(m, s) && !s.AllReply? && !s.OneReply?
    ensures Recorded(ApplyStep(m, s), steps + [s])
  {
    var next := ApplyStep(m, s);
    assert (steps + [s])[..|steps|] == steps;
    forall c
      ensures ShowsLastReply(next, steps + [s], c)
      ensures next.allRunning || PassEnded(steps + [s]) ==> Reached(next, steps + [s], c)
    {
      assert ShowsLastReply(m, steps, c);
      assert LastReply(steps + [s], c) == LastReply(steps, c);
      if m.allRunning || PassEnded(steps) {
        assert Reached(m, steps, c);
      }
    }
  }

  lemma {:induction false} RunsAreRecorded(m: State, steps: seq<Step>)
    requires Idling(m) && Runs(m, steps)
    ensures Recorded(After(m, steps), steps)
    decreases |steps|
  {
    if steps != [] {
      var front, last := steps[..|steps| - 1], steps[|steps| - 1];
      RunsSnoc(m, steps);
      RunsAreRecorded(m, front);
      assert steps == front + [last];
      if last.AllReply? || last.OneReply? {
        ReplyRecorded(After(m, front), front, last);
      } else {
        SilentRecorded(After(m, front), front, last);
      }
    }
  }

  /** Once a whole pass has ended, `detectAll` asks for nothing again, whatever the
      pass brought and whatever happened since. */
  lemma PassIsNeverRepeated(m: State, steps: seq<Step>)
    requires Idling(m) && Runs(m, steps) && PassEnded(steps)
    ensures ApplyStep(After(m, steps), DetectAll) == After(m, steps)
  {
    RunsAreRecorded(m, steps);
  }

  // ---- a whole pass, in any order of its answers ---------------------------

  function Answering(order: seq<Category>, replies: map<Category, Reply>): seq<Step>
    requires forall c :: c in order ==> c in replies
  {
    seq(|order|, i requires 0 <= i < |order| => AllReply(order[i], replies[order[i]]))
  }

  lemma {:induction false} RunsThen(m: State, steps: seq<Step>, s: Step)
    requires Runs(m, steps) && Enabled(After(m, steps), s)
    ensures Runs(m, steps + [s]) && After(m, steps + [s]) == ApplyStep(After(m, steps), s)
    decreases |steps|
  {
    if steps == [] {
      assert steps + [s] == [s] && [s][1..] == [];
    } else {
      assert (steps + [s])[1..] == steps[1..] + [s];
      RunsThen(ApplyStep(m, steps[0]), steps[1..], s);
    }
  }

  /** The state after some of a pass's answers. */
  function AfterAnswers(m: State, order: seq<Category>, replies: map<Category, Reply>): State
    requires forall c :: c in order ==> c in replies
  {
    m.(store := ArriveAll(m.store, order, replies), pendingAll := m.pendingAll - Elements(order),
       detecting := m.detecting - Elements(order))
  }

  lemma OneMoreAnswer(m: State, front: seq<Category>, last: Category, replies: map<Category, Reply>)
    requires forall c :: c in front + [last] ==> c in replies && c in m.pendingAll
    requires last !in front
    ensures forall c :: c in front ==> c in replies
    ensures Enabled(AfterAnswers(m, front, replies), AllReply(last, replies[last]))
    ensures ApplyStep(AfterAnswers(m, front, replies), AllReply(last, replies[last]))
         == AfterAnswers(m, front + [last], replies)
  {
    var order := front + [last];
    assert order[..|order| - 1] == front && order[|order| - 1] == last && last in order;
    assert forall c :: c in front ==> c in order;
    assert Elements(order) == Elements(front) + {last};
    assert m.pendingAll - Elements(order) == m.pendingAll - Elements(front) - {last};
    assert m.detecting - Elements(order) == m.detecting - Elements(front) - {last};
  }

  /** The answers of a pass, one after the other. */
  lemma {:induction false} AnswersRun(m: State, order: seq<Category>, replies: map<Category, Reply>)
    requires forall c :: c in order ==> c in replies && c in m.pendingAll
    requires Distinct(order)
    ensures Runs(m, Answering(order, replies))
    ensures After(m, Answering(order, replies)) == AfterAnswers(m, order, replies)
  {
    if order == [] {
      assert Answering(order, replies) == [] && Elements(order) == {};
    } else {
      var front, last := order[..|order| - 1], order[|order| - 1];
      assert order == front + [last] && forall c :: c in front ==> c in order;
      AnswersRun(m, front, replies);
      AnswersThen(m, front, last, replies);
    }
  }

  lemma AnswersThen(m: State, front: seq<Category>, last: Category, replies: map<Category, Reply>)
    requires forall c :: c in front + [last] ==> c in replies && c in m.pendingAll
    requires last !in front
    requires forall c :: c in front ==> c in replies
    requires Runs(m, Answering(front, replies))
    requires After(m, Answering(front, replies)) == AfterAnswers(m, front, replies)
    ensures Runs(m, Answering(front + [last], replies))
    ensures After(m, Answering(front + [last], replies)) == AfterAnswers(m, front + [last], replies)
  {
    var s := AllReply(last, replies[last]);
    OneMoreAnswer(m, front, last, replies);
    RunsThen(m, Answering(front, replies), s);
    assert Answering(front + [last], replies) == Answering(front, replies) + [s];
  }

  /** The steps of a whole pass that no other call interrupts. */
  function Pass(order: seq<Category>, replies: map<Category, Reply>): seq<Step>
    requires forall c :: c in order ==> c in replies
  {
    [DetectAll] + Answering(order, replies) + [AllSettled]
  }

  /** The categories a pass asks for. */
  function Asked(m: State): set<Category> {
    m.store.categoryStatus.Keys - {MAINTENANCE}
  }

  predicate PassBegins(m: State) {
    !m.allDone && !m.allRunning && !AllCategoriesDone(m.store)
  }

  lemma PassRuns(m: State, order: seq<Category>, replies: map<Category, Reply>)
    requires PassBegins(m) && Distinct(order) && Elements(order) == Asked(m)
    requires forall c :: c in order ==> c in replies
    ensures Runs(m, Pass(order, replies))
    ensures After(m, Pass(order, replies))
         == m.(store := ArriveAll(MarkAllLoading(m.store), order, replies), pendingAll := {}, detecting := {},
               allDone := true, allRunning := false)
  {
    var begun := ApplyStep(m, DetectAll);
    assert forall c :: c in order ==> c in Elements(order);
    AnswersRun(begun, order, replies);
    assert begun.pendingAll - Elements(order) == {};
    RunsThen(begun, Answering(order, replies), AllSettled);
    var steps := Pass(order, replies);
    assert steps[1..] == Answering(order, replies) + [AllSettled];
  }

  /** Two whole passes that get the same answers in different orders run to the same
      state of the manager and of the store. */
  lemma PassIsConfluent(
      m: State, order1: seq<Category>, order2: seq<Category>, replies: map<Category, Reply>)
    requires PassBegins(m) && OwnRows(m.store, replies)
    requires Distinct(order1) && Elements(order1) == Asked(m)
    requires Distinct(order2) && Elements(order2) == Asked(m)
    requires forall c :: c in Asked(m) ==> c in replies
    ensures (forall c :: c in order1 ==> c in replies) && (forall c :: c in order2 ==> c in replies)
    ensures Runs(m, Pass(order1, replies)) && Runs(m, Pass(order2, replies))
    ensures After(m, Pass(order1, replies)) == After(m, Pass(order2, replies))
  {
    assert forall c :: c in order1 ==> c in Elements(order1);
    assert forall c :: c in order2 ==> c in Elements(order2);
    PassRuns(m, order1, replies);
    PassRuns(m, order2, replies);
    ArrivalsSettle(MarkAllLoading(m.store), order1, replies);
    ArrivalsSettle(MarkAllLoading(m.store), order2, replies);
  }

  /** With everything answered after a pass, every category is done exactly when
      each one's last answer, from the pass or from a single call beside it, was
      not a failure. */
  lemma PassSucceededExactly(m: State, steps: seq<Step>)
    requires Idling(m) && Runs(m, steps) && PassEnded(steps)
    requires After(m, steps).pendingAll == {} && After(m, steps).pendingOne == multiset{}
    ensures var status := After(m, steps).store.categoryStatus;
            AllCategoriesDone(After(m, steps).store)
            <==> forall c :: c in status && c != MAINTENANCE ==>
                   LastReply(steps, c).Some? && LastReply(steps, c).value.Results?
  {
    RunsAreRecorded(m, steps);
    NothingLeftLoading(m, steps);
    var now := After(m, steps);
    forall c | c in now.store.categoryStatus && c != MAINTENANCE
      ensures LastReply(steps, c).Some?
      ensures now.store.categoryStatus[c] == Landed(LastReply(steps, c).value)
    {
      assert Reached(now, steps, c) && ShowsLastReply(now, steps, c);
    }
    if MAINTENANCE in now.store.categoryStatus {
      assert Reached(now, steps, MAINTENANCE);
    }
  }

  /** A pass in which everything failed is final: the category stays in error and
      the next `detectAll` does nothing. */
  lemma FailedPassIsFinal(m: State, c: Category)
    requires Idling(m) && c != MAINTENANCE && m.store.categoryStatus == map[c := Idle]
    ensures var steps := [DetectAll, AllReply(c, Failed), AllSettled];
            && Runs(m, steps)
            && After(m, steps).store.categoryStatus == map[c := ErrorCategory]
            && ApplyStep(After(m, steps), DetectAll) == After(m, steps)
  {
    var m1 := ApplyStep(m, DetectAll);
    assert m1.store.categoryStatus == map[c := LoadingCategory] && m1.pendingAll == {c};
    var m2 := ApplyStep(m1, AllReply(c, Failed));
    assert m2.store.categoryStatus == map[c := ErrorCategory] && m2.pendingAll == {};
    var steps := [DetectAll, AllReply(c, Failed), AllSettled];
    assert steps[1..] == [AllReply(c, Failed), AllSettled] && steps[1..][1..] == [AllSettled];
    assert [AllSettled][1..] == [];
    assert After(m, steps) == After(m2, [AllSettled]) == ApplyStep(m2, AllSettled);
  }

  // ---- shared re-detects -------------------------------------------------

  /** Whatever the ids: a call joins a request in flight exactly when the two,
      sorted, are cut by their commas into the same pieces. */
  lemma JoinsExactly(m: State, steps: seq<Step>, ids: seq<Id>)
    requires Idling(m) && Runs(m, steps) && ids != []
    ensures var inflight := After(m, steps).inflight;
            ApplyStep(After(m, steps), Redetect(ids)) == After(m, steps)
            <==> exists k :: k in inflight && Pieces(Sort(TextLe, inflight[k])) == Pieces(Sort(TextLe, ids))
  {
    ConsistentFrom(m, steps);
    var now := After(m, steps);
    forall k | k in now.inflight
      ensures Pieces(Sort(TextLe, now.inflight[k])) == Pieces(Sort(TextLe, ids)) <==> k == Key(ids)
    {
      KeyIsPieces(now.inflight[k], ids);
    }
    if Key(ids) !in now.inflight {
      assert Key(ids) in ApplyStep(now, Redetect(ids)).inflight;
    }
  }

  /** At most one re-detect is unanswered per key, and a new call joins it
      exactly when the ids it asks for are a permutation of that one's. */
  lemma OneRequestPerPermutation(m: State, steps: seq<Step>, key: string, ids: seq<Id>)
    requires Idling(m) && Runs(m, steps) && ids != [] && CommaFree(ids)
    requires forall k :: k in After(m, steps).inflight ==> CommaFree(After(m, steps).inflight[k])
    ensures After(m, steps).requests[key] <= 1
    ensures ApplyStep(After(m, steps), Redetect(ids)) == After(m, steps)
            <==> exists k :: k in After(m, steps).inflight && multiset(After(m, steps).inflight[k]) == multiset(ids)
  {
    ConsistentFrom(m, steps);
    var now := After(m, steps);
    if Key(ids) in now.inflight {
      KeyIsCanonical(now.inflight[Key(ids)], ids);
    } else {
      var next := ApplyStep(now, Redetect(ids));
      assert Key(ids) in next.inflight;
      forall k | k in now.inflight
        ensures multiset(now.inflight[k]) != multiset(ids)
      {
        KeyIsCanonical(now.inflight[k], ids);
      }
    }
  }
}
