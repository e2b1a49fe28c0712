/** Sorting by a total order. `sorted(...)` and `Array.sort` are library calls in
    fpstune; what its code relies on is that the result is the one ordered
    arrangement of the same elements. */
module Sorting {

  ghost predicate TotalOrder<T(!new)>(le: (T, T) -> bool) {
    && (forall x, y :: le(x, y) || le(y, x))
    && (forall x, y :: le(x, y) && le(y, x) ==> x == y)
    && (forall x, y, z :: le(x, y) && le(y, z) ==> le(x, z))
  }

  predicate Ordered<T>(le: (T, T) -> bool, s: seq<T>) {
    forall i, j :: 0 <= i < j < |s| ==> le(s[i], s[j])
  }

  function Insert<T>(le: (T, T) -> bool, x: T, s: seq<T>): seq<T> {
    if s == [] then [x]
    else if le(x, s[0]) then [x] + s
    else [s[0]] + Insert(le, x, s[1..])
  }

  function Sort<T>(le: (T, T) -> bool, s: seq<T>): seq<T> {
    if s == [] then [] else Insert(le, s[0], Sort(le, s[1..]))
  }

  lemma {:induction false} InsertKeepsElements<T>(le: (T, T) -> bool, x: T, s: seq<T>)
    ensures multiset(Insert(le, x, s)) == multiset(s) + multiset{x}
  {
    if s != [] {
      assert s == [s[0]] + s[1..];
      if !le(x, s[0]) {
        InsertKeepsElements(le, x, s[1..]);
      }
    }
  }

  lemma {:induction false} InsertOrdered<T(!new)>(le: (T, T) -> bool, x: T, s: seq<T>)
    requires TotalOrder(le) && Ordered(le, s)
    ensures Ordered(le, Insert(le, x, s))
  {
    if s == [] {
    } else if le(x, s[0]) {
      OrderedCons(le, x, s);
    } else {
      InsertOrdered(le, x, s[1..]);
      InsertKeepsElements(le, x, s[1..]);
      var rest := Insert(le, x, s[1..]);
      forall y | y in rest
        ensures le(s[0], y)
      {
        assert y in multiset(rest);
      }
      OrderedCons(le, s[0], rest);
    }
  }

  lemma OrderedCons<T(!new)>(le: (T, T) -> bool, x: T, s: seq<T>)
    requires TotalOrder(le) && Ordered(le, s)
    requires s == [] || le(x, s[0]) || forall y :: y in s ==> le(x, y)
    ensures Ordered(le, [x] + s)
  {
    forall i, j | 0 <= i < j < |s| + 1
      ensures le(([x] + s)[i], ([x] + s)[j])
    {
      if i == 0 && j > 1 {
        assert le(s[0], s[j - 1]);
      }
    }
  }

  lemma {:induction false} SortOrdered<T(!new)>(le: (T, T) -> bool, s: seq<T>)
    requires TotalOrder(le)
    ensures Ordered(le, Sort(le, s))
    ensures multiset(Sort(le, s)) == multiset(s)
    ensures |Sort(le, s)| == |s|
  {
    if s != [] {
      SortOrdered(le, s[1..]);
      InsertOrdered(le, s[0], Sort(le, s[1..]));
      InsertKeepsElements(le, s[0], Sort(le, s[1..]));
      assert s == [s[0]] + s[1..];
    }
    assert |multiset(Sort(le, s))| == |multiset(s)|;
  }

  /** Two ordered arrangements of the same elements are the same sequence. */
  lemma {:induction false} OrderedUnique<T(!new)>(le: (T, T) -> bool, a: seq<T>, b: seq<T>)
    requires TotalOrder(le) && Ordered(le, a) && Ordered(le, b)
    requires multiset(a) == multiset(b)
    ensures a == b
  {
    assert |multiset(b)| == |multiset(a)|;
    if a != [] {
      HeadIsLeast(le, a, b);
      HeadIsLeast(le, b, a);
      assert a[0] == b[0];
      TailsAgree(a, b);
      OrderedUnique(le, a[1..], b[1..]);
    }
  }

  lemma TailsAgree<T>(a: seq<T>, b: seq<T>)
    requires a != [] && b != [] && a[0] == b[0] && multiset(a) == multiset(b)
    ensures multiset(a[1..]) == multiset(b[1..])
  {
    assert a == [a[0]] + a[1..] && b == [b[0]] + b[1..];
    assert multiset(a[1..]) == multiset(a) - multiset{a[0]};
    assert multiset(b[1..]) == multiset(b) - multiset{b[0]};
  }

  lemma HeadIsLeast<T(!new)>(le: (T, T) -> bool, a: seq<T>, b: seq<T>)
    requires TotalOrder(le) && Ordered(le, a) && multiset(a) == multiset(b) && a != [] && b != []
    ensures le(a[0], b[0])
  {
    assert b[0] in multiset(b);
    var i :| 0 <= i < |a| && a[i] == b[0];
    assert i == 0 || le(a[0], a[i]);
  }

  /** Sorting forgets exactly the order: equal results mean equal multisets. */
  lemma SortCanonical<T(!new)>(le: (T, T) -> bool, a: seq<T>, b: seq<T>)
    requires TotalOrder(le)
    ensures Sort(le, a) == Sort(le, b) <==> multiset(a) == multiset(b)
  {
    SortOrdered(le, a);
    SortOrdered(le, b);
    if multiset(a) == multiset(b) {
      OrderedUnique(le, Sort(le, a), Sort(le, b));
    }
  }
}
