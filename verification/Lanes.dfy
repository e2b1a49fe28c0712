/** `offsets[lane :: depth]`: how the queued pass deals its offsets to lanes. */
module Lanes {

  function Strided<T>(xs: seq<T>, start: nat, step: nat): seq<T>
    requires step > 0
    decreases |xs| - start
  {
    if start >= |xs| then [] else [xs[start]] + Strided(xs, start + step, step)
  }

  /** The first `m` lanes, one after the other. */
  function Dealt<T>(xs: seq<T>, step: nat, m: nat): seq<T>
    requires step > 0
  {
    if m == 0 then [] else Dealt(xs, step, m - 1) + Strided(xs, m - 1, step)
  }

  /** The k-th element of a lane is the one `k` steps from its start, and the
      lane is as long as there are such elements. */
  lemma {:induction false} StridedAt<T>(xs: seq<T>, start: nat, step: nat, k: nat)
    requires step > 0
    ensures k < |Strided(xs, start, step)| <==> start + k * step < |xs|
    ensures k < |Strided(xs, start, step)| ==> Strided(xs, start, step)[k] == xs[start + k * step]
    decreases |xs| - start
  {
    if start < |xs| {
      if k > 0 {
        StridedAt(xs, start + step, step, k - 1);
        assert start + step + (k - 1) * step == start + k * step;
      }
    } else {
      assert k * step >= 0;
    }
  }

  lemma {:induction false} StridedSnoc<T>(xs: seq<T>, x: T, start: nat, step: nat)
    requires step > 0
    ensures Strided(xs + [x], start, step)
         == Strided(xs, start, step) + (if start <= |xs| && (|xs| - start) % step == 0 then [x] else [])
    decreases |xs| - start
  {
    if start < |xs| {
      StridedSnoc(xs, x, start + step, step);
      ModDown(|xs| - start, step);
    } else if start == |xs| {
      assert 0 % step == 0;
      assert Strided(xs + [x], start + step, step) == [];
    }
  }

  /** A remainder is the same a whole step further down. */
  lemma ModDown(n: nat, step: nat)
    requires step > 0
    ensures n >= step ==> n % step == (n - step) % step
    ensures 0 < n < step ==> n % step != 0
  {
    if n >= step {
      var q, r := (n - step) / step, (n - step) % step;
      assert n == (q + 1) * step + r;
      DivModUnique(n, step, q + 1, r);
    }
  }

  lemma DivModUnique(n: nat, d: nat, q: nat, r: nat)
    requires d > 0 && n == q * d + r && r < d
    ensures n / d == q && n % d == r
  {
    var k := n / d - q;
    assert n == n / d * d + n % d;
    assert k * d == n / d * d - q * d;
    MultipleOf(k, d);
  }

  lemma MultipleOf(k: int, d: nat)
    ensures k >= 1 ==> k * d >= d
    ensures k <= -1 ==> k * d <= 0 - d
  {
    if k >= 1 {
      assert k * d == (k - 1) * d + d;
    } else if k <= -1 {
      assert k * d == (k + 1) * d - d;
    }
  }

  lemma WhichLane(n: nat, lane: nat, step: nat)
    requires lane < step
    ensures lane <= n && (n - lane) % step == 0 <==> n % step == lane
  {
    var q, r := n / step, n % step;
    assert n == q * step + r;
    if r == lane {
      assert n - lane == q * step + 0;
      DivModUnique(n - lane, step, q, 0);
    } else if lane <= n && (n - lane) % step == 0 {
      var p := (n - lane) / step;
      assert n == p * step + lane;
      DivModUnique(n, step, p, lane);
    }
  }

  lemma LaneSnoc<T>(xs: seq<T>, x: T, step: nat, lane: nat)
    requires lane < step
    ensures multiset(Strided(xs + [x], lane, step))
         == multiset(Strided(xs, lane, step)) + (if |xs| % step == lane then multiset{x} else multiset{})
  {
    StridedSnoc(xs, x, lane, step);
    WhichLane(|xs|, lane, step);
  }

  lemma {:induction false} DealtSnoc<T>(xs: seq<T>, x: T, step: nat, m: nat, r: nat)
    requires m <= step && step > 0 && r == |xs| % step
    ensures multiset(Dealt(xs + [x], step, m))
         == multiset(Dealt(xs, step, m)) + (if r < m then multiset{x} else multiset{})
    decreases m
  {
    if m > 0 {
      var ys := xs + [x];
      var a, b, a0, b0 := Dealt(ys, step, m - 1), Strided(ys, m - 1, step), Dealt(xs, step, m - 1), Strided(xs, m - 1, step);
      assert multiset(a) == multiset(a0) + (if r < m - 1 then multiset{x} else multiset{}) by {
        DealtSnoc(xs, x, step, m - 1, r);
      }
      assert multiset(b) == multiset(b0) + (if r == m - 1 then multiset{x} else multiset{}) by {
        LaneSnoc(xs, x, step, m - 1);
      }
      MergeCounts(a, b, a0, b0, x, r < m - 1, r == m - 1);
      assert Dealt(ys, step, m) == a + b && Dealt(xs, step, m) == a0 + b0;
    }
  }

  lemma MergeCounts<T>(a: seq<T>, b: seq<T>, a0: seq<T>, b0: seq<T>, x: T, inA: bool, inB: bool)
    requires multiset(a) == multiset(a0) + (if inA then multiset{x} else multiset{})
    requires multiset(b) == multiset(b0) + (if inB then multiset{x} else multiset{})
    requires !(inA && inB)
    ensures multiset(a + b) == multiset(a0 + b0) + (if inA || inB then multiset{x} else multiset{})
  {
  }

  lemma {:induction false} NothingDealt<T>(step: nat, m: nat)
    requires step > 0
    ensures Dealt<T>([], step, m) == []
  {
    if m > 0 {
      NothingDealt<T>(step, m - 1);
    }
  }

  /** The lanes partition the offsets: dealt out and put together again, they
      are the same offsets, each as often as before. */
  lemma {:induction false} LanesPartition<T>(xs: seq<T>, step: nat)
    requires step > 0
    ensures multiset(Dealt(xs, step, step)) == multiset(xs)
    ensures |Dealt(xs, step, step)| == |xs|
  {
    if xs == [] {
      NothingDealt<T>(step, step);
    } else {
      var front, last := xs[..|xs| - 1], xs[|xs| - 1];
      assert xs == front + [last];
      LanesPartition(front, step);
      DealtSnoc(front, last, step, step, |front| % step);
      assert |front| % step < step;
    }
    assert |multiset(Dealt(xs, step, step))| == |multiset(xs)|;
  }

  /** Element `j` sits in lane `j % step`, at place `j / step`, and nowhere else. */
  lemma PlaceOf<T>(xs: seq<T>, step: nat, j: nat)
    requires step > 0 && j < |xs|
    ensures j / step < |Strided(xs, j % step, step)| && Strided(xs, j % step, step)[j / step] == xs[j]
  {
    var q, r := j / step, j % step;
    assert j == q * step + r;
    StridedAt(xs, r, step, q);
  }

  /** Every lane of a deal of at least `depth * each` has at least `each`. */
  lemma LaneLength<T>(xs: seq<T>, depth: nat, each: nat, lane: nat)
    requires lane < depth && |xs| >= depth * each
    ensures |Strided(xs, lane, depth)| >= each
  {
    if each > 0 {
      StridedAt(xs, lane, depth, each - 1);
      assert lane + (each - 1) * depth < each * depth;
    }
  }
}
