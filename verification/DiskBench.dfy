/** The arithmetic of the disk bench: sector alignment, the offsets it reads at,
    and the median and tail of its latencies. */
module DiskBench {
  import opened Lanes
  import opened Sorting

  const SECTOR := 4096
  const BLOCK_BYTES := 4096
  const QUEUED_REQUESTS_PER_LANE := 100

  // ---------------------------------------------------------------------
  // Alignment
  // ---------------------------------------------------------------------

  function AlignUp(value: nat): nat {
    (value + SECTOR - 1) / SECTOR * SECTOR
  }

  /** The least multiple of the sector that is not below the value. */
  lemma AlignUpIsLeast(value: nat, m: nat)
    ensures value <= AlignUp(value) < value + 4096 && AlignUp(value) % 4096 == 0
    ensures value <= m && m % 4096 == 0 ==> AlignUp(value) <= m
  {
    var q := (value + SECTOR - 1) / SECTOR;
    assert (q * SECTOR) % SECTOR == 0;
    if value <= m && m % SECTOR == 0 {
      assert m == m / SECTOR * SECTOR;
    }
  }

  /** Where the aligned buffer starts inside the over-allocation at `address`. */
  function BufferOffset(address: int): nat {
    (-address) % SECTOR
  }

  /** The buffer starts at the first aligned address of the over-allocation, and
      the whole aligned block fits behind it. */
  lemma BufferIsLegal(address: int, blockBytes: nat, o: nat)
    ensures (address + BufferOffset(address)) % 4096 == 0
    ensures BufferOffset(address) + AlignUp(blockBytes) <= AlignUp(blockBytes) + SECTOR
    ensures (address + o) % 4096 == 0 ==> BufferOffset(address) <= o
  {
    var first := BufferOffset(address);
    assert -address == SECTOR * (-address / SECTOR) + first;
    if (address + o) % SECTOR == 0 {
      assert address + o == SECTOR * ((address + o) / SECTOR);
      assert o - first == SECTOR * ((address + o) / SECTOR + -address / SECTOR);
    }
  }

  // ---------------------------------------------------------------------
  // The test file and the offsets inside it
  // ---------------------------------------------------------------------

  /** The size of the file `_write_file` leaves. */
  function WrittenBytes(fileMb: nat, blockKb: nat): nat
    requires blockKb > 0
  {
    WholeBlocks(fileMb * 1024, blockKb)
  }

  /** As many whole blocks of `blockKb` as `total` kilobytes hold, in bytes. */
  function WholeBlocks(total: nat, blockKb: nat): nat
    requires blockKb > 0
  {
    total / blockKb * (blockKb * 1024)
  }

  /** The last block an offset may name: zero when not even one fits. */
  function LastBlock(size: nat): nat {
    if size < BLOCK_BYTES then 0 else (size - BLOCK_BYTES) / BLOCK_BYTES
  }

  /** `_offsets`: one random block each, by the seeded draws. */
  function Offset(draw: nat): nat {
    draw * BLOCK_BYTES
  }

  /** The bytes written are a multiple of a block; all but less than one block
      of the asked size. */
  lemma WrittenBlocks(total: nat, blockKb: nat) returns (kb: nat)
    requires blockKb > 0
    ensures kb == total / blockKb * blockKb && total - blockKb < kb <= total
    ensures total / blockKb * (blockKb * 1024) == kb * 1024
    ensures blockKb <= total ==> kb >= blockKb
  {
    var blocks := total / blockKb;
    kb := blocks * blockKb;
    assert total == blocks * blockKb + total % blockKb;
    if blockKb <= total {
      assert blocks >= 1;
      AtLeastOnce(blocks, blockKb);
    }
  }

  lemma WrittenEnough(total: nat, blockKb: nat)
    requires total >= 1024 && blockKb > 0
    ensures blockKb <= total ==> WholeBlocks(total, blockKb) >= BLOCK_BYTES
    ensures blockKb > total ==> WholeBlocks(total, blockKb) == 0
  {
    var kb := WrittenBlocks(total, blockKb);
    if blockKb > total {
      SmallerDividesToZero(total, blockKb);
    } else {
      assert kb >= 4;
    }
  }

  lemma SmallerDividesToZero(x: nat, y: nat)
    requires x < y
    ensures x / y == 0
  {
  }

  lemma AtLeastOnce(n: nat, x: nat)
    requires n >= 1
    ensures n * x >= x
  {
    assert n * x == (n - 1) * x + x;
  }

  /** Every offset a draw can give is aligned, with a whole block inside the file
      that was written, exactly when a block is no larger than the file. */
  lemma OffsetsLegalExactly(fileMb: nat, blockKb: nat)
    requires fileMb > 0 && blockKb > 0
    ensures (forall d: nat :: d <= LastBlock(WrittenBytes(fileMb, blockKb)) ==>
               Offset(d) % 4096 == 0 && Offset(d) + 4096 <= WrittenBytes(fileMb, blockKb))
            <==> blockKb <= fileMb * 1024
  {
    WrittenEnough(fileMb * 1024, blockKb);
    var size := WrittenBytes(fileMb, blockKb);
    if blockKb > fileMb * 1024 {
      assert 0 <= LastBlock(size) && Offset(0) + BLOCK_BYTES > size;
    }
  }

  /** A block larger than the file: nothing is written, and the one offset that can
      be drawn names a block that is not there. */
  lemma OffsetPastTheFile()
    ensures WrittenBytes(1, 2048) == 0 && Offset(0) + BLOCK_BYTES > WrittenBytes(1, 2048)
    ensures 0 <= LastBlock(WrittenBytes(1, 2048))
  {
  }

  /** The draws name the file's blocks of 4096 bytes from the first one on, up to the
      last that is whole; in a file without one, the first. */
  lemma OffsetsCoverTheFile(size: nat, d: nat)
    ensures Offset(d) == d * 4096
    ensures size >= 4096 ==> (d <= LastBlock(size) <==> d * 4096 + 4096 <= size)
    ensures size < 4096 ==> LastBlock(size) == 0
  {
    if size >= 4096 {
      var q := (size - 4096) / 4096;
      assert size - 4096 == q * 4096 + (size - 4096) % 4096;
    }
  }

  function QueuedCount(base: nat, depth: nat): nat {
    if base > depth * QUEUED_REQUESTS_PER_LANE then base else depth * QUEUED_REQUESTS_PER_LANE
  }

  /** The deep pass issues no fewer requests than the shallow one, and enough that
      every lane pays its start-up over as many as it should. */
  lemma EveryLaneIsBusy(base: nat, depth: nat, offsets: seq<nat>, lane: nat)
    requires |offsets| == QueuedCount(base, depth) && lane < depth
    ensures |offsets| >= base && (|offsets| == base || |offsets| == depth * 100)
    ensures |Strided(offsets, lane, depth)| >= 100
  {
    LaneLength(offsets, depth, QUEUED_REQUESTS_PER_LANE, lane);
  }

  // ---------------------------------------------------------------------
  // Median and tail
  // ---------------------------------------------------------------------

  predicate RealLe(x: real, y: real) {
    x <= y
  }

  lemma RealOrder()
    ensures TotalOrder(RealLe)
  {
  }

  function Median(ranked: seq<real>): real
    requires ranked != []
  {
    var n := |ranked|;
    if n % 2 == 1 then ranked[n / 2] else (ranked[n / 2 - 1] + ranked[n / 2]) / 2.0
  }

  function P99Index(n: nat): nat
    requires n > 0
  {
    if n - 1 < n * 99 / 100 then n - 1 else n * 99 / 100
  }

  function Sum(xs: seq<real>): real {
    if xs == [] then 0.0 else xs[0] + Sum(xs[1..])
  }

  function Rate(requests: nat, seconds: real): real {
    if seconds > 0.0 then requests as real / seconds else 0.0
  }

  datatype Tail = Tail(median: real, p99: real, served: real)

  /** `seconds` is the wall clock of a queued pattern; without it the rate is
      over the requests' own latencies. */
  function TailOf(latencies: seq<real>, seconds: real, queued: bool): Tail {
    if latencies == [] then Tail(0.0, 0.0, 0.0)
    else
      var ranked := Sort(RealLe, latencies);
      SortedLength(latencies);
      var total := if queued then seconds else Sum(latencies) / 1000.0;
      Tail(Median(ranked), ranked[P99Index(|ranked|)], Rate(|latencies|, total))
  }

  lemma SortedLength(latencies: seq<real>)
    ensures |Sort(RealLe, latencies)| == |latencies|
  {
    RealOrder();
    SortOrdered(RealLe, latencies);
  }

  /** How many of the latencies pass a test. */
  function Count(xs: seq<real>, test: real -> bool): nat {
    if xs == [] then 0 else (if test(xs[0]) then 1 else 0) + Count(xs[1..], test)
  }

  lemma {:induction false} CountConcat(a: seq<real>, b: seq<real>, test: real -> bool)
    ensures Count(a + b, test) == Count(a, test) + Count(b, test)
  {
    if a == [] {
      assert a + b == b;
    } else {
      assert (a + b)[1..] == a[1..] + b;
      CountConcat(a[1..], b, test);
    }
  }

  lemma {:induction false} CountBounds(xs: seq<real>, test: real -> bool)
    ensures Count(xs, test) <= |xs|
    ensures (forall x :: x in xs ==> test(x)) ==> Count(xs, test) == |xs|
    ensures (forall x :: x in xs ==> !test(x)) ==> Count(xs, test) == 0
  {
    if xs != [] {
      CountBounds(xs[1..], test);
      assert xs[0] in xs;
      assert forall x :: x in xs[1..] ==> x in xs;
      if forall x :: x in xs ==> test(x) {
        assert forall x :: x in xs[1..] ==> test(x);
      }
      if forall x :: x in xs ==> !test(x) {
        assert forall x :: x in xs[1..] ==> !test(x);
      }
    }
  }

  lemma {:induction false} CountInsert(x: real, xs: seq<real>, test: real -> bool)
    ensures Count(Insert(RealLe, x, xs), test) == Count(xs, test) + (if test(x) then 1 else 0)
  {
    if xs == [] || RealLe(x, xs[0]) {
      CountConcat([x], xs, test);
      assert [x] + xs == Insert(RealLe, x, xs);
    } else {
      CountInsert(x, xs[1..], test);
    }
  }

  /** Sorting changes no count. */
  lemma {:induction false} CountSorted(xs: seq<real>, test: real -> bool)
    ensures Count(Sort(RealLe, xs), test) == Count(xs, test)
  {
    if xs != [] {
      CountSorted(xs[1..], test);
      CountInsert(xs[0], Sort(RealLe, xs[1..]), test);
    }
  }

  lemma FewAbove(ranked: seq<real>, i: nat)
    requires Ordered(RealLe, ranked) && i < |ranked|
    ensures Count(ranked, x => x > ranked[i]) <= |ranked| - 1 - i
  {
    var t := ranked[i];
    var above := x => x > t;
    var low, high := ranked[..i + 1], ranked[i + 1..];
    assert low + high == ranked;
    CountConcat(low, high, above);
    forall x | x in low
      ensures !above(x)
    {
      var j :| 0 <= j < |low| && low[j] == x;
      assert j == i || RealLe(ranked[j], ranked[i]);
    }
    CountBounds(low, above);
    CountBounds(high, above);
  }

  lemma ManyFrom(ranked: seq<real>, i: nat)
    requires Ordered(RealLe, ranked) && i < |ranked|
    ensures Count(ranked, x => x >= ranked[i]) >= |ranked| - i
  {
    var t := ranked[i];
    var from := x => x >= t;
    var low, high := ranked[..i], ranked[i..];
    assert low + high == ranked;
    CountConcat(low, high, from);
    forall x | x in high
      ensures from(x)
    {
      var j :| 0 <= j < |high| && high[j] == x;
      assert j == 0 || RealLe(ranked[i], ranked[i + j]);
    }
    CountBounds(high, from);
  }

  /** The tail is the tail: fewer than one in a hundred requests are strictly
      slower than the reported p99, at least one in a hundred are no faster, and
      the median is not above it. */
  lemma TailIsTheTail(latencies: seq<real>, seconds: real, queued: bool)
    requires latencies != []
    ensures var t := TailOf(latencies, seconds, queued);
            && 100 * Count(latencies, x => x > t.p99) < |latencies|
            && 100 * Count(latencies, x => x >= t.p99) >= |latencies|
            && t.median <= t.p99
  {
    RealOrder();
    SortOrdered(RealLe, latencies);
    var ranked := Sort(RealLe, latencies);
    var i := P99Index(|ranked|);
    var p99 := ranked[i];
    var above, from := x => x > p99, x => x >= p99;
    FewAbove(ranked, i);
    ManyFrom(ranked, i);
    CountSorted(latencies, above);
    CountSorted(latencies, from);
    var n := |ranked|;
    assert n / 2 <= i;
    assert RealLe(ranked[n / 2], ranked[i]) by {
      assert n / 2 == i || n / 2 < i;
    }
    if n % 2 == 0 {
      assert RealLe(ranked[n / 2 - 1], ranked[n / 2]);
    }
  }

  function Below(v: real): real -> bool {
    x => x < v
  }

  function UpTo(v: real): real -> bool {
    x => x <= v
  }

  /** `v` is the latency of rank `k`, counting from zero and from the fastest. */
  predicate HasRank(xs: seq<real>, k: int, v: real) {
    v in xs && Count(xs, Below(v)) <= k < Count(xs, UpTo(v))
  }

  lemma RankedAt(ranked: seq<real>, k: nat)
    requires Ordered(RealLe, ranked) && k < |ranked|
    ensures HasRank(ranked, k, ranked[k])
  {
    var v := ranked[k];
    var low, high := ranked[..k], ranked[k..];
    assert low + high == ranked;
    forall x | x in high
      ensures !Below(v)(x)
    {
      var j :| 0 <= j < |high| && high[j] == x;
      assert j == 0 || RealLe(ranked[k], ranked[k + j]);
    }
    CountConcat(low, high, Below(v));
    CountBounds(low, Below(v));
    CountBounds(high, Below(v));
    UpToRank(ranked, k);
  }

  lemma UpToRank(ranked: seq<real>, k: nat)
    requires Ordered(RealLe, ranked) && k < |ranked|
    ensures Count(ranked, UpTo(ranked[k])) > k
  {
    var v := ranked[k];
    var low, high := ranked[..k + 1], ranked[k + 1..];
    assert low + high == ranked;
    forall x | x in low
      ensures UpTo(v)(x)
    {
      var j :| 0 <= j < |low| && low[j] == x;
      assert j == k || RealLe(ranked[j], ranked[k]);
    }
    CountConcat(low, high, UpTo(v));
    CountBounds(low, UpTo(v));
  }

  lemma RankIsKept(latencies: seq<real>, k: nat)
    requires k < |latencies|
    ensures var ranked := Sort(RealLe, latencies); |ranked| == |latencies| && HasRank(latencies, k, ranked[k])
  {
    RealOrder();
    SortOrdered(RealLe, latencies);
    var ranked := Sort(RealLe, latencies);
    RankedAt(ranked, k);
    CountSorted(latencies, Below(ranked[k]));
    CountSorted(latencies, UpTo(ranked[k]));
    assert ranked[k] in multiset(ranked);
  }

  /** The median is half way between the two middle ranks, which are one where their
      number is odd; the p99 has rank n * 99 / 100, or the last. */
  lemma TailByRank(latencies: seq<real>, seconds: real, queued: bool) returns (lo: real, hi: real)
    requires latencies != []
    ensures var t, n := TailOf(latencies, seconds, queued), |latencies|;
            && HasRank(latencies, (n - 1) / 2, lo) && HasRank(latencies, n / 2, hi)
            && t.median == (lo + hi) / 2.0
            && HasRank(latencies, if n * 99 / 100 < n then n * 99 / 100 else n - 1, t.p99)
  {
    var n := |latencies|;
    var ranked := Sort(RealLe, latencies);
    RankIsKept(latencies, (n - 1) / 2);
    RankIsKept(latencies, n / 2);
    RankIsKept(latencies, P99Index(n));
    lo, hi := ranked[(n - 1) / 2], ranked[n / 2];
    assert TailOf(latencies, seconds, queued).median == (lo + hi) / 2.0;
  }

  lemma {:induction false} SumAdds(a: seq<real>, b: seq<real>)
    ensures Sum(a + b) == Sum(a) + Sum(b)
    ensures forall x :: Sum([x]) == x
  {
    if a == [] {
      assert a + b == b;
    } else {
      assert (a + b)[1..] == a[1..] + b;
      SumAdds(a[1..], b);
    }
  }

  /** `served` times `time` is the number of requests; no time is no rate. */
  predicate IsRate(served: real, requests: real, time: real) {
    if time > 0.0 then served * time == requests else served == 0.0
  }

  /** The rate is the requests over the wall clock of a queued pattern, and over
      their own latencies, in milliseconds, of any other. */
  lemma RateExactly(latencies: seq<real>, seconds: real) returns (queued: real, own: real)
    ensures queued == TailOf(latencies, seconds, true).served && own == TailOf(latencies, seconds, false).served
    ensures IsRate(queued, |latencies| as real, seconds)
    ensures IsRate(own, 1000.0 * |latencies| as real, Sum(latencies))
  {
    ServedIsRate(latencies, seconds);
    queued, own := Rate(|latencies|, seconds), Rate(|latencies|, Sum(latencies) / 1000.0);
    RateIsRate(|latencies|, seconds);
    RateInSeconds(|latencies|, Sum(latencies));
  }

  lemma ServedIsRate(latencies: seq<real>, seconds: real)
    ensures TailOf(latencies, seconds, true).served == Rate(|latencies|, seconds)
    ensures TailOf(latencies, seconds, false).served == Rate(|latencies|, Sum(latencies) / 1000.0)
    ensures latencies == [] ==> TailOf(latencies, seconds, true) == TailOf(latencies, seconds, false) == Tail(0.0, 0.0, 0.0)
  {
    if latencies == [] {
      NoRate(seconds);
    }
  }

  lemma NoRate(seconds: real)
    ensures Rate(0, seconds) == 0.0
  {
  }

  lemma RateIsRate(n: nat, seconds: real)
    ensures IsRate(Rate(n, seconds), n as real, seconds)
  {
    if seconds > 0.0 {
      DivideBack(n as real, seconds, Rate(n, seconds));
    }
  }

  lemma RateInSeconds(n: nat, sum: real)
    ensures IsRate(Rate(n, sum / 1000.0), 1000.0 * n as real, sum)
  {
    RateIsRate(n, sum / 1000.0);
    Thousandths(Rate(n, sum / 1000.0), sum);
  }

  lemma DivideBack(n: real, total: real, served: real)
    requires total > 0.0 && served == n / total
    ensures served * total == n
  {
  }

  lemma Thousandths(served: real, sum: real)
    ensures served * (sum / 1000.0) * 1000.0 == served * sum
  {
    assert served * (sum / 1000.0) * 1000.0 == served * (sum / 1000.0 * 1000.0);
  }

  /** The median and the tail depend on which latencies there were and not on
      the order they came in, so no scheduling of the lanes can change them. */
  lemma TailForgetsOrder(a: seq<real>, b: seq<real>, seconds: real, queued: bool)
    requires multiset(a) == multiset(b)
    ensures TailOf(a, seconds, queued).median == TailOf(b, seconds, queued).median
    ensures TailOf(a, seconds, queued).p99 == TailOf(b, seconds, queued).p99
  {
    RealOrder();
    SortCanonical(RealLe, a, b);
    assert |multiset(a)| == |multiset(b)|;
    SortedLength(a);
    SortedLength(b);
  }
}
