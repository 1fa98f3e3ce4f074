/** The logarithmic latency histogram: what its buckets count and which sample a percentile stands for. */
module LatencyHistogram {
  import Seqs
  import opened Bits

  const NUM_BUCKETS: nat := 64

  /** `100 << 56`: below it no threshold leaves a signed 64-bit word while the bucket is sought. */
  const LIMIT: nat := 100 * 0x100_0000_0000_0000

  const INT64_END: nat := 0x8000_0000_0000_0000

  /** The lower end of the bucket after `i`: `100 << i`. */
  function Edge(i: nat): nat {
    100 * Pow2(i)
  }

  /** Bucket 0 holds what is below 100 ns; bucket `i` holds `100 << (i - 1)` up to `100 << i`. */
  function BucketOf(ns: int): nat {
    if ns < 100 then 0 else 1 + Log2(ns / 100)
  }

  lemma BucketBounds(ns: int)
    requires ns >= 100
    ensures BucketOf(ns) >= 1 && Edge(BucketOf(ns) - 1) <= ns < Edge(BucketOf(ns))
  {
    var q := ns / 100;
    var k := Log2(q);
    assert 100 * q <= ns < 100 * q + 100;
  }

  lemma BucketUnique(ns: int, b: nat)
    requires ns >= 100 && b >= 1 && Edge(b - 1) <= ns < Edge(b)
    ensures BucketOf(ns) == b
  {
    BucketBounds(ns);
    var c := BucketOf(ns);
    EdgeOrder(b, c - 1);
    EdgeOrder(c, b - 1);
  }

  lemma EdgeOrder(i: nat, j: nat)
    ensures i <= j ==> Edge(i) <= Edge(j)
    ensures i < j ==> Edge(i) < Edge(j)
  {
    if i <= j {
      PowMonotone(i, j);
    }
  }

  lemma BucketMonotone(a: int, b: int)
    requires a <= b
    ensures BucketOf(a) <= BucketOf(b)
  {
    if a >= 100 {
      BucketBounds(a);
      BucketBounds(b);
      EdgeOrder(BucketOf(b), BucketOf(a) - 1);
    }
  }

  lemma PowValues()
    ensures Pow2(54) == 0x40_0000_0000_0000
  {
    assert Pow2(6) == 64;
    PowAdd(6, 6);
    PowAdd(12, 6);
    PowAdd(18, 18);
    PowAdd(36, 18);
  }

  lemma EdgeValues()
    ensures Edge(56) == LIMIT && Edge(0) == 100 && Edge(1) == 200
    ensures Edge(56) < INT64_END <= Edge(57)
    ensures Edge(54) + Edge(55) < INT64_END <= Edge(55) + Edge(56) < 2 * INT64_END
    ensures Edge(55) > 0x2000_0000_0000_0000
  {
    PowValues();
    var p := Pow2(54);
    assert Pow2(55) == 2 * p;
    assert Pow2(56) == 4 * p by { assert Pow2(56) == 2 * Pow2(55); }
    assert Pow2(57) == 8 * p by { assert Pow2(57) == 2 * Pow2(56); }
    assert Pow2(0) == 1 && Pow2(1) == 2;
  }

  lemma BucketFits(ns: int)
    requires ns < LIMIT
    ensures BucketOf(ns) <= 56
  {
    EdgeValues();
    if ns >= 100 {
      BucketBounds(ns);
      EdgeOrder(56, BucketOf(ns) - 1);
    }
  }

  /** The loop of `record`: no threshold leaves the 64-bit range. */
  method FindBucket(ns: int) returns (bucket: nat)
    requires ns < LIMIT
    ensures bucket == BucketOf(ns) && bucket < NUM_BUCKETS
  {
    BucketFits(ns);
    EdgeValues();
    if ns < 100 {
      return 0;
    }
    bucket := 1;
    var threshold := 200;
    while bucket < NUM_BUCKETS - 1 && ns >= threshold
      invariant 1 <= bucket <= 56 && threshold == Edge(bucket) && threshold < INT64_END
      invariant Edge(bucket - 1) <= ns
      decreases NUM_BUCKETS - bucket
    {
      EdgeOrder(56, bucket);
      EdgeOrder(bucket + 1, 56);
      bucket := bucket + 1;
      threshold := threshold * 2;
    }
    BucketUnique(ns, bucket);
  }

  // ----- Counting samples

  ghost predicate InRange(xs: seq<int>) {
    forall i :: 0 <= i < |xs| ==> xs[i] < LIMIT
  }

  /** How many samples fall into bucket `i`. */
  function Tally(xs: seq<int>, i: nat): nat {
    if xs == [] then 0 else Tally(xs[..|xs| - 1], i) + if BucketOf(xs[|xs| - 1]) == i then 1 else 0
  }

  /** How many fall into a bucket below `i`. */
  function Below(xs: seq<int>, i: nat): nat {
    if xs == [] then 0 else Below(xs[..|xs| - 1], i) + if BucketOf(xs[|xs| - 1]) < i then 1 else 0
  }

  function Total(xs: seq<int>): int {
    if xs == [] then 0 else Total(xs[..|xs| - 1]) + xs[|xs| - 1]
  }

  lemma {:induction false} BelowStep(xs: seq<int>, i: nat)
    ensures Below(xs, i + 1) == Below(xs, i) + Tally(xs, i)
    ensures Below(xs, 0) == 0
  {
    if xs != [] {
      BelowStep(xs[..|xs| - 1], i);
    }
  }

  lemma {:induction false} BelowAll(xs: seq<int>)
    requires InRange(xs)
    ensures Below(xs, NUM_BUCKETS) == |xs|
  {
    if xs != [] {
      var n := |xs| - 1;
      BucketFits(xs[n]);
      BelowAll(xs[..n]);
    }
  }

  /** Counting a concatenation is adding the counts. */
  lemma {:induction false} CountsAdd(xs: seq<int>, ys: seq<int>, i: nat)
    ensures Tally(xs + ys, i) == Tally(xs, i) + Tally(ys, i)
    ensures Below(xs + ys, i) == Below(xs, i) + Below(ys, i)
    ensures Total(xs + ys) == Total(xs) + Total(ys)
  {
    if ys == [] {
      assert xs + ys == xs;
    } else {
      var n := |ys| - 1;
      assert (xs + ys)[..|xs + ys| - 1] == xs + ys[..n];
      CountsAdd(xs, ys[..n], i);
    }
  }

  lemma {:induction false} BelowRemove(xs: seq<int>, k: nat, i: nat)
    requires k < |xs|
    ensures Below(xs, i) == Below(Seqs.RemoveAt(xs, k), i) + if BucketOf(xs[k]) < i then 1 else 0
  {
    assert xs == xs[..k] + ([xs[k]] + xs[k + 1..]);
    CountsAdd(xs[..k], [xs[k]] + xs[k + 1..], i);
    CountsAdd([xs[k]], xs[k + 1..], i);
    CountsAdd(xs[..k], xs[k + 1..], i);
    assert [xs[k]][..0] == [];
    assert Below([xs[k]], i) == if BucketOf(xs[k]) < i then 1 else 0;
  }

  /** The count does not depend on the order of the samples. */
  lemma {:induction false} BelowPermutes(xs: seq<int>, ys: seq<int>, i: nat)
    requires multiset(xs) == multiset(ys)
    ensures |xs| == |ys| && Below(xs, i) == Below(ys, i)
    decreases |xs|
  {
    if xs == [] {
      assert |multiset(ys)| == 0;
    } else {
      var n := |xs| - 1;
      var x := xs[n];
      assert x in multiset(ys);
      var k :| 0 <= k < |ys| && ys[k] == x;
      assert xs == xs[..n] + [x];
      assert ys == ys[..k] + ([ys[k]] + ys[k + 1..]);
      assert multiset(Seqs.RemoveAt(ys, k)) == multiset(ys) - multiset{x} ==
             multiset(xs) - multiset{x} == multiset(xs[..n]);
      BelowPermutes(xs[..n], Seqs.RemoveAt(ys, k), i);
      BelowRemove(ys, k, i);
    }
  }

  // ----- Order statistics

  ghost predicate Sorted(s: seq<int>) {
    forall i, j :: 0 <= i <= j < |s| ==> s[i] <= s[j]
  }

  /** In a sorted sequence the samples of the lower buckets come first. */
  lemma {:induction false} BelowIsPrefix(s: seq<int>, i: nat, t: nat)
    requires Sorted(s) && t < |s|
    ensures BucketOf(s[t]) < i <==> t < Below(s, i)
  {
    var n := |s| - 1;
    if BucketOf(s[n]) < i {
      AllBelow(s, i);
      BucketMonotone(s[t], s[n]);
    } else if t < n {
      BelowIsPrefix(s[..n], i, t);
    } else {
      BelowAtMost(s[..n], i);
    }
  }

  lemma {:induction false} BelowAtMost(s: seq<int>, i: nat)
    ensures Below(s, i) <= |s|
  {
    if s != [] {
      BelowAtMost(s[..|s| - 1], i);
    }
  }

  lemma {:induction false} AllBelow(s: seq<int>, i: nat)
    requires Sorted(s) && s != [] && BucketOf(s[|s| - 1]) < i
    ensures Below(s, i) == |s|
  {
    var n := |s| - 1;
    if n > 0 {
      BucketMonotone(s[n - 1], s[n]);
      AllBelow(s[..n], i);
    } else {
      assert s[..0] == [];
    }
  }

  /** The bucket whose cumulative count first exceeds `t` holds the sample of 0-based rank `t`. */
  lemma RankInBucket(xs: seq<int>, s: seq<int>, t: nat, b: nat)
    requires Sorted(s) && multiset(s) == multiset(xs) && t < |s|
    requires Below(xs, b) <= t < Below(xs, b + 1)
    ensures BucketOf(s[t]) == b
  {
    BelowPermutes(s, xs, b);
    BelowPermutes(s, xs, b + 1);
    BelowIsPrefix(s, b, t);
    BelowIsPrefix(s, b + 1, t);
  }

  /** What `percentile_us` returns for a bucket, in microseconds. */
  function Representative(b: nat): real {
    if b == 0 then 0.05 else (Edge(b - 1) + Edge(b)) as real / 2.0 / 1000.0
  }

  /**
   It is as far from the lower end of the bucket as from the upper end, in nanoseconds; the first bucket starts at 0.
   */
  lemma RepresentativeIsMiddle(b: nat)
    ensures var r := Representative(b) * 1000.0; var low := if b == 0 then 0 else Edge(b - 1);
      r - low as real == Edge(b) as real - r
  {
    assert Pow2(0) == 1;
  }

  /** A sum in a signed 64-bit word. */
  function Wrap64(x: nat): int {
    (x + INT64_END) % (2 * INT64_END) - INT64_END
  }

  /** What `percentile_us` computes for a bucket, the sum of its edges being taken in 64 bits. */
  function Reported(b: nat): real {
    if b == 0 then 0.05 else Wrap64(Edge(b - 1) + Edge(b)) as real / 2.0 / 1000.0
  }

  /** The sum fits in 64 bits up to bucket 55, that is for samples below `100 << 55`, and in no later bucket. */
  lemma ReportedIsExact(b: nat)
    requires b <= 56
    ensures Reported(b) == Representative(b) <==> b <= 55
  {
    EdgeValues();
    if 0 < b <= 55 {
      EdgeOrder(b - 1, 54);
      EdgeOrder(b, 55);
    }
    hide Edge;
  }

  /** The samples whose bucket is reported exactly. */
  lemma ExactSamples(ns: int)
    requires ns < LIMIT
    ensures Reported(BucketOf(ns)) == Representative(BucketOf(ns)) <==> ns < Edge(55)
    ensures Edge(55) > 0x2000_0000_0000_0000
  {
    EdgeValues();
    BucketFits(ns);
    ReportedIsExact(BucketOf(ns));
    if ns >= 100 {
      BucketBounds(ns);
      EdgeOrder(BucketOf(ns), 55);
      EdgeOrder(56, BucketOf(ns));
    }
  }

  /** The representative is off by at most half the sample it stands for. */
  lemma RepresentativeError(ns: int)
    requires 100 <= ns
    ensures var r := Representative(BucketOf(ns)) * 1000.0;
      ns as real / 2.0 <= r <= ns as real * 1.5
  {
    BucketBounds(ns);
    var b := BucketOf(ns);
    assert Edge(b) == 2 * Edge(b - 1);
  }

  /** `floor(p * n)`, with `p` as an exact real. */
  function Rank(p: real, n: nat): (t: nat)
    requires p >= 0.0
    ensures t as real <= p * n as real < t as real + 1.0
    ensures n > 0 ==> (t < n <==> p < 1.0)
  {
    RankBelow(p, n);
    FloorBelow(Product(p, n as real), n);
    Product(p, n as real).Floor
  }

  lemma FloorBelow(x: real, n: nat)
    requires x >= 0.0
    ensures x.Floor >= 0 && (x.Floor < n <==> x < n as real)
  {
    var f := x.Floor;
    assert f as real <= x < f as real + 1.0;
    assert f < n ==> f + 1 <= n && (f + 1) as real <= n as real;
    assert f >= n ==> f as real >= n as real;
  }

  function Product(a: real, b: real): real {
    a * b
  }

  lemma ProductSign(a: real, b: real)
    requires a >= 0.0 && b >= 0.0
    ensures Product(a, b) >= 0.0
    ensures a > 0.0 && b > 0.0 ==> Product(a, b) > 0.0
  {
  }

  lemma ProductDifference(a: real, b: real, x: real)
    ensures Product(a - b, x) == Product(a, x) - Product(b, x)
  {
  }

  lemma RankBelow(p: real, n: nat)
    requires p >= 0.0
    ensures 0.0 <= Product(p, n as real)
    ensures n > 0 ==> (Product(p, n as real) < n as real <==> p < 1.0)
  {
    var x := n as real;
    assert Product(1.0, x) == x;
    hide Product;
    ProductSign(p, x);
    ProductDifference(1.0, p, x);
    ProductDifference(p, 1.0, x);
    if p < 1.0 {
      ProductSign(1.0 - p, x);
    } else {
      ProductSign(p - 1.0, x);
    }
  }

  class LatencyHistogram {
    const counts: array<nat>
    var totalCount: nat
    var totalSum: int

    /** Everything recorded so far. */
    ghost var samples: seq<int>

    ghost predicate Valid()
      reads this, counts
    {
      && counts.Length == NUM_BUCKETS
      && (forall i :: 0 <= i < NUM_BUCKETS ==> counts[i] == Tally(samples, i))
      && totalCount == |samples| && totalSum == Total(samples)
      && InRange(samples)
    }

    constructor ()
      ensures Valid() && samples == [] && fresh(counts)
    {
      counts := new nat[NUM_BUCKETS](_ => 0);
      totalCount, totalSum, samples := 0, 0, [];
    }

    method Record(ns: int)
      requires Valid() && ns < LIMIT
      modifies this, counts
      ensures Valid() && samples == old(samples) + [ns]
    {
      var bucket := FindBucket(ns);
      assert (samples + [ns])[..|samples|] == samples;
      counts[bucket] := counts[bucket] + 1;
      totalCount := totalCount + 1;
      totalSum := totalSum + ns;
      samples := samples + [ns];
    }

    /**
     The accumulating loop: it stops at the bucket of the sample of rank `target`, and falls through exactly if
     there is none.
     */
    method PercentileBucket(target: nat) returns (b: nat)
      requires Valid()
      ensures b == NUM_BUCKETS <==> target >= totalCount
      ensures target < totalCount ==> b <= 56 && forall s: seq<int> :: Sorted(s) && multiset(s) == multiset(samples) ==>
        |s| == totalCount && BucketOf(s[target]) == b
    {
      BelowAll(samples);
      var cumulative := 0;
      BelowStep(samples, 0);
      b := 0;
      while b < NUM_BUCKETS
        invariant b <= NUM_BUCKETS && cumulative == Below(samples, b) <= target
        decreases NUM_BUCKETS - b
      {
        BelowStep(samples, b);
        BelowAtMost(samples, b + 1);
        cumulative := cumulative + counts[b];
        if cumulative > target {
          StopsAtRank(samples, target, b);
          return;
        }
        b := b + 1;
      }
    }

    /** For `p` of 1 or more the fall-through value is returned; otherwise the sample of that rank decides. */
    method PercentileUs(p: real) returns (us: real)
      requires Valid() && p >= 0.0
      ensures totalCount == 0 ==> us == 0.0
      ensures totalCount > 0 && p >= 1.0 ==> us == 100.0 * Pow2(NUM_BUCKETS - 2) as real / 1000.0
      ensures totalCount > 0 && p < 1.0 ==> forall s: seq<int> :: Sorted(s) && multiset(s) == multiset(samples) ==>
        |s| == totalCount && us == Reported(BucketOf(s[Rank(p, totalCount)]))
    {
      if totalCount == 0 {
        return 0.0;
      }
      var b := PercentileBucket(Rank(p, totalCount));
      if b == 0 {
        return 0.05;
      }
      if b == NUM_BUCKETS {
        return 100.0 * Pow2(NUM_BUCKETS - 2) as real / 1000.0;
      }
      var lo := Edge(b - 1);
      var hi := Edge(b);
      us := Wrap64(lo + hi) as real / 2.0 / 1000.0;
    }

    /** Merging is recording the other histogram's samples after one's own; a histogram may be merged into itself. */
    method Merge(other: LatencyHistogram)
      requires Valid() && other.Valid() && (other != this ==> other.counts != counts)
      modifies this, counts
      ensures Valid() && samples == old(samples) + old(other.samples)
    {
      ghost var mine, theirs := samples, other.samples;
      for i := 0 to NUM_BUCKETS
        invariant forall j :: 0 <= j < i ==> counts[j] == Tally(mine + theirs, j)
        invariant forall j :: i <= j < NUM_BUCKETS ==> counts[j] == Tally(mine, j)
        invariant forall j :: i <= j < NUM_BUCKETS ==> other.counts[j] == Tally(theirs, j)
        invariant unchanged(this) && unchanged(other)
      {
        CountsAdd(mine, theirs, i);
        counts[i] := counts[i] + other.counts[i];
      }
      CountsAdd(mine, theirs, 0);
      totalCount := totalCount + other.totalCount;
      totalSum := totalSum + other.totalSum;
      samples := mine + theirs;
    }
  }

  lemma StopsAtRank(xs: seq<int>, t: nat, b: nat)
    requires InRange(xs) && t < |xs| && Below(xs, b) <= t < Below(xs, b + 1)
    ensures b <= 56 && forall s: seq<int> :: Sorted(s) && multiset(s) == multiset(xs) ==>
      |s| == |xs| && BucketOf(s[t]) == b
  {
    forall s: seq<int> | Sorted(s) && multiset(s) == multiset(xs) ensures |s| == |xs| && BucketOf(s[t]) == b {
      BelowPermutes(s, xs, b);
      RankInBucket(xs, s, t, b);
    }
    if b > 56 {
      BelowEnds(xs, b);
    }
  }

  lemma {:induction false} BelowEnds(xs: seq<int>, b: nat)
    requires InRange(xs) && b > 56
    ensures Below(xs, b) == |xs|
  {
    if xs != [] {
      var n := |xs| - 1;
      BucketFits(xs[n]);
      BelowEnds(xs[..n], b);
    }
  }
}
