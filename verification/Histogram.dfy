/**
  The latency histogram of histogram.hpp: powers of two as buckets, and percentiles read from
  the midpoints of buckets against the order statistics of the latencies themselves. The
  percentile is a real number here, where the source has a double.
 */
module Histogram {
  import opened Bitwise
  import opened Bytes

  const NUM_BUCKETS: nat := 64

  /** A latency of 64 bits. */
  predicate Word(x: nat) {
    x < WORD
  }

  /** Leading zeros of x in a word of w bits: what is left of the word starts with its top bit. */
  function LeadingZeros(x: nat, w: nat): (z: nat)
    requires x < Pow2(w)
    ensures z <= w && x < Pow2(w - z) && (x > 0 ==> z < w && Pow2(w - z - 1) <= x)
    decreases w
  {
    if w == 0 || x >= Pow2(w - 1) then 0 else 1 + LeadingZeros(x, w - 1)
  }

  function BucketFor(x: nat): (b: nat)
    requires Word(x)
    ensures b < NUM_BUCKETS
  {
    if x <= 1 then 0
    else
      WordSize();
      var msb := 63 - LeadingZeros(x, NUM_BUCKETS);
      if msb < NUM_BUCKETS - 1 then msb else NUM_BUCKETS - 1
  }

  function BucketMin(b: nat): nat {
    if b == 0 then 0 else Pow2(b)
  }

  function BucketMax(b: nat): nat {
    if b == 63 then 0xFFFF_FFFF_FFFF_FFFF else Pow2(b + 1) - 1
  }

  /** The value a bucket answers with. */
  function Middle(b: nat): nat {
    BucketMin(b) + Pow2(b) / 2
  }

  lemma WordSize()
    ensures Pow2(64) == WORD
  {
    assert Pow2(8) == 0x100 && Pow2(16) == 0x1_0000 && Pow2(24) == 0x100_0000;
    assert Pow2(32) == 0x1_0000_0000 && Pow2(40) == 0x100_0000_0000 && Pow2(48) == 0x1_0000_0000_0000;
    assert Pow2(56) == 0x100_0000_0000_0000;
  }

  /** The bucket of a latency is the one whose bounds contain it. */
  lemma BucketHolds(x: nat, b: nat)
    requires Word(x) && b < NUM_BUCKETS
    ensures BucketFor(x) == b <==> BucketMin(b) <= x <= BucketMax(b)
  {
    hide LeadingZeros, Pow2;
    WordSize();
    Small();
    var c := BucketFor(x);
    assert (x > 1 ==> Pow2(c) <= x) && x < Pow2(c + 1);
    Pow2Grows(b + 1, c);
    Pow2Grows(c + 1, b);
  }

  lemma Small()
    ensures Pow2(0) == 1 && Pow2(1) == 2
  {}

  lemma MiddleValue(b: nat)
    ensures b > 0 ==> Middle(b) == 3 * Pow2(b - 1) && Pow2(b) == 2 * Pow2(b - 1)
    ensures b == 0 ==> Middle(b) == 0
  {}

  lemma MiddleRises(b: nat, c: nat)
    ensures b < c <==> Middle(b) < Middle(c)
  {
    hide Middle;
    if b < c {
      MiddleBelow(b, c);
    } else if c < b {
      MiddleBelow(c, b);
    }
  }

  lemma MiddleBelow(b: nat, c: nat)
    requires b < c
    ensures Middle(b) < Middle(c)
  {
    MiddleValue(b);
    MiddleValue(c);
    if b > 0 {
      Pow2Grows(b, c - 1);
    }
  }

  /** The answer for a latency's bucket lies in that bucket, is 64 bits wide, and within -25% and +50%. */
  lemma MiddleIsClose(x: nat)
    requires Word(x)
    ensures var m := Middle(BucketFor(x));
            && Word(m) && BucketFor(m) == BucketFor(x)
            && (x >= 2 ==> 3 * x < 4 * m && 2 * m <= 3 * x)
            && (x < 2 ==> m == 0)
  {
    hide LeadingZeros;
    var b := BucketFor(x);
    BucketHolds(x, b);
    MiddleValue(b);
    Pow2Grows(b, 63);
    WordSize();
    if x >= 2 {
      hide Pow2;
      Small();
      assert b > 0;
      assert Pow2(b + 1) == 2 * Pow2(b) by { Doubles(b); }
      assert Pow2(64) == 2 * Pow2(63) by { Doubles(63); }
    }
    BucketHolds(Middle(b), b);
  }

  lemma Doubles(b: nat)
    ensures Pow2(b + 1) == 2 * Pow2(b)
  {}

  // ---------------------------------------------------------------- order statistics

  function CountBelow(s: seq<nat>, v: nat): (n: nat)
    ensures n <= |s|
  {
    if s == [] then 0 else CountBelow(s[..|s| - 1], v) + if s[|s| - 1] < v then 1 else 0
  }

  /** v is the value at place i, counted from zero, once s is sorted. */
  predicate IsNth(s: seq<nat>, i: nat, v: nat) {
    CountBelow(s, v) <= i < CountBelow(s, v + 1)
  }

  lemma {:induction false} CountRises(s: seq<nat>, v: nat, w: nat)
    requires v <= w
    ensures CountBelow(s, v) <= CountBelow(s, w)
  {
    if s != [] {
      CountRises(s[..|s| - 1], v, w);
    }
  }

  /** Order statistics rise with their place; so there is at most one for each place. */
  lemma NthRises(s: seq<nat>, i: nat, v: nat, j: nat, w: nat)
    requires i <= j && IsNth(s, i, v) && IsNth(s, j, w)
    ensures v <= w
  {
    if w < v {
      CountRises(s, w + 1, v);
    }
  }

  lemma {:induction false} CountAll(s: seq<nat>, v: nat)
    requires forall k :: 0 <= k < |s| ==> s[k] < v
    ensures CountBelow(s, v) == |s|
  {
    if s != [] {
      CountAll(s[..|s| - 1], v);
    }
  }

  lemma {:induction false} CountNone(s: seq<nat>, v: nat)
    requires forall k :: 0 <= k < |s| ==> s[k] >= v
    ensures CountBelow(s, v) == 0
  {
    if s != [] {
      CountNone(s[..|s| - 1], v);
    }
  }

  lemma {:induction false} CountConcat(s: seq<nat>, t: seq<nat>, v: nat)
    ensures CountBelow(s + t, v) == CountBelow(s, v) + CountBelow(t, v)
    decreases |t|
  {
    if t == [] {
      assert s + t == s;
    } else {
      assert (s + t)[..|s + t| - 1] == s + t[..|t| - 1];
      CountConcat(s, t[..|t| - 1], v);
    }
  }

  predicate Ascending(s: seq<nat>) {
    forall i, j :: 0 <= i < j < |s| ==> s[i] <= s[j]
  }

  /** In an ascending sequence the value at a place is the order statistic of that place. */
  lemma AscendingNth(s: seq<nat>, i: nat)
    requires Ascending(s) && i < |s|
    ensures IsNth(s, i, s[i])
  {
    assert s == s[..i] + s[i..] && s == s[..i + 1] + s[i + 1..];
    CountConcat(s[..i], s[i..], s[i]);
    CountNone(s[i..], s[i]);
    CountConcat(s[..i + 1], s[i + 1..], s[i] + 1);
    CountAll(s[..i + 1], s[i] + 1);
  }

  lemma {:induction false} NthExists(s: seq<nat>, i: nat, v: nat, top: nat) returns (n: nat)
    requires i < |s| && CountBelow(s, v) <= i && v <= top && forall k :: 0 <= k < |s| ==> s[k] < top
    ensures IsNth(s, i, n)
    decreases top - v
  {
    if v == top {
      CountAll(s, v);
      n := v;
    } else if i < CountBelow(s, v + 1) {
      n := v;
    } else {
      n := NthExists(s, i, v + 1, top);
    }
  }

  // ---------------------------------------------------------------- counters and samples

  /** The counters after the given latencies were recorded. */
  function Counts(xs: seq<nat>): (c: seq<nat>)
    requires forall x :: x in xs ==> Word(x)
    ensures |c| == NUM_BUCKETS
  {
    if xs == [] then seq(NUM_BUCKETS, _ => 0)
    else
      var c, b := Counts(xs[..|xs| - 1]), BucketFor(xs[|xs| - 1]);
      c[b := c[b] + 1]
  }

  function Repeat(v: nat, n: nat): (s: seq<nat>)
    ensures |s| == n && forall k :: 0 <= k < n ==> s[k] == v
  {
    if n == 0 then [] else Repeat(v, n - 1) + [v]
  }

  /** The samples the percentile is read from, for the first n buckets. */
  function Samples(counts: seq<nat>, n: nat): seq<nat>
    requires n <= |counts|
  {
    if n == 0 then [] else Samples(counts, n - 1) + Repeat(Middle(n - 1), counts[n - 1])
  }

  /** What each latency is taken for. */
  function Rounded(xs: seq<nat>): (s: seq<nat>)
    requires forall x :: x in xs ==> Word(x)
    ensures |s| == |xs|
  {
    if xs == [] then [] else Rounded(xs[..|xs| - 1]) + [Middle(BucketFor(xs[|xs| - 1]))]
  }

  lemma {:induction false} SamplesPlusOne(counts: seq<nat>, b: nat, n: nat, v: nat)
    requires b < |counts| && n <= |counts|
    ensures var more := Samples(counts[b := counts[b] + 1], n);
            && CountBelow(more, v) == CountBelow(Samples(counts, n), v) + (if b < n && Middle(b) < v then 1 else 0)
            && |more| == |Samples(counts, n)| + (if b < n then 1 else 0)
    decreases n
  {
    hide Middle, CountBelow, Repeat;
    if n > 0 {
      var counts' := counts[b := counts[b] + 1];
      SamplesPlusOne(counts, b, n - 1, v);
      CountConcat(Samples(counts, n - 1), Repeat(Middle(n - 1), counts[n - 1]), v);
      CountConcat(Samples(counts', n - 1), Repeat(Middle(n - 1), counts'[n - 1]), v);
      if b == n - 1 {
        RepeatMore(Middle(b), counts[b]);
        CountConcat(Repeat(Middle(b), counts[b]), [Middle(b)], v);
        CountOne(Middle(b), v);
      }
    }
  }

  lemma RepeatMore(v: nat, n: nat)
    ensures Repeat(v, n + 1) == Repeat(v, n) + [v]
  {}

  lemma CountOne(x: nat, v: nat)
    ensures CountBelow([x], v) == if x < v then 1 else 0
  {
    assert [x][..0] == [];
  }

  lemma {:induction false} SamplesOfNone(counts: seq<nat>, n: nat)
    requires n <= |counts| && forall b :: 0 <= b < n ==> counts[b] == 0
    ensures Samples(counts, n) == []
    decreases n
  {
    if n > 0 {
      SamplesOfNone(counts, n - 1);
    }
  }

  lemma CountsMore(front: seq<nat>, x: nat)
    requires Word(x) && forall y :: y in front ==> Word(y)
    ensures var c, b := Counts(front), BucketFor(x); Counts(front + [x]) == c[b := c[b] + 1]
  {
    hide BucketFor;
    assert (front + [x])[..|front|] == front && (front + [x])[|front|] == x;
  }

  lemma RoundedMore(front: seq<nat>, x: nat)
    requires Word(x) && forall y :: y in front ==> Word(y)
    ensures Rounded(front + [x]) == Rounded(front) + [Middle(BucketFor(x))]
  {
    hide BucketFor, Middle;
    assert (front + [x])[..|front|] == front && (front + [x])[|front|] == x;
  }

  /** The samples are, but for their order, the latencies each taken for its bucket's middle. */
  lemma {:induction false} SamplesAreRounded(xs: seq<nat>, v: nat)
    requires forall x :: x in xs ==> Word(x)
    ensures CountBelow(Samples(Counts(xs), NUM_BUCKETS), v) == CountBelow(Rounded(xs), v)
    ensures |Samples(Counts(xs), NUM_BUCKETS)| == |xs|
    decreases |xs|
  {
    hide *;
    if xs == [] {
      NothingRecorded();
    } else {
      var front, x := xs[..|xs| - 1], xs[|xs| - 1];
      assert xs == front + [x];
      CountsMore(front, x);
      RoundedMore(front, x);
      SamplesAreRounded(front, v);
      SamplesPlusOne(Counts(front), BucketFor(x), NUM_BUCKETS, v);
      CountConcat(Rounded(front), [Middle(BucketFor(x))], v);
      CountOne(Middle(BucketFor(x)), v);
    }
  }

  lemma NothingRecorded()
    ensures Samples(Counts([]), NUM_BUCKETS) == Rounded([]) == []
  {
    hide Samples;
    SamplesOfNone(Counts([]), NUM_BUCKETS);
  }

  lemma BucketRises(x: nat, y: nat)
    requires Word(x) && Word(y) && x <= y
    ensures BucketFor(x) <= BucketFor(y)
  {
    hide LeadingZeros;
    var b, c := BucketFor(x), BucketFor(y);
    BucketHolds(x, b);
    BucketHolds(y, c);
    Pow2Grows(c + 1, b);
  }

  // Rounding keeps the order, so the middles below that of v come from latencies below v.
  lemma {:induction false} RoundedCounts(xs: seq<nat>, v: nat)
    requires Word(v) && forall x :: x in xs ==> Word(x)
    ensures CountBelow(Rounded(xs), Middle(BucketFor(v))) <= CountBelow(xs, v)
    ensures CountBelow(Rounded(xs), Middle(BucketFor(v)) + 1) >= CountBelow(xs, v + 1)
    decreases |xs|
  {
    if xs != [] {
      hide BucketFor, Middle;
      var front, x := xs[..|xs| - 1], xs[|xs| - 1];
      RoundedCounts(front, v);
      var m := Middle(BucketFor(x));
      assert Rounded(xs)[..|xs| - 1] == Rounded(front);
      if x < v {
        BucketRises(x, v);
        MiddleRises(BucketFor(v), BucketFor(x));
      } else {
        BucketRises(v, x);
        MiddleRises(BucketFor(x), BucketFor(v));
      }
      if x == v {
        assert m == Middle(BucketFor(v));
      }
    }
  }

  /** Sorted, the samples have at each place the middle of the bucket of the latency at that place. */
  lemma NthOfSamples(xs: seq<nat>, i: nat, v: nat)
    requires (forall x :: x in xs ==> Word(x)) && Word(v) && IsNth(xs, i, v)
    ensures IsNth(Samples(Counts(xs), NUM_BUCKETS), i, Middle(BucketFor(v)))
  {
    hide Samples, Counts, BucketFor, Middle;
    RoundedCounts(xs, v);
    SamplesAreRounded(xs, Middle(BucketFor(v)));
    SamplesAreRounded(xs, Middle(BucketFor(v)) + 1);
  }

  function Exact(percentile: real, n: nat): real {
    (percentile / 100.0) * (n as real)
  }

  /** Where the language gives the conversion of the product to size_t a value: cut toward zero, it fits. */
  predicate Defined(percentile: real, n: nat) {
    -1.0 < Exact(percentile, n) < WORD as real
  }

  /** The place a percentile names among n samples, never past the last. */
  function Place(percentile: real, n: nat): (i: nat)
    requires n > 0 && Defined(percentile, n)
    ensures i < n
  {
    var x := Exact(percentile, n);
    var i := if x < 0.0 then 0 else x.Floor;
    if i >= n then n - 1 else i
  }

  lemma PlaceRises(p: real, q: real, n: nat)
    requires p <= q && n > 0 && Defined(p, n) && Defined(q, n)
    ensures Place(p, n) <= Place(q, n)
  {
    ExactRises(p / 100.0, q / 100.0, n as real);
    assert Exact(p, n) <= Exact(q, n);
  }

  lemma ExactRises(x: real, y: real, m: real)
    requires x <= y && m > 0.0
    ensures x * m <= y * m
  {
    assert (y - x) * m >= 0.0;
  }

  /** What the latencies make of a percentile: zero of none, else an order statistic of the samples. */
  ghost predicate IsPercentile(xs: seq<nat>, p: real, r: nat)
    requires (xs == [] || Defined(p, |xs|)) && forall x :: x in xs ==> Word(x)
  {
    if xs == [] then r == 0 else IsNth(Samples(Counts(xs), NUM_BUCKETS), Place(p, |xs|), r)
  }

  /**
    A percentile lies in the power-of-two bucket of the latency truly at its place, so for one of
    two or more between three quarters and three halves of it, and it fits 64 bits.
   */
  lemma PercentileIsClose(xs: seq<nat>, p: real, r: nat, v: nat)
    requires xs != [] && Defined(p, |xs|) && (forall x :: x in xs ==> Word(x)) && Word(v)
    ensures IsPercentile(xs, p, r) && IsNth(xs, Place(p, |xs|), v) ==>
      && Word(r) && BucketFor(r) == BucketFor(v)
      && (v >= 2 ==> 3 * v < 4 * r && 2 * r <= 3 * v)
  {
    hide Samples, Counts, BucketFor, Middle;
    var i, s := Place(p, |xs|), Samples(Counts(xs), NUM_BUCKETS);
    if IsPercentile(xs, p, r) && IsNth(xs, i, v) {
      NthOfSamples(xs, i, v);
      NthRises(s, i, r, i, Middle(BucketFor(v)));
      NthRises(s, i, Middle(BucketFor(v)), i, r);
      MiddleIsClose(v);
    }
  }

  /** A higher percentile is never smaller. */
  lemma PercentileRises(xs: seq<nat>, p: real, r: nat, q: real, t: nat)
    requires p <= q && (xs == [] || (Defined(p, |xs|) && Defined(q, |xs|)))
    requires forall x :: x in xs ==> Word(x)
    ensures IsPercentile(xs, p, r) && IsPercentile(xs, q, t) ==> r <= t
  {
    if xs != [] && IsPercentile(xs, p, r) && IsPercentile(xs, q, t) {
      hide Samples, Counts;
      PlaceRises(p, q, |xs|);
      NthRises(Samples(Counts(xs), NUM_BUCKETS), Place(p, |xs|), r, Place(q, |xs|), t);
    }
  }

  // ---------------------------------------------------------------- which latency a percentile is

  lemma ExactRange(p: real, n: nat)
    requires n > 0
    ensures Exact(p, n) == p * n as real / 100.0
    ensures p < 0.0 ==> Exact(p, n) < 0.0
    ensures 0.0 <= p < 100.0 ==> 0.0 <= Exact(p, n) < n as real
    ensures p >= 100.0 ==> Exact(p, n) >= n as real
  {
    var q, m := p / 100.0, n as real;
    assert q < 0.0 ==> (0.0 - q) * m > 0.0;
    assert q >= 0.0 ==> q * m >= 0.0;
    assert q < 1.0 ==> (1.0 - q) * m > 0.0;
    assert q >= 1.0 ==> (q - 1.0) * m >= 0.0;
  }

  lemma FloorBetween(x: real, n: nat)
    ensures x.Floor as real <= x < x.Floor as real + 1.0
    ensures x < n as real ==> x.Floor < n
    ensures x >= n as real ==> x.Floor >= n
  {}

  /** The place a percentile names: that share of n, rounded down, within 0 and n - 1. */
  lemma PlaceIs(p: real, n: nat)
    requires n > 0 && Defined(p, n)
    ensures 0.0 <= p < 100.0 ==> Place(p, n) as real <= p * n as real / 100.0 < Place(p, n) as real + 1.0
    ensures p >= 100.0 ==> Place(p, n) == n - 1
    ensures p < 0.0 ==> Place(p, n) == 0
  {
    hide Exact;
    ExactRange(p, n);
    FloorBetween(Exact(p, n), n);
  }

  /** An order statistic occurs in the sequence. */
  lemma {:induction false} NthOccurs(s: seq<nat>, i: nat, v: nat)
    requires CountBelow(s, v) < CountBelow(s, v + 1)
    ensures v in s
  {
    var last := |s| - 1;
    if s[last] != v {
      NthOccurs(s[..last], i, v);
    }
  }

  lemma {:induction false} NoneBelow(s: seq<nat>, v: nat, k: nat)
    requires CountBelow(s, v) == 0 && k < |s|
    ensures s[k] >= v
  {
    if k < |s| - 1 {
      NoneBelow(s[..|s| - 1], v, k);
    }
  }

  lemma {:induction false} AllBelow(s: seq<nat>, v: nat, k: nat)
    requires CountBelow(s, v) == |s| && k < |s|
    ensures s[k] < v
  {
    if k < |s| - 1 {
      AllBelow(s[..|s| - 1], v, k);
    }
  }

  // v is the latency that percentile p of the latencies asks for, said of their numbers alone.
  ghost predicate IsShare(xs: seq<nat>, p: real, v: nat) {
    && v in xs
    && (0.0 <= p < 100.0 ==>
          CountBelow(xs, v) as real <= p * |xs| as real / 100.0 < CountBelow(xs, v + 1) as real)
    && (p >= 100.0 ==> forall x :: x in xs ==> x <= v)
    && (p < 0.0 ==> forall x :: x in xs ==> v <= x)
  }

  lemma NthIsShare(xs: seq<nat>, p: real, v: nat)
    requires xs != [] && Defined(p, |xs|) && IsNth(xs, Place(p, |xs|), v)
    ensures IsShare(xs, p, v)
  {
    hide CountBelow, Place, Defined, Exact;
    PlaceIs(p, |xs|);
    NthOccurs(xs, Place(p, |xs|), v);
    forall x | x in xs ensures (p >= 100.0 ==> x <= v) && (p < 0.0 ==> v <= x) {
      var k: nat :| k < |xs| && xs[k] == x;
      if p >= 100.0 {
        AllBelow(xs, v + 1, k);
      }
      if p < 0.0 {
        NoneBelow(xs, v, k);
      }
    }
  }

  /**
    Every percentile lies in the bucket of a latency below which, and up to which, there are as many
    latencies as it asks for; of the largest from 100 on, and of the smallest below 0.
   */
  lemma PercentileIsShare(xs: seq<nat>, p: real, r: nat) returns (v: nat)
    requires xs != [] && Defined(p, |xs|) && (forall x :: x in xs ==> Word(x)) && IsPercentile(xs, p, r)
    ensures IsShare(xs, p, v) && Word(v) && Word(r) && BucketFor(r) == BucketFor(v)
  {
    hide CountBelow, Samples, Counts, BucketFor, Middle, Defined, Place;
    NothingBelowZero(xs);
    forall k | 0 <= k < |xs| ensures xs[k] < WORD {
      assert xs[k] in xs;
    }
    v := NthExists(xs, Place(p, |xs|), 0, WORD);
    NthIsShare(xs, p, v);
    PercentileIsClose(xs, p, r, v);
  }

  lemma {:induction false} NothingBelowZero(s: seq<nat>)
    ensures CountBelow(s, 0) == 0
  {
    CountNone(s, 0);
  }

  class LatencyHistogram {
    const buckets: array<nat>
    var totalCount: nat
    ghost var latencies: seq<nat>   // all recorded since the last reset

    ghost predicate Valid()
      reads this, buckets
    {
      && (forall x :: x in latencies ==> Word(x))
      && buckets.Length == NUM_BUCKETS && buckets[..] == Counts(latencies)
      && totalCount == |latencies|
    }

    constructor ()
      ensures Valid() && latencies == [] && fresh(buckets)
    {
      buckets := new nat[NUM_BUCKETS](_ => 0);
      totalCount, latencies := 0, [];
    }

    method Record(latency: nat)
      requires Valid() && Word(latency)
      modifies this, buckets
      ensures Valid() && latencies == old(latencies) + [latency]
    {
      hide BucketFor, Pow2;
      var b := BucketFor(latency);
      buckets[b] := buckets[b] + 1;
      totalCount := totalCount + 1;
      latencies := latencies + [latency];
      assert latencies[..|latencies| - 1] == old(latencies);
      assert buckets[..] == old(buckets[..])[b := old(buckets[b]) + 1];
    }

    method CalculatePercentile(percentile: real) returns (r: nat)
      requires Valid() && (latencies == [] || Defined(percentile, |latencies|))
      ensures IsPercentile(latencies, percentile, r)
      ensures latencies == [] ==> r == 0
      ensures latencies != [] ==>
        exists v :: IsShare(latencies, percentile, v) && Word(v) && Word(r) && BucketFor(r) == BucketFor(v)
      ensures latencies != [] ==>
        forall v :: Word(v) && IsNth(latencies, Place(percentile, |latencies|), v) ==>
          Word(r) && BucketFor(r) == BucketFor(v)
    {
      hide Counts, BucketFor, Pow2, Middle, Place, Defined;
      if totalCount == 0 {
        return 0;
      }
      var samples: seq<nat> := CollectSamples();
      SamplesAreRounded(latencies, 0);
      var place := Place(percentile, |samples|);
      // nth_element on an ascending vector leaves the same value where it was
      AscendingNth(samples, place);
      r := samples[place];
      forall v | Word(v) && IsNth(latencies, place, v) ensures Word(r) && BucketFor(r) == BucketFor(v) {
        PercentileIsClose(latencies, percentile, r, v);
      }
      var _ := PercentileIsShare(latencies, percentile, r);
    }

    method CollectSamples() returns (samples: seq<nat>)
      requires Valid()
      ensures samples == Samples(Counts(latencies), NUM_BUCKETS) && Ascending(samples)
    {
      hide Counts, Pow2, Middle;
      ghost var counts := buckets[..];
      samples := [];
      var b := 0;
      while b < NUM_BUCKETS
        invariant 0 <= b <= NUM_BUCKETS && samples == Samples(counts, b) && Ascending(samples)
        invariant forall x :: x in samples ==> exists k: nat :: k < b && x == Middle(k)
      {
        var i := 0;
        while i < buckets[b]
          invariant 0 <= i <= counts[b] && samples == Samples(counts, b) + Repeat(Middle(b), i)
        {
          samples := samples + [Middle(b)];
          i := i + 1;
        }
        StillAscending(Samples(counts, b), b, i);
        b := b + 1;
      }
    }

    static lemma StillAscending(s: seq<nat>, b: nat, n: nat)
      requires Ascending(s) && forall x :: x in s ==> exists k: nat :: k < b && x == Middle(k)
      ensures Ascending(s + Repeat(Middle(b), n))
      ensures forall x :: x in s + Repeat(Middle(b), n) ==> exists k: nat :: k < b + 1 && x == Middle(k)
    {
      hide Middle;
      forall x | x in s ensures x < Middle(b) {
        var k: nat :| k < b && x == Middle(k);
        MiddleRises(k, b);
      }
      var t := s + Repeat(Middle(b), n);
      forall i, j | 0 <= i < j < |t| ensures t[i] <= t[j] {
        assert t[i] == (if i < |s| then s[i] else Middle(b));
        assert t[j] == (if j < |s| then s[j] else Middle(b));
        assert i < |s| ==> s[i] in s;
      }
    }

    method Reset()
      requires Valid()
      modifies this, buckets
      ensures Valid() && latencies == []
    {
      var i := 0;
      while i < NUM_BUCKETS
        invariant 0 <= i <= NUM_BUCKETS
        invariant forall k :: 0 <= k < i ==> buckets[k] == 0
      {
        buckets[i] := 0;
        i := i + 1;
      }
      totalCount, latencies := 0, [];
      assert buckets[..] == Counts([]);
    }
  }
}
