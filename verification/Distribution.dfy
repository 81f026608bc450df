/** Counting elapsed times: coarse buckets, and percentiles from a histogram of one-millisecond cells. */
module Distribution {
  import opened Wrappers
  import StableSort

  const BOUNDS: seq<int> := [100, 300, 500, 1_000, 3_000, 5_000, 10_000]
  const CAP: int := 30_000

  /** What is counted of a transaction. */
  datatype Sample = Sample(elapsed: int, failed: bool)

  datatype ElapsedBucket = ElapsedBucket(lt: Option<int>, count: nat, error: nat)

  datatype ElapsedDistribution = ElapsedDistribution(
    buckets: seq<ElapsedBucket>, total: nat, error: nat, sum: nat, max: nat,
    p50: int, p90: int, p99: int, cap: int, truncated: bool)

  // What the numbers of a distribution mean, for the samples as they came

  /** A clock that was set back gives negative times; they count as 0. */
  function Time(s: Sample): nat {
    Max(s.elapsed, 0)
  }

  /** The `b`-th bucket holds the times from the bound before it up to, but not including, its own. */
  predicate InBucket(b: nat, ms: nat)
    requires b <= |BOUNDS|
  {
    (b == 0 || BOUNDS[b - 1] <= ms) && (b == |BOUNDS| || ms < BOUNDS[b])
  }

  function CountBucket(ss: seq<Sample>, b: nat): nat
    requires b <= |BOUNDS|
  {
    if ss == [] then 0
    else CountBucket(ss[..|ss| - 1], b) + if InBucket(b, Time(ss[|ss| - 1])) then 1 else 0
  }

  function CountFailed(ss: seq<Sample>, b: nat): nat
    requires b <= |BOUNDS|
  {
    if ss == [] then 0
    else CountFailed(ss[..|ss| - 1], b) + if ss[|ss| - 1].failed && InBucket(b, Time(ss[|ss| - 1])) then 1 else 0
  }

  function Failures(ss: seq<Sample>): nat {
    if ss == [] then 0 else Failures(ss[..|ss| - 1]) + if ss[|ss| - 1].failed then 1 else 0
  }

  function SumTimes(ss: seq<Sample>): nat {
    if ss == [] then 0 else SumTimes(ss[..|ss| - 1]) + Time(ss[|ss| - 1])
  }

  /** The longest time, or 0. */
  ghost predicate IsLongest(ss: seq<Sample>, m: nat) {
    && (forall i :: 0 <= i < |ss| ==> Time(ss[i]) <= m)
    && (m == 0 || exists i :: 0 <= i < |ss| && Time(ss[i]) == m)
  }

  function Longest(ss: seq<Sample>): nat {
    if ss == [] then 0 else Max(Longest(ss[..|ss| - 1]), Time(ss[|ss| - 1]))
  }

  lemma {:induction false} LongestIsLongest(ss: seq<Sample>)
    ensures IsLongest(ss, Longest(ss))
  {
    if ss == [] {
    } else {
      var n := |ss| - 1;
      LongestIsLongest(ss[..n]);
      if Longest(ss) == Time(ss[n]) {
        assert Time(ss[n]) == Longest(ss);
      } else if Longest(ss) > 0 {
        var i :| 0 <= i < n && Time(ss[..n][i]) == Longest(ss);
        assert Time(ss[i]) == Longest(ss);
      }
    }
  }

  /** The times the percentiles are taken from: nothing slower than the cap. */
  function Capped(ss: seq<Sample>): (es: seq<nat>)
    ensures |es| == |ss| && forall i :: 0 <= i < |es| ==> es[i] == Min(Time(ss[i]), CAP)
  {
    if ss == [] then [] else Capped(ss[..|ss| - 1]) + [Min(Time(ss[|ss| - 1]), CAP)]
  }

  function Equal(es: seq<nat>, v: int): nat {
    if es == [] then 0 else Equal(es[..|es| - 1], v) + if es[|es| - 1] == v then 1 else 0
  }

  function AtMost(es: seq<nat>, v: int): nat {
    if es == [] then 0 else AtMost(es[..|es| - 1], v) + if es[|es| - 1] <= v then 1 else 0
  }

  /** How many of `n` values make up `p` percent, rounded up, and at least one. */
  function Need(n: nat, p: nat): nat {
    Max((n * p + 99) / 100, 1)
  }

  /** The smallest value that at least `p` percent of the values do not exceed. */
  ghost predicate IsPercentile(es: seq<nat>, p: nat, v: int) {
    v >= 0 && AtMost(es, v) >= Need(|es|, p) && AtMost(es, v - 1) < Need(|es|, p)
  }

  // Counting at most

  lemma {:induction false} AtMostNext(es: seq<nat>, v: int)
    ensures AtMost(es, v) == AtMost(es, v - 1) + Equal(es, v)
  {
    if es == [] {
    } else {
      AtMostNext(es[..|es| - 1], v);
    }
  }

  lemma {:induction false} AtMostGrows(es: seq<nat>, u: int, v: int)
    requires u <= v
    ensures AtMost(es, u) <= AtMost(es, v) <= |es|
  {
    if es == [] {
    } else {
      AtMostGrows(es[..|es| - 1], u, v);
    }
  }

  lemma {:induction false} AtMostNone(es: seq<nat>)
    ensures AtMost(es, -1) == 0
  {
    if es == [] {
    } else {
      AtMostNone(es[..|es| - 1]);
    }
  }

  lemma {:induction false} AtMostAll(es: seq<nat>, v: int)
    requires forall i :: 0 <= i < |es| ==> es[i] <= v
    ensures AtMost(es, v) == |es|
  {
    if es == [] {
    } else {
      AtMostAll(es[..|es| - 1], v);
    }
  }

  lemma {:induction false} AtMostConcat(a: seq<nat>, b: seq<nat>, v: int)
    ensures AtMost(a + b, v) == AtMost(a, v) + AtMost(b, v)
  {
    if b == [] {
      assert a + b == a;
    } else {
      assert (a + b)[..|a + b| - 1] == a + b[..|b| - 1];
      AtMostConcat(a, b[..|b| - 1], v);
    }
  }

  lemma {:induction false} AtMostPermuted(a: seq<nat>, b: seq<nat>, v: int)
    requires multiset(a) == multiset(b)
    ensures AtMost(a, v) == AtMost(b, v)
  {
    if a == [] {
      assert |multiset(b)| == |b|;
    } else {
      var n := |a| - 1;
      StableSort.MultisetOfFront(a);
      var i := StableSort.SplitAt(b, a[n]);
      var before, x, after := b[..i], [b[i]], b[i + 1..];
      AtMostPermuted(a[..n], before + after, v);
      AtMostConcat(before, after, v);
      AtMostConcat(before + x, after, v);
      AtMostConcat(before, x, v);
      assert x[..0] == [];
    }
  }

  ghost predicate Ascending(xs: seq<nat>) {
    forall i, j :: 0 <= i < j < |xs| ==> xs[i] <= xs[j]
  }

  /** In ascending order the first `k` values do not exceed `v` exactly when the `k`-th does not. */
  lemma {:induction false} AtMostAscending(xs: seq<nat>, v: int, k: nat)
    requires Ascending(xs) && 1 <= k <= |xs|
    ensures AtMost(xs, v) >= k <==> xs[k - 1] <= v
  {
    var n := |xs| - 1;
    AtMostGrows(xs[..n], v, v);
    if k <= n {
      AtMostAscending(xs[..n], v, k);
    } else if xs[n] <= v {
      AtMostAll(xs[..n], v);
    }
  }

  // What a percentile is

  /** Rounding up never asks for more than there is. */
  lemma NeedFits(n: nat, p: nat)
    requires n > 0 && p <= 100
    ensures 1 <= Need(n, p) <= n
  {
    var m := n * p;
    assert m <= n * 100;
    assert (m + 99) / 100 <= n;
  }

  /** The percentile is the value at rank ceil(p n / 100) of the values in ascending order. */
  lemma PercentileIsRank(es: seq<nat>, xs: seq<nat>, p: nat, v: int)
    requires es != [] && p <= 100 && Ascending(xs) && multiset(xs) == multiset(es)
    ensures |xs| == |es| && 1 <= Need(|es|, p) <= |xs|
    ensures IsPercentile(es, p, v) <==> v == xs[Need(|es|, p) - 1]
  {
    assert |multiset(xs)| == |xs| && |multiset(es)| == |es|;
    NeedFits(|es|, p);
    AtMostPermuted(xs, es, v);
    AtMostPermuted(xs, es, v - 1);
    AtMostAscending(xs, v, Need(|es|, p));
    AtMostAscending(xs, v - 1, Need(|es|, p));
  }

  lemma NeedGrows(n: nat, p: nat, q: nat)
    requires p <= q
    ensures Need(n, p) <= Need(n, q)
  {
    assert n * p <= n * q;
  }

  lemma PercentilesAscend(es: seq<nat>, p: nat, v: int, q: nat, w: int)
    requires p <= q && IsPercentile(es, p, v) && IsPercentile(es, q, w)
    ensures v <= w
  {
    NeedGrows(|es|, p, q);
    if w < v {
      AtMostGrows(es, w, v - 1);
    }
  }

  /** With at least one value the search below always finds a cell: the value after its loop is never
      returned. */
  lemma FallThroughUnreachable(es: seq<nat>, p: nat)
    requires es != [] && p <= 100 && forall i :: 0 <= i < |es| ==> es[i] <= CAP
    ensures AtMost(es, CAP) >= Need(|es|, p)
  {
    NeedFits(|es|, p);
    AtMostAll(es, CAP);
  }

  /** Adds up cells until `p` percent are reached. */
  method Percentile(fine: array<nat>, total: nat, p: nat, ghost es: seq<nat>) returns (v: int)
    requires fine.Length == CAP + 1 && total == |es| && p <= 100
    requires forall i :: 0 <= i < |es| ==> es[i] <= CAP
    requires forall ms :: 0 <= ms <= CAP ==> fine[ms] == Equal(es, ms)
    ensures total == 0 ==> v == 0
    ensures total > 0 ==> IsPercentile(es, p, v)
  {
    if total == 0 {
      return 0;
    }
    var need := Max((total * p + 99) / 100, 1);
    var seen, ms := 0, 0;
    AtMostNone(es);
    FallThroughUnreachable(es, p);
    while ms < fine.Length
      invariant ms <= fine.Length && seen == AtMost(es, ms - 1) && seen < need
    {
      seen := seen + fine[ms];
      AtMostNext(es, ms);
      if seen >= need {
        return ms;
      }
      ms := ms + 1;
    }
    assert false;
    return CAP;
  }

  // Buckets

  /** The first bucket whose bound is larger. */
  method BucketIndex(ms: nat) returns (b: nat)
    ensures b <= |BOUNDS| && InBucket(b, ms)
  {
    for i := 0 to |BOUNDS|
      invariant forall k :: 0 <= k < i ==> BOUNDS[k] <= ms
    {
      if ms < BOUNDS[i] {
        return i;
      }
    }
    return |BOUNDS|;
  }

  /** Every time is in exactly one bucket. */
  lemma OneBucket(ms: nat, a: nat, b: nat)
    requires a <= |BOUNDS| && b <= |BOUNDS| && InBucket(a, ms) && InBucket(b, ms)
    ensures a == b
  {
  }

  function SumBuckets(bs: seq<ElapsedBucket>): (nat, nat) {
    if bs == [] then (0, 0)
    else
      var (n, e) := SumBuckets(bs[..|bs| - 1]);
      (n + bs[|bs| - 1].count, e + bs[|bs| - 1].error)
  }

  function BucketsOf(ss: seq<Sample>, n: nat): seq<ElapsedBucket>
    requires n <= |BOUNDS| + 1
  {
    seq(n, b requires 0 <= b < n =>
      ElapsedBucket(if b < |BOUNDS| then Some(BOUNDS[b]) else None, CountBucket(ss, b), CountFailed(ss, b)))
  }

  lemma SomeBucket(ms: nat) returns (b: nat)
    ensures b <= |BOUNDS| && InBucket(b, ms)
  {
    b := 0;
    while b < |BOUNDS| && BOUNDS[b] <= ms
      invariant b <= |BOUNDS| && (b == 0 || BOUNDS[b - 1] <= ms)
    {
      b := b + 1;
    }
  }

  /** One more sample in bucket `b`, looked at through the first `n` buckets. */
  lemma {:induction false} SumStep(ss: seq<Sample>, n: nat, b: nat)
    requires n <= |BOUNDS| + 1 && ss != [] && b <= |BOUNDS| && InBucket(b, Time(ss[|ss| - 1]))
    ensures var hit := if b < n then 1 else 0;
            var (c, e) := SumBuckets(BucketsOf(ss[..|ss| - 1], n));
            SumBuckets(BucketsOf(ss, n)) == (c + hit, if ss[|ss| - 1].failed then e + hit else e)
  {
    hide BucketsOf, SumBuckets, InBucket, CountBucket, CountFailed;
    if n == 0 {
      SumNone(ss);
      SumNone(ss[..|ss| - 1]);
    } else {
      SumStep(ss, n - 1, b);
      SumOneMore(ss, n);
      SumOneMore(ss[..|ss| - 1], n);
      CountLast(ss, n - 1, b);
    }
  }

  lemma SumNone(ss: seq<Sample>)
    ensures SumBuckets(BucketsOf(ss, 0)) == (0, 0)
  {
  }

  /** The last sample counts in its own bucket only. */
  lemma CountLast(ss: seq<Sample>, a: nat, b: nat)
    requires ss != [] && a <= |BOUNDS| && b <= |BOUNDS| && InBucket(b, Time(ss[|ss| - 1]))
    ensures var front, hit := ss[..|ss| - 1], if a == b then 1 else 0;
            && CountBucket(ss, a) == CountBucket(front, a) + hit
            && CountFailed(ss, a) == CountFailed(front, a) + if ss[|ss| - 1].failed then hit else 0
  {
    hide InBucket;
    if InBucket(a, Time(ss[|ss| - 1])) {
      OneBucket(Time(ss[|ss| - 1]), b, a);
    }
  }

  lemma SumOneMore(ss: seq<Sample>, n: nat)
    requires 0 < n <= |BOUNDS| + 1
    ensures var (c, e) := SumBuckets(BucketsOf(ss, n - 1));
            SumBuckets(BucketsOf(ss, n)) == (c + CountBucket(ss, n - 1), e + CountFailed(ss, n - 1))
  {
    BucketsFront(ss, n);
  }

  lemma BucketsFront(ss: seq<Sample>, n: nat)
    requires 0 < n <= |BOUNDS| + 1
    ensures BucketsOf(ss, n)[..n - 1] == BucketsOf(ss, n - 1)
  {
  }

  /** No sample is lost or counted twice: the buckets add up to the totals. */
  lemma {:induction false} BucketsAddUp(ss: seq<Sample>)
    ensures SumBuckets(BucketsOf(ss, |BOUNDS| + 1)) == (|ss|, Failures(ss))
  {
    if ss == [] {
      EmptyBuckets(|BOUNDS| + 1);
    } else {
      BucketsAddUp(ss[..|ss| - 1]);
      var b := SomeBucket(Time(ss[|ss| - 1]));
      SumStep(ss, |BOUNDS| + 1, b);
    }
  }

  lemma {:induction false} EmptyBuckets(n: nat)
    requires n <= |BOUNDS| + 1
    ensures SumBuckets(BucketsOf([], n)) == (0, 0)
  {
    if n == 0 {
    } else {
      EmptyBuckets(n - 1);
      BucketsFront([], n);
    }
  }

  // The accumulator

  method AddOne(cells: array<nat>, i: nat)
    requires i < cells.Length
    modifies cells
    ensures cells[..] == old(cells[..])[i := old(cells[..])[i] + 1]
  {
    cells[i] := cells[i] + 1;
  }

  /** The distribution of the samples. */
  ghost predicate IsDistribution(d: ElapsedDistribution, ss: seq<Sample>) {
    && d.buckets == BucketsOf(ss, |BOUNDS| + 1)
    && d.total == |ss| && d.error == Failures(ss) && d.sum == SumTimes(ss) && IsLongest(ss, d.max)
    && (ss == [] ==> d.p50 == d.p90 == d.p99 == 0)
    && (ss != [] ==> IsPercentile(Capped(ss), 50, d.p50))
    && (ss != [] ==> IsPercentile(Capped(ss), 90, d.p90))
    && (ss != [] ==> IsPercentile(Capped(ss), 99, d.p99))
  }

  /** The percentiles are in order, and none is above the longest time. */
  lemma DistributionInOrder(d: ElapsedDistribution, ss: seq<Sample>)
    requires IsDistribution(d, ss)
    ensures d.p50 <= d.p90 <= d.p99 <= d.max
  {
    if ss != [] {
      PercentilesAscend(Capped(ss), 50, d.p50, 90, d.p90);
      PercentilesAscend(Capped(ss), 90, d.p90, 99, d.p99);
      AtMostAll(Capped(ss), d.max);
      if d.max < d.p99 {
        NeedFits(|ss|, 99);
        AtMostGrows(Capped(ss), d.max, d.p99 - 1);
      }
    }
  }

  /** The number of samples, and of failures, in each bucket, and of samples in each cell. */
  ghost function Counts(ss: seq<Sample>): seq<nat> {
    seq(|BOUNDS| + 1, b requires 0 <= b <= |BOUNDS| => CountBucket(ss, b))
  }

  ghost function Errors(ss: seq<Sample>): seq<nat> {
    seq(|BOUNDS| + 1, b requires 0 <= b <= |BOUNDS| => CountFailed(ss, b))
  }

  ghost function Cells(ss: seq<Sample>): seq<nat> {
    seq(CAP + 1, ms => Equal(Capped(ss), ms))
  }

  lemma CountsGrow(counts: seq<nat>, ss: seq<Sample>, s: Sample, b: nat)
    requires counts == Counts(ss) && b <= |BOUNDS| && InBucket(b, Time(s))
    ensures counts[b := counts[b] + 1] == Counts(ss + [s])
  {
    assert (ss + [s])[..|ss|] == ss;
    OnlyBucket(Time(s), b);
  }

  lemma ErrorsGrow(errors: seq<nat>, ss: seq<Sample>, s: Sample, b: nat)
    requires errors == Errors(ss) && b <= |BOUNDS| && InBucket(b, Time(s))
    ensures (if s.failed then errors[b := errors[b] + 1] else errors) == Errors(ss + [s])
  {
    assert (ss + [s])[..|ss|] == ss;
    OnlyBucket(Time(s), b);
  }

  lemma OnlyBucket(ms: nat, b: nat)
    requires b <= |BOUNDS| && InBucket(b, ms)
    ensures forall c :: 0 <= c <= |BOUNDS| ==> (InBucket(c, ms) <==> c == b)
  {
    forall c | 0 <= c <= |BOUNDS| && InBucket(c, ms)
      ensures c == b
    {
      OneBucket(ms, b, c);
    }
  }

  lemma CellsGrow(fine: seq<nat>, ss: seq<Sample>, s: Sample, cell: nat)
    requires fine == Cells(ss) && cell == Min(Time(s), CAP)
    ensures fine[cell := fine[cell] + 1] == Cells(ss + [s])
  {
    assert (ss + [s])[..|ss|] == ss;
    var es := Capped(ss + [s]);
    assert es[..|es| - 1] == Capped(ss);
  }

  lemma TotalsGrow(ss: seq<Sample>, s: Sample)
    ensures Failures(ss + [s]) == Failures(ss) + if s.failed then 1 else 0
    ensures SumTimes(ss + [s]) == SumTimes(ss) + Time(s)
    ensures Longest(ss + [s]) == Max(Longest(ss), Time(s))
  {
    assert (ss + [s])[..|ss|] == ss;
  }

  /** One sample into the arrays. */
  method Tally(counts: array<nat>, errors: array<nat>, fine: array<nat>, b: nat, cell: nat, failed: bool)
    requires counts != errors && counts != fine && errors != fine
    requires b < counts.Length && b < errors.Length && cell < fine.Length
    modifies counts, errors, fine
    ensures counts[..] == old(counts[..])[b := old(counts[..])[b] + 1]
    ensures errors[..] == if failed then old(errors[..])[b := old(errors[..])[b] + 1] else old(errors[..])
    ensures fine[..] == old(fine[..])[cell := old(fine[..])[cell] + 1]
  {
    AddOne(counts, b);
    if failed {
      AddOne(errors, b);
    }
    AddOne(fine, cell);
  }

  ghost predicate Tallied(counts: array<nat>, errors: array<nat>, fine: array<nat>, ss: seq<Sample>)
    reads counts, errors, fine
  {
    && counts != errors && counts != fine && errors != fine
    && counts[..] == Counts(ss) && errors[..] == Errors(ss) && fine[..] == Cells(ss)
    && counts.Length == |BOUNDS| + 1 && errors.Length == |BOUNDS| + 1 && fine.Length == CAP + 1
  }

  method TallySample(counts: array<nat>, errors: array<nat>, fine: array<nat>, e: nat, ghost ss: seq<Sample>, s: Sample)
    requires Tallied(counts, errors, fine, ss) && e == Time(s)
    modifies counts, errors, fine
    ensures Tallied(counts, errors, fine, ss + [s])
  {
    hide Counts, Errors, Cells, InBucket;
    var b := BucketIndex(e);
    var cell := Min(e, CAP);
    CountsGrow(counts[..], ss, s, b);
    ErrorsGrow(errors[..], ss, s, b);
    CellsGrow(fine[..], ss, s, cell);
    Tally(counts, errors, fine, b, cell, s.failed);
  }

  class Accumulator {
    const counts: array<nat>
    const errors: array<nat>
    const fine: array<nat>
    var total: nat
    var error: nat
    var sum: nat
    var max: nat
    /** What was added, in order. */
    ghost var added: seq<Sample>

    ghost predicate Valid()
      reads this, counts, errors, fine
    {
      && Tallied(counts, errors, fine, added)
      && total == |added| && error == Failures(added) && sum == SumTimes(added) && max == Longest(added)
    }

    constructor ()
      ensures Valid() && added == [] && fresh(counts) && fresh(errors) && fresh(fine)
    {
      counts := new nat[|BOUNDS| + 1](_ => 0);
      errors := new nat[|BOUNDS| + 1](_ => 0);
      fine := new nat[CAP + 1](_ => 0);
      total, error, sum, max, added := 0, 0, 0, 0, [];
    }

    method Add(elapsed: int, failed: bool)
      requires Valid()
      modifies this, counts, errors, fine
      ensures Valid() && added == old(added) + [Sample(elapsed, failed)]
    {
      var s := Sample(elapsed, failed);
      var e := Max(elapsed, 0);
      TotalsGrow(added, s);
      TallySample(counts, errors, fine, e, added, s);
      if failed {
        error := error + 1;
      }
      total := total + 1;
      sum := sum + e;
      if e > max {
        max := e;
      }
      added := added + [s];
    }

    method Finish(truncated: bool) returns (d: ElapsedDistribution)
      requires Valid()
      ensures IsDistribution(d, added) && d.cap == CAP && d.truncated == truncated
    {
      var buckets: seq<ElapsedBucket> := [];
      for i := 0 to counts.Length
        invariant buckets == BucketsOf(added, i)
      {
        var lt := if i < |BOUNDS| then Some(BOUNDS[i]) else None;
        buckets := buckets + [ElapsedBucket(lt, counts[i], errors[i])];
      }
      var p50 := Percentile(fine, total, 50, Capped(added));
      var p90 := Percentile(fine, total, 90, Capped(added));
      var p99 := Percentile(fine, total, 99, Capped(added));
      LongestIsLongest(added);
      d := ElapsedDistribution(buckets, total, error, sum, max, p50, p90, p99, CAP, truncated);
    }
  }
}
