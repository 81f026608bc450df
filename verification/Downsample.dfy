/** Thinning a series to as many points as can be drawn, keeping the peak of every bucket. */
module Downsample {
  import opened Wrappers

  datatype CounterSeries = CounterSeries(objHash: int, times: seq<int>, values: seq<Option<real>>)

  /** The points that have both a time and a value. */
  function Points(s: CounterSeries): nat {
    Min(|s.times|, |s.values|)
  }

  /** Where the `b`-th of `m` buckets over `n` points begins. */
  function Start(b: nat, n: nat, m: nat): nat
    requires m > 0
  {
    b * n / m
  }

  // The buckets partition the points

  lemma QuotientAtLeast(x: nat, k: nat, m: nat)
    requires m > 0
    ensures x / m >= k <==> x >= k * m
  {
    var q, r := x / m, x % m;
    assert x == q * m + r;
    if q >= k {
      assert (q - k) * m >= 0;
    } else {
      assert (k - q - 1) * m >= 0;
    }
  }

  lemma DivGrows(x: nat, n: nat, m: nat)
    requires 0 < m <= n
    ensures (x + n) / m >= x / m + 1
  {
    QuotientAtLeast(x, x / m, m);
    QuotientAtLeast(x + n, x / m + 1, m);
  }

  /** Each bucket ends where the next begins, and none is empty. */
  lemma StartNext(b: nat, n: nat, m: nat)
    requires 0 < m <= n && b < m
    ensures Start(b, n, m) < Start(b + 1, n, m) <= n
  {
    assert (b + 1) * n == b * n + n;
    DivGrows(b * n, n, m);
    StartGrows(b + 1, m, n, m);
    StartOfEnd(n, m);
  }

  lemma StartOfEnd(n: nat, m: nat)
    requires m > 0
    ensures Start(m, n, m) == n && Start(0, n, m) == 0
  {
    QuotientAtLeast(m * n, n, m);
    QuotientAtLeast(m * n, n + 1, m);
    assert (n + 1) * m == m * n + m;
  }

  lemma StartGrows(a: nat, b: nat, n: nat, m: nat)
    requires m > 0 && a <= b
    ensures Start(a, n, m) <= Start(b, n, m)
  {
    assert a * n <= b * n;
    DivMonotone(a * n, b * n, m);
  }

  lemma DivMonotone(x: nat, y: nat, m: nat)
    requires m > 0 && x <= y
    ensures x / m <= y / m
  {
    QuotientAtLeast(x, x / m, m);
    QuotientAtLeast(y, x / m, m);
  }

  /** Every point lies in one of the first `k` buckets or behind them. */
  lemma {:induction false} FindBucket(i: nat, k: nat, n: nat, m: nat) returns (b: nat)
    requires 0 < m <= n && k <= m && i < Start(k, n, m)
    ensures b < k && Start(b, n, m) <= i < Start(b + 1, n, m)
  {
    StartOfEnd(n, m);
    if i >= Start(k - 1, n, m) {
      b := k - 1;
    } else {
      b := FindBucket(i, k - 1, n, m);
    }
  }

  /** The buckets are a partition: every point is in exactly one. */
  lemma BucketsPartition(i: nat, n: nat, m: nat) returns (b: nat)
    requires 0 < m <= n && i < n
    ensures b < m && Start(b, n, m) <= i < Start(b + 1, n, m)
    ensures forall c: nat :: c < m && Start(c, n, m) <= i < Start(c + 1, n, m) ==> c == b
  {
    StartOfEnd(n, m);
    b := FindBucket(i, m, n, m);
    forall c: nat | c < m && Start(c, n, m) <= i < Start(c + 1, n, m)
      ensures c == b
    {
      if c < b {
        StartGrows(c + 1, b, n, m);
      } else if b < c {
        StartGrows(b + 1, c, n, m);
      }
    }
  }

  // What a bucket becomes

  /** Point `i` carries the bucket's maximum, and is the first that does. */
  ghost predicate IsPeak(s: CounterSeries, lo: nat, hi: nat, i: nat)
    requires hi <= Points(s)
  {
    && lo <= i < hi && s.values[i].Some?
    && (forall k :: lo <= k < hi && s.values[k].Some? ==> s.values[k].value <= s.values[i].value)
    && (forall k :: lo <= k < i && s.values[k].Some? ==> s.values[k].value < s.values[i].value)
  }

  ghost predicate AllMissing(s: CounterSeries, lo: nat, hi: nat)
    requires hi <= Points(s)
  {
    forall k :: lo <= k < hi ==> s.values[k].None?
  }

  /** Time and value stand for the points `[lo, hi)`: the first peak at its own time, or a gap at the time
      of the first point if no point has a value. */
  ghost predicate StandsFor(s: CounterSeries, lo: nat, hi: nat, t: int, v: Option<real>)
    requires lo < hi <= Points(s)
  {
    if v.Some? then exists i: nat :: IsPeak(s, lo, hi, i) && t == s.times[i] && v == s.values[i]
    else AllMissing(s, lo, hi) && t == s.times[lo]
  }

  ghost predicate Thinned(s: CounterSeries, m: nat, out: CounterSeries)
    requires 0 < m <= Points(s)
  {
    && out.objHash == s.objHash && |out.times| == |out.values| == m
    && forall b: nat :: b < m ==> StandsForBucket(s, b, m, out.times[b], out.values[b])
  }

  ghost predicate StandsForBucket(s: CounterSeries, b: nat, m: nat, t: int, v: Option<real>)
    requires 0 < m <= Points(s) && b < m
  {
    StartNext(b, Points(s), m);
    StandsFor(s, Start(b, Points(s), m), Start(b + 1, Points(s), m), t, v)
  }

  /** The point of the bucket that is shown. */
  method Best(s: CounterSeries, lo: nat, hi: nat) returns (best: Option<(int, real)>)
    requires lo < hi <= Points(s)
    ensures best.Some? ==> StandsFor(s, lo, hi, best.value.0, Some(best.value.1))
    ensures best.None? ==> AllMissing(s, lo, hi)
  {
    best := None;
    ghost var at := lo;
    for i := lo to hi
      invariant best.None? ==> AllMissing(s, lo, i)
      invariant best.Some? ==> IsPeak(s, lo, i, at) && best == Some((s.times[at], s.values[at].value))
    {
      if s.values[i].Some? {
        var v := s.values[i].value;
        if best.None? || v > best.value.1 {
          best, at := Some((s.times[i], v)), i;
        }
      }
    }
  }

  method Downsample(s: CounterSeries, maxPoints: nat) returns (out: CounterSeries)
    ensures maxPoints == 0 || Points(s) <= maxPoints ==> out == s
    ensures 0 < maxPoints < Points(s) ==> Thinned(s, maxPoints, out)
  {
    var n := Points(s);
    if maxPoints == 0 || n <= maxPoints {
      return s;
    }
    var times: seq<int>, values: seq<Option<real>> := [], [];
    for b := 0 to maxPoints
      invariant |times| == |values| == b
      invariant forall c: nat :: c < b ==> StandsForBucket(s, c, maxPoints, times[c], values[c])
    {
      StartNext(b, n, maxPoints);
      var lo := b * n / maxPoints;
      var hi := Min(Max((b + 1) * n / maxPoints, lo + 1), n);
      var best := Best(s, lo, hi);
      match best {
        case Some(p) => times, values := times + [p.0], values + [Some(p.1)];
        case None => times, values := times + [s.times[lo]], values + [None];
      }
    }
    out := CounterSeries(s.objHash, times, values);
  }

  // What survives

  /** Every value is at most the value of the bucket it fell into; a bucket is a gap only if all its
      points are. */
  lemma NothingRisesAbove(s: CounterSeries, m: nat, out: CounterSeries, i: nat) returns (b: nat)
    requires 0 < m < Points(s) && Thinned(s, m, out) && i < Points(s) && s.values[i].Some?
    ensures b < m && out.values[b].Some? && s.values[i].value <= out.values[b].value
  {
    b := BucketsPartition(i, Points(s), m);
    assert StandsForBucket(s, b, m, out.times[b], out.values[b]);
  }

  /** No point is made up: each shown value is a value of the series at its own time. */
  lemma ShownIsPoint(s: CounterSeries, m: nat, out: CounterSeries, b: nat) returns (i: nat)
    requires 0 < m < Points(s) && Thinned(s, m, out) && b < m
    ensures Start(b, Points(s), m) <= i < Start(b + 1, Points(s), m) <= Points(s)
    ensures out.times[b] == s.times[i] && out.values[b] == s.values[i]
  {
    StartNext(b, Points(s), m);
    assert StandsForBucket(s, b, m, out.times[b], out.values[b]);
    var lo, hi := Start(b, Points(s), m), Start(b + 1, Points(s), m);
    if out.values[b].Some? {
      i :| IsPeak(s, lo, hi, i) && out.times[b] == s.times[i] && out.values[b] == s.values[i];
    } else {
      i := lo;
    }
  }

  ghost predicate IsMaximum(values: seq<Option<real>>, n: nat, v: real)
    requires n <= |values|
  {
    && (exists i :: 0 <= i < n && values[i] == Some(v))
    && (forall i :: 0 <= i < n && values[i].Some? ==> values[i].value <= v)
  }

  /** The highest point of the series is the highest point shown. */
  lemma PeakSurvives(s: CounterSeries, m: nat, out: CounterSeries, v: real)
    requires 0 < m < Points(s) && Thinned(s, m, out)
    ensures IsMaximum(s.values, Points(s), v) <==> IsMaximum(out.values, m, v)
  {
    if IsMaximum(s.values, Points(s), v) {
      PeakIsShown(s, m, out, v);
    }
    if IsMaximum(out.values, m, v) {
      ShownIsPeak(s, m, out, v);
    }
  }

  lemma PeakIsShown(s: CounterSeries, m: nat, out: CounterSeries, v: real)
    requires 0 < m < Points(s) && Thinned(s, m, out) && IsMaximum(s.values, Points(s), v)
    ensures IsMaximum(out.values, m, v)
  {
    forall b | 0 <= b < m && out.values[b].Some?
      ensures out.values[b].value <= v
    {
      var i := ShownIsPoint(s, m, out, b);
    }
    var i :| 0 <= i < Points(s) && s.values[i] == Some(v);
    var b := NothingRisesAbove(s, m, out, i);
    assert out.values[b].value <= v;
    assert out.values[b] == Some(v);
  }

  lemma ShownIsPeak(s: CounterSeries, m: nat, out: CounterSeries, v: real)
    requires 0 < m < Points(s) && Thinned(s, m, out) && IsMaximum(out.values, m, v)
    ensures IsMaximum(s.values, Points(s), v)
  {
    forall i | 0 <= i < Points(s) && s.values[i].Some?
      ensures s.values[i].value <= v
    {
      var b := NothingRisesAbove(s, m, out, i);
    }
    var b :| 0 <= b < m && out.values[b] == Some(v);
    var i := ShownIsPoint(s, m, out, b);
    assert s.values[i] == Some(v);
  }

  ghost predicate InOrder(times: seq<int>, n: nat)
    requires n <= |times|
  {
    forall i, j :: 0 <= i < j < n ==> times[i] <= times[j]
  }

  /** Times in order stay in order. */
  lemma StaysInOrder(s: CounterSeries, m: nat, out: CounterSeries)
    requires 0 < m < Points(s) && Thinned(s, m, out) && InOrder(s.times, Points(s))
    ensures InOrder(out.times, m)
  {
    hide Start, StandsForBucket;
    forall b, c | 0 <= b < c < m
      ensures out.times[b] <= out.times[c]
    {
      var i := ShownIsPoint(s, m, out, b);
      var j := ShownIsPoint(s, m, out, c);
      StartGrows(b + 1, c, Points(s), m);
      assert i < Start(b + 1, Points(s), m) <= Start(c, Points(s), m) <= j;
    }
  }

  /** Gaps stay gaps, and only gaps become gaps. */
  lemma GapsStayGaps(s: CounterSeries, m: nat, out: CounterSeries, b: nat)
    requires 0 < m < Points(s) && Thinned(s, m, out) && b < m
    ensures Start(b, Points(s), m) < Start(b + 1, Points(s), m) <= Points(s)
    ensures out.values[b].None? <==> AllMissing(s, Start(b, Points(s), m), Start(b + 1, Points(s), m))
  {
    StartNext(b, Points(s), m);
    assert StandsForBucket(s, b, m, out.times[b], out.values[b]);
  }
}
