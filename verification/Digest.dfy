/** Collecting matches while scanning: totals per service over everything, rows only for the top. */
module Digest {
  import opened Wrappers
  import opened Rows
  import opened StableSort
  import Calendar
  import Slices

  const TOP_SERVICES := 10

  datatype Agg = Agg(count: nat, errors: nat, sumMs: int, maxMs: int)

  datatype TopService = TopService(service: int, count: nat, errors: nat, avgMs: int, maxMs: int)

  datatype CollectorResult = CollectorResult(rows: seq<Row>, matched: nat, matchedErrors: nat, topServices: seq<TopService>)

  /** The sort key of a row: slowest first and then latest, or latest first and then slowest. */
  function RowKey(sort: Slices.SortBy): Row -> Key {
    if sort == Slices.Slowest then (r: Row) => (r.elapsed, r.endTime) else (r: Row) => (r.endTime, r.elapsed)
  }

  function AddAgg(m: map<int, Agg>, x: Row): map<int, Agg> {
    var a := if x.service in m then m[x.service] else Agg(0, 0, 0, 0);
    m[x.service := Agg(a.count + 1, a.errors + (if x.error != 0 then 1 else 0), a.sumMs + x.elapsed, Max(a.maxMs, x.elapsed))]
  }

  /** The totals per service of a sequence of rows. */
  function Aggregate(rows: seq<Row>): map<int, Agg> {
    if rows == [] then map[] else AddAgg(Aggregate(rows[..|rows| - 1]), rows[|rows| - 1])
  }

  function CountErrors(rows: seq<Row>): nat {
    if rows == [] then 0
    else CountErrors(rows[..|rows| - 1]) + if rows[|rows| - 1].error != 0 then 1 else 0
  }

  /** The rows that are left when everything is sorted stably and only the first `limit` are kept. */
  function TopRows(sort: Slices.SortBy, limit: nat, rows: seq<Row>): seq<Row> {
    Take(Sort(RowKey(sort), rows), limit)
  }

  function ServiceKey(m: map<int, Agg>): int -> Key {
    (h: int) => if h in m then (m[h].count, m[h].maxMs) else (0, 0)
  }

  function TopOf(m: map<int, Agg>, h: int): TopService {
    var a := if h in m then m[h] else Agg(0, 0, 0, 0);
    TopService(h, a.count, a.errors, if a.count > 0 then Calendar.Quot(a.sumMs, a.count) else 0, a.maxMs)
  }

  /** `order` is some enumeration of the services, as a hash map gives it. */
  ghost predicate Enumerates(order: seq<int>, m: map<int, Agg>) {
    && (forall i, j :: 0 <= i < j < |order| ==> order[i] != order[j])
    && (forall h :: h in order <==> h in m)
  }

  class Collector {
    const sort: Slices.SortBy
    const limit: nat
    var kept: seq<Row>
    var matched: nat
    var matchedErrors: nat
    var byService: map<int, Agg>
    /** Everything added so far, in order. */
    ghost var all: seq<Row>

    /** The counters are those of everything added; of the kept rows only the top matters, and it is
        the top of everything added. */
    ghost predicate Valid()
      reads this
    {
      && matched == |all| && matchedErrors == CountErrors(all) && byService == Aggregate(all)
      && TopRows(sort, limit, kept) == TopRows(sort, limit, all)
      && |kept| < Max(limit, 1) * 2
    }

    constructor (sort: Slices.SortBy, limit: nat)
      ensures Valid() && all == [] && this.sort == sort && this.limit == limit
    {
      this.sort, this.limit := sort, limit;
      kept, matched, matchedErrors, byService := [], 0, 0, map[];
      all := [];
    }

    method Add(x: Row)
      requires Valid()
      modifies this
      ensures Valid() && all == old(all) + [x]
    {
      matched := matched + 1;
      if x.error != 0 {
        matchedErrors := matchedErrors + 1;
      }
      byService := AddAgg(byService, x);
      ghost var key := RowKey(sort);
      TakeSortStep(key, kept, all, x, limit);
      all := all + [x];
      assert all[..|all| - 1] == old(all);
      kept := kept + [x];
      if |kept| >= Max(limit, 1) * 2 {
        Trim();
      }
    }

    /** Sorts what is kept and cuts it to the limit. */
    method Trim()
      modifies this`kept
      ensures kept == TopRows(sort, limit, old(kept))
      ensures TopRows(sort, limit, kept) == TopRows(sort, limit, old(kept))
      ensures |kept| <= limit
    {
      kept := Sort(RowKey(sort), kept);
      SortIsStableSort(RowKey(sort), old(kept));
      TrimTwice(RowKey(sort), old(kept), limit);
      kept := Take(kept, limit);
    }

    static lemma TrimTwice(key: Row -> Key, rows: seq<Row>, limit: nat)
      ensures Take(Sort(key, Take(Sort(key, rows), limit)), limit) == Take(Sort(key, rows), limit)
    {
      TakeSortTwice(key, rows, [], limit);
      assert Take(Sort(key, rows), limit) + [] == Take(Sort(key, rows), limit) && rows + [] == rows;
    }

    /** The result: exactly the first `limit` of the stable sort of everything added, the totals of
        everything added, and the services with most matches. `order` is the order in which the service
        table is enumerated. */
    method Finish(order: seq<int>) returns (res: CollectorResult)
      requires Valid() && Enumerates(order, byService)
      modifies this
      ensures res == ResultOf(sort, limit, old(all), order)
    {
      Trim();
      res := CollectorResult(kept, matched, matchedErrors, TopServices(byService, order));
    }
  }

  /** The ten services with most matches (then the largest maximum). */
  function TopServices(m: map<int, Agg>, order: seq<int>): seq<TopService> {
    var top := Take(Sort(ServiceKey(m), order), TOP_SERVICES);
    seq(|top|, i requires 0 <= i < |top| => TopOf(m, top[i]))
  }

  function ResultOf(sort: Slices.SortBy, limit: nat, rows: seq<Row>, order: seq<int>): CollectorResult {
    CollectorResult(TopRows(sort, limit, rows), |rows|, CountErrors(rows), TopServices(Aggregate(rows), order))
  }

  lemma SortedServices(m: map<int, Agg>, order: seq<int>)
    requires Enumerates(order, m)
    ensures var services := Sort(ServiceKey(m), order);
            && |services| == |order| && Enumerates(services, m)
            && (forall i, j :: 0 <= i < j < |services| ==> !Ahead(ServiceKey(m)(services[j]), ServiceKey(m)(services[i])))
  {
    var services := Sort(ServiceKey(m), order);
    SortIsStableSort(ServiceKey(m), order);
    forall h
      ensures h in services <==> h in m
    {
      assert multiset(services)[h] == multiset(order)[h];
    }
    DistinctBySize(order, services);
  }

  lemma {:induction false} DistinctBySize(a: seq<int>, b: seq<int>)
    requires multiset(a) == multiset(b)
    requires forall i, j :: 0 <= i < j < |a| ==> a[i] != a[j]
    ensures forall i, j :: 0 <= i < j < |b| ==> b[i] != b[j]
  {
    forall i, j | 0 <= i < j < |b| && b[i] == b[j]
      ensures false
    {
      assert b == b[..i] + [b[i]] + b[i + 1..j] + [b[j]] + b[j + 1..];
      assert multiset(b)[b[i]] >= 2;
      OnceEach(a, b[i]);
    }
  }

  lemma {:induction false} OnceEach(a: seq<int>, x: int)
    requires forall i, j :: 0 <= i < j < |a| ==> a[i] != a[j]
    ensures multiset(a)[x] <= 1
  {
    if a == [] {
    } else {
      assert a == a[..|a| - 1] + [a[|a| - 1]];
      OnceEach(a[..|a| - 1], x);
      if a[|a| - 1] == x {
        assert x !in a[..|a| - 1];
      }
    }
  }

  /** The services shown are different services with their own totals, ordered by matches. */
  lemma TopServicesShown(m: map<int, Agg>, order: seq<int>)
    requires Enumerates(order, m)
    ensures var services, top := Sort(ServiceKey(m), order), TopServices(m, order);
            && Enumerates(services, m) && |top| == Min(|services|, TOP_SERVICES) == Min(|order|, TOP_SERVICES)
            && (forall i :: 0 <= i < |top| ==> services[i] in m && top[i] == TopOf(m, services[i]))
            && (forall i, j :: 0 <= i < j < |services| ==>
                  TopOf(m, services[i]).count >= TopOf(m, services[j]).count)
  {
    SortedServices(m, order);
    var services := Sort(ServiceKey(m), order);
    assert forall i :: 0 <= i < |services| ==> services[i] in services;
    forall i, j | 0 <= i < j < |services|
      ensures TopOf(m, services[i]).count >= TopOf(m, services[j]).count
    {
      assert services[i] in m && services[j] in m;
      assert !Ahead(ServiceKey(m)(services[j]), ServiceKey(m)(services[i]));
    }
  }

  /** No service left out has more matches than one that is shown. */
  lemma TopServicesLead(m: map<int, Agg>, order: seq<int>, h: int, i: nat)
    requires Enumerates(order, m) && h in m && i < |TopServices(m, order)|
    requires m[h].count > TopServices(m, order)[i].count
    ensures exists j :: 0 <= j < |TopServices(m, order)| && TopServices(m, order)[j] == TopOf(m, h)
  {
    TopServicesShown(m, order);
    var services := Sort(ServiceKey(m), order);
    assert h in services;
    var j :| 0 <= j < |services| && services[j] == h;
    assert j < i;
    assert TopServices(m, order)[j] == TopOf(m, h);
  }

  // Conservation: the totals per service add up

  function SumCounts(order: seq<int>, m: map<int, Agg>): nat {
    if order == [] then 0
    else SumCounts(order[1..], m) + if order[0] in m then m[order[0]].count else 0
  }

  function SumErrors(order: seq<int>, m: map<int, Agg>): nat {
    if order == [] then 0
    else SumErrors(order[1..], m) + if order[0] in m then m[order[0]].errors else 0
  }

  lemma {:induction false} SumsAfterAdd(order: seq<int>, m: map<int, Agg>, x: Row)
    requires forall i, j :: 0 <= i < j < |order| ==> order[i] != order[j]
    ensures SumCounts(order, AddAgg(m, x)) == SumCounts(order, m) + if x.service in order then 1 else 0
    ensures SumErrors(order, AddAgg(m, x)) == SumErrors(order, m) + if x.service in order && x.error != 0 then 1 else 0
  {
    if order == [] {
    } else {
      SumsAfterAdd(order[1..], m, x);
      assert order == [order[0]] + order[1..];
    }
  }

  lemma {:induction false} SumsOfRows(order: seq<int>, rows: seq<Row>)
    requires forall i, j :: 0 <= i < j < |order| ==> order[i] != order[j]
    requires forall r :: r in rows ==> r.service in order
    ensures SumCounts(order, Aggregate(rows)) == |rows| && SumErrors(order, Aggregate(rows)) == CountErrors(rows)
  {
    if rows == [] {
      SumsOfNothing(order);
    } else {
      var n := |rows| - 1;
      assert rows == rows[..n] + [rows[n]];
      SumsOfRows(order, rows[..n]);
      SumsAfterAdd(order, Aggregate(rows[..n]), rows[n]);
    }
  }

  lemma {:induction false} SumsOfNothing(order: seq<int>)
    ensures SumCounts(order, map[]) == 0 && SumErrors(order, map[]) == 0
  {
    if order == [] {
    } else {
      SumsOfNothing(order[1..]);
    }
  }

  lemma {:induction false} ServicesOfRows(rows: seq<Row>)
    ensures forall h :: h in Aggregate(rows) <==> exists r :: r in rows && r.service == h
  {
    if rows == [] {
    } else {
      var n := |rows| - 1;
      assert rows == rows[..n] + [rows[n]];
      ServicesOfRows(rows[..n]);
    }
  }

  /** Before the ten largest are picked, counts and errors per service add up to the totals. */
  lemma ServiceTotalsAddUp(order: seq<int>, rows: seq<Row>)
    requires Enumerates(order, Aggregate(rows))
    ensures SumCounts(order, Aggregate(rows)) == |rows|
    ensures SumErrors(order, Aggregate(rows)) == CountErrors(rows)
  {
    ServicesOfRows(rows);
    forall r | r in rows
      ensures r.service in order
    {
      assert r.service in Aggregate(rows);
    }
    SumsOfRows(order, rows);
  }

  // Independence of the order in which rows arrive

  lemma AddAggCommutes(m: map<int, Agg>, x: Row, y: Row)
    ensures AddAgg(AddAgg(m, x), y) == AddAgg(AddAgg(m, y), x)
  {
  }

  lemma FrontOfSum(l: seq<Row>, r: seq<Row>)
    requires r != []
    ensures (l + r)[..|l + r| - 1] == l + r[..|r| - 1] && (l + r)[|l + r| - 1] == r[|r| - 1]
  {
  }

  lemma {:induction false} AggregateMoves(l: seq<Row>, x: Row, r: seq<Row>)
    ensures Aggregate(l + [x] + r) == AddAgg(Aggregate(l + r), x)
    ensures CountErrors(l + [x] + r) == CountErrors(l + r) + if x.error != 0 then 1 else 0
  {
    if r == [] {
      FrontOfSum(l, [x]);
      assert l + [x] + r == l + [x] && l + r == l && [x][..0] == [] && l + [] == l;
    } else {
      var n := |r| - 1;
      AggregateMoves(l, x, r[..n]);
      FrontOfSum(l + [x], r);
      FrontOfSum(l, r);
      AddAggCommutes(Aggregate(l + r[..n]), x, r[n]);
    }
  }

  /** Totals per service and the number of errors do not depend on the order of the rows. */
  lemma {:induction false} TotalsIgnoreOrder(a: seq<Row>, b: seq<Row>)
    requires multiset(a) == multiset(b)
    ensures |a| == |b| && Aggregate(a) == Aggregate(b) && CountErrors(a) == CountErrors(b)
  {
    assert |multiset(a)| == |a| && |multiset(b)| == |b|;
    if a == [] {
    } else {
      var n := |a| - 1;
      MultisetOfFront(a);
      var i := SplitAt(b, a[n]);
      TotalsIgnoreOrder(a[..n], b[..i] + b[i + 1..]);
      AggregateMoves(b[..i], b[i], b[i + 1..]);
    }
  }

  /** Whatever the order in which the same rows were added, the result shows the same totals and its
      rows carry the same sort keys; only among rows with equal keys may the choice differ. */
  lemma ResultIgnoresOrder(sort: Slices.SortBy, limit: nat, a: seq<Row>, b: seq<Row>)
    requires multiset(a) == multiset(b)
    ensures |a| == |b| && CountErrors(a) == CountErrors(b) && Aggregate(a) == Aggregate(b)
    ensures Keys(RowKey(sort), TopRows(sort, limit, a)) == Keys(RowKey(sort), TopRows(sort, limit, b))
  {
    TotalsIgnoreOrder(a, b);
    SortedKeysIgnoreOrder(RowKey(sort), a, b, limit);
  }
}
