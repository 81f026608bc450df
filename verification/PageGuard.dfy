/** Where the page guard of a day hides rows: for every page size for which the row limit does not come first,
    a day that ends at the guard, is not reported as truncated, and has a row that is not counted. */
module PageGuard {
  import opened Wrappers
  import opened Rows
  import opened Cover
  import opened CacheDb
  import opened PastPage
  import opened WindowCount
  import Distribution
  import Slices

  // A collector that answers in the order of its rows

  predicate InRequest(q: Request, r: Row) {
    r.objHash in q.hashes && q.stime <= r.endTime <= q.etime
  }

  function Matching(q: Request, rows: seq<Row>): seq<Row> {
    if rows == [] then []
    else
      var last := rows[|rows| - 1];
      Matching(q, rows[..|rows| - 1]) + if InRequest(q, last) then [last] else []
  }

  /** A full page as long as more rows are left, and the rest without "more". */
  function OrderedCollector(rows: seq<Row>): Request -> Answer {
    (q: Request) =>
      var all := Matching(q, rows);
      if 0 < q.pageCount < |all| then
        var last := all[q.pageCount - 1];
        Answer(all[..q.pageCount], PastCursor(true, last.txid, last.endTime))
      else Answer(all, START)
  }

  ghost predicate InOrder(rows: seq<Row>) {
    forall i, j :: 0 <= i < j < |rows| ==> rows[i].endTime <= rows[j].endTime && rows[i].txid != rows[j].txid
  }

  lemma {:induction false} MatchingExact(q: Request, rows: seq<Row>)
    requires InOrder(rows)
    ensures InOrder(Matching(q, rows))
    ensures forall r :: r in Matching(q, rows) <==> r in rows && InRequest(q, r)
  {
    if rows == [] {
    } else {
      var n := |rows| - 1;
      MatchingExact(q, rows[..n]);
      assert rows == rows[..n] + [rows[n]];
      forall r | r in Matching(q, rows[..n])
        ensures r.endTime <= rows[n].endTime && r.txid != rows[n].txid
      {
        assert r in rows[..n];
      }
    }
  }

  lemma OrderedIsHonest(rows: seq<Row>, q: Request)
    requires InOrder(rows)
    ensures Honest(Elements(rows), q, OrderedCollector(rows)(q))
  {
    MatchingExact(q, rows);
    var all := Matching(q, rows);
    if 0 < q.pageCount < |all| {
      PageInOrder(all, q.pageCount);
    }
  }

  lemma PageInOrder(all: seq<Row>, p: int)
    requires InOrder(all) && 0 < p < |all|
    ensures Distinct(all[..p]) && all[..p][p - 1] == all[p - 1]
    ensures forall r :: r in all[..p] ==> r in all && r.endTime <= all[p - 1].endTime
    ensures forall r :: r in all && r !in all[..p] ==> all[p - 1].endTime <= r.endTime
  {
    forall r | r in all
      ensures r in all[..p] || all[p - 1].endTime <= r.endTime
    {
      var j :| 0 <= j < |all| && all[j] == r;
      assert j < p ==> all[..p][j] == r;
    }
  }

  lemma CollectorGives(rows: seq<Row>, q: Request, a: nat)
    requires a <= |rows| && Matching(q, rows) == rows[a..] && 0 < q.pageCount < |rows| - a
    ensures var last := rows[a + q.pageCount - 1];
            OrderedCollector(rows)(q) == Answer(rows[a..a + q.pageCount], PastCursor(true, last.txid, last.endTime))
  {
    assert rows[a..][..q.pageCount] == rows[a..a + q.pageCount];
  }

  /** If exactly the rows from the `a`-th on are asked for, these are the answer. */
  lemma {:induction false} MatchingRest(q: Request, rows: seq<Row>, a: nat)
    requires a <= |rows| && forall i :: 0 <= i < |rows| ==> (InRequest(q, rows[i]) <==> a <= i)
    ensures Matching(q, rows) == rows[a..]
  {
    if rows == [] {
    } else {
      var n := |rows| - 1;
      if a == |rows| {
        MatchingRest(q, rows[..n], n);
      } else {
        MatchingRest(q, rows[..n], a);
        assert rows[a..] == rows[..n][a..] + [rows[n]];
      }
    }
  }

  /** Of a page that begins among the rows seen, those behind them are fresh. */
  lemma {:induction false} FreshBehind(rows: seq<Row>, a: nat, b: nat, d: nat)
    requires InOrder(rows) && a <= b && a <= d <= |rows| && b <= |rows|
    ensures FreshRows(Txids(rows[..b]), rows[a..d]) == if d <= b then [] else rows[b..d]
    decreases d
  {
    hide FreshRows, Txids, InOrder;
    if d == a {
      NothingFresh(Txids(rows[..b]));
      assert rows[a..d] == [];
    } else {
      FreshBehind(rows, a, b, d - 1);
      OneMoreFresh(Txids(rows[..b]), rows[a..d - 1], rows[d - 1]);
      assert rows[a..d] == rows[a..d - 1] + [rows[d - 1]];
      TxidKnown(rows, a, b, d - 1);
      if d > b {
        assert rows[b..d] == rows[b..d - 1] + [rows[d - 1]];
      }
    }
  }

  lemma NothingFresh(seen: set<int>)
    ensures FreshRows(seen, []) == []
  {
  }

  lemma OneMoreFresh(seen: set<int>, front: seq<Row>, last: Row)
    ensures FreshRows(seen, front + [last]) ==
            if last.txid in seen || last.txid in Txids(front) then FreshRows(seen, front) else FreshRows(seen, front) + [last]
  {
    assert (front + [last])[..|front|] == front;
  }

  lemma TxidKnown(rows: seq<Row>, a: nat, b: nat, i: nat)
    requires InOrder(rows) && a <= b <= |rows| && a <= i < |rows|
    ensures rows[i].txid in Txids(rows[..b]) <==> i < b
    ensures rows[i].txid !in Txids(rows[a..i])
  {
    if i < b {
      assert rows[..b][i] == rows[i];
    }
  }

  // A day of which every page brings as few rows as possible

  /** The time of the `i`-th row; the first two instants of the day are empty. The rows of page `k` that lie behind the least front all have the time at which
      the page ends, the others a time of their own. */
  function TimeOf(p: int, c: nat, k: nat, i: int): int {
    if k == 0 then i + 2
    else if i <= LeastRows(p, c, k - 1) then TimeOf(p, c, k - 1, i)
    else if i <= LeastFront(p, c, k) then i + 2
    else LeastRows(p, c, k) + 2
  }

  /** The day has one row more than `n` pages bring. */
  function SparseRow(p: int, c: nat, n: nat, i: int): Row {
    var time := if i <= LeastRows(p, c, n) then TimeOf(p, c, n, i) else i + 2;
    Row(i, 0, time, 0, 0, 0)
  }

  function SparseRows(p: int, c: nat, n: nat): seq<Row>
    requires c < p
  {
    LeastGrows(p, c, n);
    seq(LeastRows(p, c, n) + 1, (j: nat) => SparseRow(p, c, n, j + 1))
  }

  function SparseDay(p: int, c: nat, n: nat): Slices.Piece {
    Slices.Piece(1, LeastRows(p, c, n) + 3)
  }

  lemma {:induction false} TimesRise(p: int, c: nat, k: nat, i: int, j: int)
    requires 0 < c < p && 1 <= i <= j <= LeastRows(p, c, k)
    ensures i + 2 <= TimeOf(p, c, k, i) <= TimeOf(p, c, k, j) <= LeastRows(p, c, k) + 2
  {
    if k == 0 {
    } else {
      hide LeastRows, LeastFront;
      LeastGrows(p, c, k - 1);
      LeastGrows(p, c, k);
      var b := LeastRows(p, c, k - 1);
      if i <= b {
        TimesRise(p, c, k - 1, i, if j <= b then j else i);
      }
    }
  }

  /** A time is that of at most `c` rows, next to each other. */
  lemma {:induction false} TimesAreSparse(p: int, c: nat, k: nat, t: int) returns (a: nat)
    requires 0 < c < p
    ensures forall i :: 1 <= i <= LeastRows(p, c, k) && TimeOf(p, c, k, i) == t ==> a < i <= a + c
  {
    if k == 0 {
      a := 0;
    } else {
      hide LeastRows, LeastFront;
      LeastGrows(p, c, k - 1);
      LeastGrows(p, c, k);
      var b := LeastRows(p, c, k - 1);
      if t <= b + 2 {
        a := TimesAreSparse(p, c, k - 1, t);
      } else {
        a := if t <= LeastFront(p, c, k) + 2 then t - 3 else LeastFront(p, c, k);
        forall i | 1 <= i <= b
          ensures TimeOf(p, c, k, i) < t
        {
          TimesRise(p, c, k - 1, i, i);
        }
      }
    }
  }

  /** The page after the `m`-th begins with the rows behind the least front of `m` pages. */
  lemma {:induction false} BehindFront(p: int, c: nat, k: nat, m: nat, i: int)
    requires 0 < c < p && m <= k && 1 <= i <= LeastRows(p, c, k)
    ensures m > 0 ==> (LeastRows(p, c, m) + 2 <= TimeOf(p, c, k, i) <==> LeastFront(p, c, m) < i)
    ensures m > 0 && i == LeastRows(p, c, m) ==> TimeOf(p, c, k, i) == LeastRows(p, c, m) + 2
  {
    if k == 0 {
    } else {
      hide LeastRows, LeastFront;
      LeastGrows(p, c, k - 1);
      LeastGrows(p, c, k);
      if m > 0 {
        LeastGrows(p, c, m);
      }
      var b := LeastRows(p, c, k - 1);
      if m < k && i <= b {
        BehindFront(p, c, k - 1, m, i);
      } else if m == k && i <= b {
        TimesRise(p, c, k - 1, i, i);
      } else if m < k {
        LeastMonotone(p, c, m, k - 1);
      }
    }
  }

  lemma {:induction false} LeastMonotone(p: int, c: nat, m: nat, n: nat)
    requires c < p && m <= n
    ensures LeastRows(p, c, m) <= LeastRows(p, c, n)
  {
    if m == n {
    } else {
      LeastMonotone(p, c, m, n - 1);
      LeastGrows(p, c, n - 1);
    }
  }

  lemma SparseInOrder(p: int, c: nat, n: nat)
    requires 0 < c < p
    ensures InOrder(SparseRows(p, c, n)) && UniqueTxids(Elements(SparseRows(p, c, n)))
    ensures forall r :: r in SparseRows(p, c, n) ==> 3 <= r.endTime <= SparseDay(p, c, n).e && r.objHash == 0
  {
    hide LeastRows, LeastFront, TimeOf;
    var rows := SparseRows(p, c, n);
    LeastGrows(p, c, n);
    forall i, j | 0 <= i <= j < |rows|
      ensures 3 <= rows[i].endTime <= rows[j].endTime <= SparseDay(p, c, n).e
    {
      if i + 1 <= LeastRows(p, c, n) {
        TimesRise(p, c, n, i + 1, if j + 1 <= LeastRows(p, c, n) then j + 1 else i + 1);
      }
    }
  }

  lemma SparseIsSparse(p: int, c: nat, n: nat)
    requires 0 < c < p
    ensures AtMostPerInstant(Elements(SparseRows(p, c, n)), [0], 1, SparseDay(p, c, n).e, c)
  {
    hide LeastRows, LeastFront, TimeOf, Elements;
    var rows := SparseRows(p, c, n);
    forall t
      ensures |Wanted(Elements(rows), [0], t, t)| <= c
    {
      var a := TimesOfRows(p, c, n, t);
      var here := if a <= |rows| then rows[a..Min(a + c, |rows|)] else [];
      forall r | r in Wanted(Elements(rows), [0], t, t)
        ensures r in Elements(here)
      {
        RowAmong(rows, r, a, c, t);
      }
      SubsetSize(Wanted(Elements(rows), [0], t, t), Elements(here));
      ElementsSize(here);
    }
  }

  lemma RowAmong(rows: seq<Row>, r: Row, a: nat, c: nat, t: int)
    requires r in Elements(rows) && r.endTime == t
    requires forall j :: 0 <= j < |rows| && rows[j].endTime == t ==> a <= j < a + c
    ensures a <= |rows| && r in Elements(rows[a..Min(a + c, |rows|)])
  {
    var j :| 0 <= j < |rows| && rows[j] == r;
    assert rows[a..Min(a + c, |rows|)][j - a] == r;
  }

  lemma TimesOfRows(p: int, c: nat, n: nat, t: int) returns (a: nat)
    requires 0 < c < p
    ensures forall j :: 0 <= j < |SparseRows(p, c, n)| && SparseRows(p, c, n)[j].endTime == t ==> a <= j < a + c
  {
    hide LeastRows, LeastFront, TimeOf;
    LeastGrows(p, c, n);
    var last := LeastRows(p, c, n);
    if t == last + 3 {
      a := last;
      forall j | 0 <= j < last
        ensures SparseRows(p, c, n)[j].endTime < t
      {
        TimesRise(p, c, n, j + 1, j + 1);
      }
    } else {
      a := TimesAreSparse(p, c, n, t);
    }
  }

  // Reading the day

  /** Where the `m`-th page of the day ends. The first page starts where the day or the cover of an empty front does. */
  function CursorAt(p: int, c: nat, m: nat, first: PastCursor): PastCursor {
    if m == 0 then first else PastCursor(true, LeastRows(p, c, m), LeastRows(p, c, m) + 2)
  }

  lemma SparseAnswer(p: int, c: nat, n: nat, m: nat, first: PastCursor)
    requires 0 < c < p && m < n && (first == START || first == HandedAt(2))
    ensures 0 <= LeastFront(p, c, m) < LeastRows(p, c, m + 1) < |SparseRows(p, c, n)|
    ensures OrderedCollector(SparseRows(p, c, n))(BuildRequest([0], 1, SparseDay(p, c, n).e, p, CursorAt(p, c, m, first)))
            == Answer(SparseRows(p, c, n)[LeastFront(p, c, m)..LeastRows(p, c, m + 1)], CursorAt(p, c, m + 1, first))
  {
    hide LeastRows, LeastFront, TimeOf, SparseRows, OrderedCollector, Matching;
    var rows, cursor := SparseRows(p, c, n), CursorAt(p, c, m, first);
    var q := BuildRequest([0], 1, SparseDay(p, c, n).e, p, cursor);
    var a := LeastFront(p, c, m);
    SparseSize(p, c, n);
    LeastGrows(p, c, m);
    LeastMonotone(p, c, m + 1, n);
    LeastNothing(p, c, m);
    SparseInOrder(p, c, n);
    forall j | 0 <= j < |rows|
      ensures InRequest(q, rows[j]) <==> a <= j
    {
      assert rows[j] in rows;
      AskedRow(p, c, n, m, j);
    }
    MatchingRest(q, rows, a);
    CollectorGives(rows, q, a);
    LastOfPage(p, c, n, m);
  }

  /** One page more. */
  lemma SparsePage(p: int, c: nat, n: nat, m: nat, first: PastCursor)
    requires 0 < c < p && m < n && (first == START || first == HandedAt(2))
    ensures 0 <= LeastFront(p, c, m) < LeastRows(p, c, m + 1) < |SparseRows(p, c, n)|
    ensures var cursor := CursorAt(p, c, m, first);
            FetchedPage(OrderedCollector(SparseRows(p, c, n))(BuildRequest([0], 1, SparseDay(p, c, n).e, p, cursor)), cursor)
            == Page(SparseRows(p, c, n)[LeastFront(p, c, m)..LeastRows(p, c, m + 1)], CursorAt(p, c, m + 1, first), false, false)
  {
    hide LeastRows, LeastFront, SparseRows, OrderedCollector;
    SparseAnswer(p, c, n, m, first);
    LeastGrows(p, c, m);
    LeastNothing(p, c, 0);
    LeastMonotone(p, c, 1, m + 1);
  }

  lemma AskedRow(p: int, c: nat, n: nat, m: nat, j: nat)
    requires 0 < c < p && m < n && j < |SparseRows(p, c, n)|
    ensures m > 0 ==> (LeastRows(p, c, m) + 2 <= SparseRows(p, c, n)[j].endTime <==> LeastFront(p, c, m) <= j)
    ensures LeastFront(p, c, 0) == 0
  {
    hide LeastRows, TimeOf;
    LeastGrows(p, c, n);
    LeastGrows(p, c, m);
    LeastMonotone(p, c, m, n);
    if j + 1 <= LeastRows(p, c, n) {
      BehindFront(p, c, n, m, j + 1);
    }
  }

  lemma LastOfPage(p: int, c: nat, n: nat, m: nat)
    requires 0 < c < p && m < n
    ensures var b := LeastRows(p, c, m + 1);
            0 < b < |SparseRows(p, c, n)| && SparseRows(p, c, n)[b - 1].endTime == b + 2 && SparseRows(p, c, n)[b - 1].txid == b
  {
    hide LeastRows, LeastFront, TimeOf;
    LeastGrows(p, c, m);
    LeastNothing(p, c, m + 1);
    LeastMonotone(p, c, m + 1, n);
    BehindFront(p, c, n, m + 1, LeastRows(p, c, m + 1));
  }

  lemma {:induction false} SparsePages(p: int, c: nat, n: nat, m: nat, first: PastCursor)
    requires 0 < c < p && m <= n <= MAX_PAGES && (first == START || first == HandedAt(2)) && LeastRows(p, c, n) < MAX_ROWS
    ensures var rows := SparseRows(p, c, n);
            && 0 <= LeastRows(p, c, m) < |rows| && 0 <= LeastRows(p, c, n) < |rows|
            && ReadDay(OrderedCollector(rows), [0], SparseDay(p, c, n), p, CursorAt(p, c, m, first), MAX_PAGES - n + m,
                       rows[..LeastRows(p, c, m)])
               == (rows[..LeastRows(p, c, n)], false, false)
    decreases n - m
  {
    hide LeastRows, LeastFront, SparseRows, OrderedCollector, ReadDay, FetchedPage, FreshRows, Txids, InOrder;
    SparseSize(p, c, n);
    LeastMonotone(p, c, m, n);
    LeastGrows(p, c, m);
    if m == n {
      GuardReached(OrderedCollector(SparseRows(p, c, n)), SparseDay(p, c, n), p, CursorAt(p, c, m, first),
                   SparseRows(p, c, n)[..LeastRows(p, c, m)]);
    } else {
      var rows, cursor := SparseRows(p, c, n), CursorAt(p, c, m, first);
      var seen, b := LeastRows(p, c, m), LeastRows(p, c, m + 1);
      SparsePages(p, c, n, m + 1, first);
      LeastMonotone(p, c, m + 1, n);
      SparsePage(p, c, n, m, first);
      SparseInOrder(p, c, n);
      FreshBehind(rows, LeastFront(p, c, m), seen, b);
      assert rows[..seen] + rows[seen..b] == rows[..b];
      NextPage(OrderedCollector(rows), SparseDay(p, c, n), p, cursor, MAX_PAGES - n + m, rows[..seen],
               Page(rows[LeastFront(p, c, m)..b], CursorAt(p, c, m + 1, first), false, false), rows[..b]);
    }
  }

  lemma GuardReached(ask: Request -> Answer, day: Slices.Piece, p: int, cursor: PastCursor, out: seq<Row>)
    ensures ReadDay(ask, [0], day, p, cursor, MAX_PAGES, out) == (out, false, false)
  {
  }

  lemma NextPage(ask: Request -> Answer, day: Slices.Piece, p: int, cursor: PastCursor, pages: nat, out: seq<Row>,
                 page: Page, out': seq<Row>)
    requires pages < MAX_PAGES && !page.done && |out'| < MAX_ROWS
    requires page == FetchedPage(ask(BuildRequest([0], day.s, day.e, p, cursor)), cursor)
    requires out' == out + FreshRows(Txids(out), page.rows)
    ensures ReadDay(ask, [0], day, p, cursor, pages, out) == ReadDay(ask, [0], day, p, page.next, pages + 1, out')
  {
  }

  lemma SparseSize(p: int, c: nat, n: nat)
    requires c < p
    ensures 0 <= LeastRows(p, c, n) && |SparseRows(p, c, n)| == LeastRows(p, c, n) + 1
    ensures LeastRows(p, c, 0) == 0
  {
    LeastGrows(p, c, n);
  }

  /** For every page size and every number of rows per instant for which the row limit does not come first there
      is a collector that holds at most that many rows per instant and is honest, and a day that, without a
      cache or behind an empty front up to the second instant, ends at the page guard: the result is not
      reported as truncated, and the last row of the day has not been counted. */
  lemma GuardHidesRows(cached: bool, p: int, c: nat)
    requires 0 < c < p && !LimitComesFirst(cached, p, c)
    ensures var n := if cached then MAX_PAGES - 1 else MAX_PAGES;
            var rows, day := SparseRows(p, c, n), SparseDay(p, c, n);
            && day.s == 1 && 2 < day.e && UniqueTxids(Elements(rows)) && AtMostPerInstant(Elements(rows), [0], day.s, day.e, c)
            && (forall q :: Honest(Elements(rows), q, OrderedCollector(rows)(q)))
            && Wanted(Elements(rows), [0], 1, 2) == {}
            && var (out, truncated, finished) :=
                 ReadDay(OrderedCollector(rows), [0], day, p, if cached then HandedAt(2) else START, if cached then 1 else 0, []);
               !truncated && !finished && !AllCounted(Elements(rows), [0], day, out)
  {
    hide LeastRows, LeastFront, SparseRows, OrderedCollector, ReadDay, Honest, InOrder;
    var n := if cached then MAX_PAGES - 1 else MAX_PAGES;
    var rows, day := SparseRows(p, c, n), SparseDay(p, c, n);
    SparseSize(p, c, n);
    LeastNothing(p, c, n);
    SparseInOrder(p, c, n);
    SparseIsSparse(p, c, n);
    forall q
      ensures Honest(Elements(rows), q, OrderedCollector(rows)(q))
    {
      OrderedIsHonest(rows, q);
    }
    var first := if cached then HandedAt(2) else START;
    SparsePages(p, c, n, 0, first);
    assert rows[..0] == [];
    LastIsMissing(p, c, n);
  }

  /** The count of that day, with a sound cache or without one: a distribution that does not say it is truncated,
      of counted rows among which one of the day is missing. */
  method UnreportedDay(cached: bool, p: int, c: nat)
    returns (d: Distribution.ElapsedDistribution, ghost coll: set<Row>, ghost day: Slices.Piece, ghost out: seq<Row>)
    requires 0 < c < p && !LimitComesFirst(cached, p, c)
    ensures UniqueTxids(coll) && AtMostPerInstant(coll, [0], day.s, day.e, c)
    ensures Distribution.IsDistribution(d, Samples(out)) && !d.truncated && !AllCounted(coll, [0], day, out)
  {
    hide LeastRows, LeastFront, SparseRows, SparseDay, OrderedCollector, ReadDay, Honest, AtMostPerInstant, AllCounted, Samples;
    var n := if cached then MAX_PAGES - 1 else MAX_PAGES;
    var rows, piece := SparseRows(p, c, n), SparseDay(p, c, n);
    coll, day := Elements(rows), piece;
    var db: CacheDb? := null;
    GuardHidesRows(cached, p, c);
    if cached {
      db := new CacheDb();
      db.MarkXlog([0], 1, 2);
      FrontIsEmpty(db, coll, day);
    }
    var acc := new Distribution.Accumulator();
    NothingYet(Wanted(coll, [0], day.s, day.e));
    var seen, truncated;
    ghost var finished;
    seen, truncated, finished, out :=
      CountDay(db, [0], piece, p, if cached then 2 else piece.e, OrderedCollector(rows), (i: nat, j: nat) => false, acc, {},
               coll, coll, c, Wanted(coll, [0], day.s, day.e), []);
    d := acc.Finish(truncated);
  }

  lemma FrontIsEmpty(db: CacheDb, coll: set<Row>, day: Slices.Piece)
    requires db.Valid() && db.xlog == map[] && Marked({}, [0], 1, 2, db.cover)
    requires Wanted(coll, [0], 1, 2) == {} && day.s == 1 && 2 < day.e
    ensures CacheGood(db, coll, coll) && EmptyFront(db, [0], day, 2)
  {
    assert 0 in [0];
    forall r | r in coll
      ensures !CoveredAt(db.cover, r.objHash, r.endTime)
    {
      assert r !in Wanted(coll, [0], 1, 2);
    }
  }

  lemma LastIsMissing(p: int, c: nat, n: nat)
    requires 0 < c < p
    ensures var rows := SparseRows(p, c, n);
            0 <= LeastRows(p, c, n) < |rows| && !AllCounted(Elements(rows), [0], SparseDay(p, c, n), rows[..LeastRows(p, c, n)])
  {
    hide LeastRows, TimeOf;
    SparseSize(p, c, n);
    SparseInOrder(p, c, n);
    var rows, k := SparseRows(p, c, n), LeastRows(p, c, n);
    assert rows[k] in rows && rows[k] in Wanted(Elements(rows), [0], 1, SparseDay(p, c, n).e);
    assert rows[k] !in rows[..k];
  }

  /** With one row per instant the limit comes first from page size 1,001 on, with a cache from 1,007 on; the
      smallest page size that can be configured is below. */
  lemma SmallestSafePage()
    ensures !LimitComesFirst(false, 1_000, 1) && LimitComesFirst(false, 1_001, 1)
    ensures !LimitComesFirst(true, 1_006, 1) && LimitComesFirst(true, 1_007, 1)
  {
    LeastRowsClosed(1_000, 1, MAX_PAGES);
    LeastRowsClosed(1_001, 1, MAX_PAGES);
    LeastRowsClosed(1_006, 1, MAX_PAGES - 1);
    LeastRowsClosed(1_007, 1, MAX_PAGES - 1);
  }
}
