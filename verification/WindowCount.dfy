/** The distribution of a window: a client of the past pages, day by day. */
module WindowCount {
  import opened Wrappers
  import opened Rows
  import opened Cover
  import opened CacheDb
  import opened PastPage
  import Distribution
  import Slices

  const MAX_PAGES: nat := 200
  const MAX_ROWS: nat := 200_000

  function Samples(rows: seq<Row>): seq<Distribution.Sample> {
    if rows == [] then []
    else
      var r := rows[|rows| - 1];
      Samples(rows[..|rows| - 1]) + [Distribution.Sample(r.elapsed, r.error != 0)]
  }

  lemma SamplesSnoc(rows: seq<Row>, r: Row)
    ensures Samples(rows + [r]) == Samples(rows) + [Distribution.Sample(r.elapsed, r.error != 0)]
  {
    assert (rows + [r])[..|rows|] == rows;
  }

  lemma {:induction false} SamplesSize(rows: seq<Row>)
    ensures |Samples(rows)| == |rows|
  {
    if rows == [] {
    } else {
      SamplesSize(rows[..|rows| - 1]);
    }
  }

  /** The window so far: each counted row once, all of them wanted. */
  ghost predicate CountedOnce(want: set<Row>, seen: set<int>, out: seq<Row>) {
    && seen == Txids(out)
    && (forall r :: r in out ==> r in want)
    && (forall i, j :: 0 <= i < j < |out| ==> out[i].txid != out[j].txid)
  }

  method AddAll(acc: Distribution.Accumulator, rows: seq<Row>, ghost out: seq<Row>)
    requires acc.Valid() && acc.added == Samples(out)
    modifies acc, acc.counts, acc.errors, acc.fine
    ensures acc.Valid() && acc.added == Samples(out + rows)
  {
    assert out + rows[..0] == out;
    for i := 0 to |rows|
      invariant acc.Valid() && acc.added == Samples(out + rows[..i])
    {
      SamplesSnoc(out + rows[..i], rows[i]);
      assert out + rows[..i] + [rows[i]] == out + rows[..i + 1];
      acc.Add(rows[i].elapsed, rows[i].error != 0);
    }
    assert rows[..|rows|] == rows;
  }

  /** The cache holds rows of the collector only, and the needed ones wherever it says covered. */
  ghost predicate CacheGood(db: CacheDb?, coll: set<Row>, need: set<Row>)
    reads db
  {
    db != null ==> db.Valid() && Genuine(db.xlog, coll) && Sound(db.xlog, db.cover, need)
  }

  /** Counts the rows of a page that were not counted before. */
  method TakePage(acc: Distribution.Accumulator, seen0: set<int>, rows: seq<Row>, ghost want: set<Row>, ghost out0: seq<Row>)
    returns (seen: set<int>, ghost out: seq<Row>)
    requires UniqueTxids(want) && CountedOnce(want, seen0, out0) && forall r :: r in rows ==> r in want
    requires acc.Valid() && acc.added == Samples(out0)
    modifies acc, acc.counts, acc.errors, acc.fine
    ensures out == out0 + FreshRows(seen0, rows)
    ensures acc.Valid() && acc.added == Samples(out) && acc.total == |out| && CountedOnce(want, seen, out)
    ensures forall r :: r in out <==> r in out0 || r in rows
  {
    var unseen;
    seen, unseen := DedupeByTxid(seen0, rows);
    out := out0 + unseen;
    AddFresh(want, seen0, out0, rows, out);
    AddAll(acc, unseen, out0);
    SamplesSize(out);
  }

  // Enough rows before the page guard

  ghost predicate AtMostPerInstant(coll: set<Row>, hashes: seq<int>, from: int, to: int, c: nat) {
    forall t :: from <= t <= to ==> |Wanted(coll, hashes, t, t)| <= c
  }

  /** The least number of rows that `n` full pages of `p` rows bring, when an instant holds at most `c` rows: a
      page repeats none of the rows before the last instant of the page before it. */
  function LeastRows(p: int, c: nat, n: nat): int
    decreases n, 0
  {
    if n == 0 then 0 else p + LeastFront(p, c, n - 1)
  }

  /** The least number of rows before the last instant of `n` full pages. */
  function LeastFront(p: int, c: nat, n: nat): int
    decreases n, 1
  {
    if n == 0 then 0 else Max(LeastRows(p, c, n) - c, LeastRows(p, c, n - 1))
  }

  lemma {:induction false} LeastGrows(p: int, c: nat, n: nat)
    requires c < p
    ensures 0 <= LeastFront(p, c, n) <= LeastRows(p, c, n) < LeastRows(p, c, n + 1)
    ensures LeastRows(p, c, n) - c <= LeastFront(p, c, n)
    ensures n > 0 ==> LeastRows(p, c, n - 1) <= LeastFront(p, c, n)
    ensures n > 0 && c > 0 ==> LeastFront(p, c, n) < LeastRows(p, c, n)
  {
    if n == 0 {
    } else {
      LeastGrows(p, c, n - 1);
    }
  }

  /** Where two crowded instants fit into a page, every page but the first brings `p - c` rows at least. */
  lemma {:induction false} LeastRowsClosed(p: int, c: nat, n: nat)
    requires n > 0 && 2 * c <= p
    ensures LeastRows(p, c, n) == p + (n - 1) * (p - c)
    ensures LeastFront(p, c, n) == LeastRows(p, c, n) - c
  {
    if n == 1 {
    } else {
      LeastRowsClosed(p, c, n - 1);
      assert (n - 1) * (p - c) == (n - 2) * (p - c) + (p - c);
    }
  }

  /** As many pages as the guard allows bring so many rows that the row limit is reached first. With a cache, one
      page may be short: the one that hands over to the collector. */
  predicate LimitComesFirst(cached: bool, pageCount: int, c: nat) {
    LeastRows(pageCount, c, if cached then MAX_PAGES - 1 else MAX_PAGES) >= MAX_ROWS
  }

  ghost function Earlier(rows: set<Row>, t: int): set<Row> {
    set r | r in rows && r.endTime < t
  }

  /** The rows of a day read by `k` full pages, up to the time `last`. */
  ghost predicate ReadBy(coll: set<Row>, hashes: seq<int>, day: Slices.Piece, pageCount: int, c: nat,
                         k: nat, last: int, read: set<Row>) {
    && (forall r :: r in read ==> r in Wanted(coll, hashes, day.s, day.e) && r.endTime <= last)
    && |read| >= LeastRows(pageCount, c, k) && |Earlier(read, last)| >= LeastFront(pageCount, c, k)
  }

  /** A page repeats none of the rows before its start. */
  lemma PageAddsRows(start: int, read: set<Row>, rows: seq<Row>)
    requires Distinct(rows) && forall r :: r in rows ==> start <= r.endTime
    ensures |read + Elements(rows)| >= |Earlier(read, start)| + |rows|
  {
    var e := Elements(rows);
    ElementsSize(rows);
    SubsetSize(Earlier(read, start) + e, read + e);
  }

  lemma MostAreEarlier(coll: set<Row>, hashes: seq<int>, day: Slices.Piece, c: nat, read: set<Row>, last: int)
    requires AtMostPerInstant(coll, hashes, day.s, day.e, c) && day.s <= last <= day.e
    requires forall r :: r in read ==> r in Wanted(coll, hashes, day.s, day.e) && r.endTime <= last
    ensures |Earlier(read, last)| >= |read| - c
  {
    var here := read - Earlier(read, last);
    SubsetSize(here, Wanted(coll, hashes, last, last));
    assert read == Earlier(read, last) + here;
  }

  lemma FullPageRead(coll: set<Row>, hashes: seq<int>, day: Slices.Piece, pageCount: int, c: nat, k: nat,
                     last: int, read: set<Row>, start: int, page: Page)
    requires AtMostPerInstant(coll, hashes, day.s, day.e, c) && c < pageCount
    requires ReadBy(coll, hashes, day, pageCount, c, k, last, read)
    requires read != {} ==> last == start < page.next.lastXlogTime
    requires Distinct(page.rows) && day.s <= start <= page.next.lastXlogTime <= day.e
    requires forall r :: r in page.rows ==> r in Wanted(coll, hashes, start, day.e) && r.endTime <= page.next.lastXlogTime
    ensures ReadBy(coll, hashes, day, pageCount, c, if |page.rows| >= pageCount then k + 1 else k,
                   page.next.lastXlogTime, read + Elements(page.rows))
  {
    hide LeastRows, LeastFront;
    var all, next := read + Elements(page.rows), page.next.lastXlogTime;
    LeastNothing(pageCount, c, k);
    LeastGrows(pageCount, c, k);
    SubsetSize(read, all);
    SubsetSize(read, Earlier(all, next));
    PageAddsRows(start, read, page.rows);
    MostAreEarlier(coll, hashes, day, c, all, next);
  }

  lemma LeastNothing(p: int, c: nat, k: nat)
    requires c < p
    ensures LeastRows(p, c, 0) == LeastFront(p, c, 0) == 0
    ensures k > 0 ==> LeastRows(p, c, k) > 0
    ensures LeastRows(p, c, k + 1) == p + LeastFront(p, c, k)
    ensures LeastFront(p, c, k + 1) == Max(LeastRows(p, c, k + 1) - c, LeastRows(p, c, k))
  {
    if k > 0 {
      LeastGrows(p, c, k - 1);
    }
  }

  /** After `pages` pages that announced more, all of them full but at most the one that handed over. */
  ghost predicate ReadEnough(cached: bool, coll: set<Row>, hashes: seq<int>, day: Slices.Piece, pageCount: int, c: nat,
                             to: int, cursor: PastCursor, pages: nat, full: nat, read: set<Row>, out: seq<Row>) {
    && read <= Elements(out) && (read != {} ==> cursor.lastXlogTime != 0)
    && ReadBy(coll, hashes, day, pageCount, c, full, cursor.lastXlogTime, read)
    && (pages == full || (cached && pages == full + 1 && to <= StartOf(cursor, day.s)))
  }

  lemma PageReads(cached: bool, coll: set<Row>, hashes: seq<int>, day: Slices.Piece, pageCount: int, c: nat, to: int,
                  cursor: PastCursor, pages: nat, full: nat, read: set<Row>, page: Page, had: seq<Row>, out: seq<Row>)
    returns (full': nat, read': set<Row>)
    requires ReadEnough(cached, coll, hashes, day, pageCount, c, to, cursor, pages, full, read, had)
    requires AtMostPerInstant(coll, hashes, day.s, day.e, c) && c < pageCount && day.s <= StartOf(cursor, day.s)
    requires Sized(pageCount, StartOf(cursor, day.s), to, page) && (page.fromCache ==> cached)
    requires page.next.hasMore && 0 < page.next.lastXlogTime <= day.e && cursor.lastXlogTime < page.next.lastXlogTime
    requires forall r :: r in page.rows ==> r in Wanted(coll, hashes, StartOf(cursor, day.s), day.e)
    requires StartOf(cursor, day.s) <= page.next.lastXlogTime
    requires forall r :: r in out <==> r in had || r in page.rows
    ensures ReadEnough(cached, coll, hashes, day, pageCount, c, to, page.next, pages + 1, full', read', out)
  {
    hide LeastRows, LeastFront, ReadBy;
    FullPageRead(coll, hashes, day, pageCount, c, full, cursor.lastXlogTime, read, StartOf(cursor, day.s), page);
    full' := if |page.rows| >= pageCount then full + 1 else full;
    read' := read + Elements(page.rows);
  }

  /** If the guard ended a day below the row limit, the limit did not come first. */
  lemma GuardOnlyAfterLimit(cached: bool, coll: set<Row>, hashes: seq<int>, day: Slices.Piece, pageCount: int, c: nat,
                            to: int, cursor: PastCursor, full: nat, read: set<Row>, out: seq<Row>)
    requires ReadEnough(cached, coll, hashes, day, pageCount, c, to, cursor, MAX_PAGES, full, read, out)
    requires |out| < MAX_ROWS && c < pageCount
    ensures !LimitComesFirst(cached, pageCount, c)
  {
    hide LeastRows;
    SubsetSize(read, Elements(out));
    ElementsSize(out);
    if cached && full == MAX_PAGES {
      LeastGrows(pageCount, c, MAX_PAGES - 1);
    }
  }

  lemma UncrowdedBelow(coll: set<Row>, hashes: seq<int>, from: int, to: int, c: nat, pageCount: int)
    requires AtMostPerInstant(coll, hashes, from, to, c) && c < pageCount
    ensures Uncrowded(coll, hashes, from, to, pageCount)
  {
    forall t | from <= t <= to
      ensures |Wanted(coll, hashes, t, t)| < pageCount
    {
      assert |Wanted(coll, hashes, t, t)| <= c;
    }
  }

  // One day

  /** What has been counted of a day up to the cursor. */
  ghost predicate Upto(coll: set<Row>, hashes: seq<int>, day: Slices.Piece, start: int, out: seq<Row>) {
    forall r :: r in Wanted(coll, hashes, day.s, day.e) && r.endTime < start ==> r in out
  }

  ghost predicate InDay(day: Slices.Piece, cursor: PastCursor) {
    cursor != START ==> 0 < cursor.lastXlogTime && day.s <= cursor.lastXlogTime <= day.e
  }

  ghost predicate AllCounted(coll: set<Row>, hashes: seq<int>, day: Slices.Piece, out: seq<Row>) {
    forall r :: r in Wanted(coll, hashes, day.s, day.e) ==> r in out
  }

  /** A page brings the count up to its cursor, or to the end of the day. Rows that are not needed have been
      counted before. */
  lemma PageCounts(coll: set<Row>, need: set<Row>, hashes: seq<int>, day: Slices.Piece, cursor: PastCursor, page: Page,
                   out0: seq<Row>, out: seq<Row>)
    requires PageOk(coll, need, hashes, day.s, day.e, cursor, page)
    requires Upto(coll, hashes, day, StartOf(cursor, day.s), out0)
    requires forall r :: r in coll && r !in need ==> r in out0
    requires forall r :: r in out <==> r in out0 || r in page.rows
    ensures !page.next.hasMore ==> AllCounted(coll, hashes, day, out)
    ensures page.next.hasMore ==> Upto(coll, hashes, day, page.next.lastXlogTime, out)
  {
    forall r | r in Wanted(coll, hashes, day.s, day.e) && (!page.next.hasMore || r.endTime < page.next.lastXlogTime)
      ensures r in out
    {
      if r.endTime >= StartOf(cursor, day.s) && r in need {
        assert r in Wanted(need, hashes, StartOf(cursor, day.s), day.e);
      }
    }
  }

  /** What a page leaves in the cache for the day that is being counted. After the last page only rows of the
      day may be missing, and these have been counted; if nothing was evicted, none is. */
  lemma PageLeavesCache(store: map<int, Row>, cover: set<Interval>, store': map<int, Row>, cover': set<Interval>,
                        coll: set<Row>, need: set<Row>, hashes: seq<int>, day: Slices.Piece, to: int,
                        cursor: PastCursor, page: Page, cut: Option<int>)
    requires UniqueTxids(coll) && Separated(cover) && Genuine(store, coll) && need <= coll && Sound(store, cover, need)
    requires PageOk(coll, need, hashes, day.s, day.e, cursor, page) && to <= day.e
    requires TablesAfter(store, cover, store', cover', hashes, day.s, to, page, cut) && (page.fromCache ==> cut.None?)
    ensures Genuine(store', coll)
    ensures page.next.hasMore ==> Sound(store', cover', need)
    ensures Sound(store', cover', need - Wanted(coll, hashes, day.s, day.e))
    ensures cut.None? && FrontStored(store, need, hashes, day.s, to, StartOf(cursor, day.s)) ==>
              && Sound(store', cover', need)
              && (page.next.hasMore ==> FrontStored(store', need, hashes, day.s, to, page.next.lastXlogTime))
  {
    HeldAfterPage(store, cover, store', cover', coll, hashes, day.s, to, page, cut);
    if !page.fromCache {
      PageKeepsSound(store, cover, store', coll, need, page.rows, cut);
      if !page.next.hasMore && day.s <= to {
        LastPageSoundIff(store, cover, store', cover', coll, need, hashes, day.s, to, page, cut);
      }
    }
    forall r | r in Wanted(need, hashes, day.s, to)
      ensures r.endTime < StartOf(cursor, day.s) || r in Wanted(need, hashes, StartOf(cursor, day.s), day.e)
    {
    }
  }

  /** The pages of a day as they come from the collector: what has been counted in the end, whether the row limit
      was reached, and whether the day was read to its end. */
  function ReadDay(ask: Request -> Answer, hashes: seq<int>, day: Slices.Piece, pageCount: int,
                   cursor: PastCursor, pages: nat, out: seq<Row>): (seq<Row>, bool, bool)
    decreases MAX_PAGES - pages
  {
    if pages >= MAX_PAGES then (out, false, false)
    else
      var page := FetchedPage(ask(BuildRequest(hashes, day.s, day.e, pageCount, cursor)), cursor);
      var out' := out + FreshRows(Txids(out), page.rows);
      if |out'| >= MAX_ROWS then (out', true, false)
      else if page.done then (out', false, !page.next.hasMore)
      else ReadDay(ask, hashes, day, pageCount, page.next, pages + 1, out')
  }

  /** The loop is on its way to the given result. */
  ghost predicate ComesTo(ask: Request -> Answer, hashes: seq<int>, day: Slices.Piece, pageCount: int, cursor: PastCursor,
                          pages: nat, out: seq<Row>, truncated: bool, done: bool, all: (seq<Row>, bool, bool)) {
    all == if truncated then (out, true, false)
           else if done then (out, false, !cursor.hasMore)
           else ReadDay(ask, hashes, day, pageCount, cursor, pages, out)
  }

  lemma StartComesTo(ask: Request -> Answer, hashes: seq<int>, day: Slices.Piece, pageCount: int, cursor: PastCursor,
                     pages: nat, out: seq<Row>)
    ensures ComesTo(ask, hashes, day, pageCount, cursor, pages, out, false, false,
                    ReadDay(ask, hashes, day, pageCount, cursor, pages, out))
  {
  }

  lemma NextComesTo(ask: Request -> Answer, hashes: seq<int>, day: Slices.Piece, pageCount: int, cursor: PastCursor,
                    pages: nat, out: seq<Row>, page: Page, out': seq<Row>, all: (seq<Row>, bool, bool))
    requires pages < MAX_PAGES && ComesTo(ask, hashes, day, pageCount, cursor, pages, out, false, false, all)
    requires page == FetchedPage(ask(BuildRequest(hashes, day.s, day.e, pageCount, cursor)), cursor)
    requires out' == out + FreshRows(Txids(out), page.rows)
    ensures var full := |out'| >= MAX_ROWS;
            ComesTo(ask, hashes, day, pageCount, page.next, pages + 1, out', full, !full && page.done, all)
  {
  }

  lemma EndComesTo(ask: Request -> Answer, hashes: seq<int>, day: Slices.Piece, pageCount: int, cursor: PastCursor,
                   pages: nat, out: seq<Row>, truncated: bool, done: bool, all: (seq<Row>, bool, bool))
    requires ComesTo(ask, hashes, day, pageCount, cursor, pages, out, truncated, done, all)
    requires truncated || done || pages >= MAX_PAGES
    ensures all == (out, truncated, !truncated && done && !cursor.hasMore)
  {
  }

  /** The next page comes from the collector. */
  ghost predicate NoFront(db: CacheDb?, hashes: seq<int>, day: Slices.Piece, to: int, cursor: PastCursor)
    reads db
  {
    db == null || !FrontCovered(db.cover, hashes, day.s, to, cursor)
  }

  /** The cache covers the front of the day, and there are no rows in it. */
  ghost predicate EmptyFront(db: CacheDb?, hashes: seq<int>, day: Slices.Piece, to: int)
    reads db
  {
    && db != null && FrontCovered(db.cover, hashes, day.s, to, START)
    && Stored(db.xlog, hashes, day.s, to) == {} && 0 < to < day.e
  }

  /** An eviction covers nothing. */
  lemma StillNoFront(cover: set<Interval>, hashes: seq<int>, s: int, to: int, cursor: PastCursor, next: PastCursor, cut: Option<int>)
    requires !FrontCovered(cover, hashes, s, to, cursor) && Separated(cover) && StartOf(cursor, s) <= StartOf(next, s)
    ensures !FrontCovered(AfterCut(cover, cut), hashes, s, to, next)
  {
    if cut.Some? {
      TrimExact(cover, cut.value);
    }
  }

  ghost predicate FrontKept(db: CacheDb?, need: set<Row>, hashes: seq<int>, day: Slices.Piece, to: int, start: int)
    reads db
  {
    db != null ==> FrontStored(db.xlog, need, hashes, day.s, to, start)
  }

  /** Only a mark covers anything, and an empty front gives an empty page. */
  lemma PageLeavesFront(store: map<int, Row>, cover: set<Interval>, store': map<int, Row>, cover': set<Interval>,
                        hashes: seq<int>, day: Slices.Piece, to: int, pageCount: int, cursor: PastCursor, page: Page, cut: Option<int>)
    requires TablesAfter(store, cover, store', cover', hashes, day.s, to, page, cut) && Separated(cover)
    ensures (&& !FrontCovered(cover, hashes, day.s, to, cursor) && !page.fromCache && page.next.hasMore
             && StartOf(cursor, day.s) <= StartOf(page.next, day.s)) ==> !FrontCovered(cover', hashes, day.s, to, page.next)
    ensures (&& page.fromCache && cut.None? && cursor == START && Stored(store, hashes, day.s, to) == {}
             && ReadFrom(store', hashes, day.s, day.e, to, pageCount, cursor, page)) ==>
              page == CachedPage([], Max(pageCount, 1), to, day.e, START)
  {
    if !FrontCovered(cover, hashes, day.s, to, cursor) && StartOf(cursor, day.s) <= StartOf(page.next, day.s) {
      StillNoFront(cover, hashes, day.s, to, cursor, page.next, cut);
    }
  }

  /** Gets one page of a day, and says what it leaves in the cache. */
  method DayPage(db: CacheDb?, hashes: seq<int>, day: Slices.Piece, pageCount: int, sealBefore: int,
                 ask: Request -> Answer, over: nat -> bool, cursor: PastCursor, ghost coll: set<Row>, ghost need: set<Row>)
    returns (page: Page)
    requires UniqueTxids(coll) && 0 <= day.s < day.e && need <= coll && CacheGood(db, coll, need)
    requires forall q :: Honest(coll, q, ask(q))
    requires InDay(day, cursor)
    modifies if db == null then {} else {db}
    ensures PageOk(coll, need, hashes, day.s, day.e, cursor, page)
    ensures Advances(pageCount, day.s, day.e, cursor, page)
    ensures Sized(pageCount, StartOf(cursor, day.s), Min(day.e, sealBefore), page) && (page.fromCache ==> db != null)
    ensures CacheGood(db, coll, if page.next.hasMore then need else need - Wanted(coll, hashes, day.s, day.e))
    ensures !over(0) && old(FrontKept(db, need, hashes, day, Min(day.e, sealBefore), StartOf(cursor, day.s))) ==>
              && CacheGood(db, coll, need)
              && (page.next.hasMore ==> FrontKept(db, need, hashes, day, Min(day.e, sealBefore), page.next.lastXlogTime))
    ensures old(NoFront(db, hashes, day, Min(day.e, sealBefore), cursor)) ==>
              && page == FetchedPage(ask(BuildRequest(hashes, day.s, day.e, pageCount, cursor)), cursor)
              && (!page.done ==> NoFront(db, hashes, day, Min(day.e, sealBefore), page.next))
    ensures cursor == START && old(EmptyFront(db, hashes, day, Min(day.e, sealBefore))) ==>
              page == CachedPage([], Max(pageCount, 1), Min(day.e, sealBefore), day.e, START)
  {
    hide Honest, Truthful, TablesAfter, FrontCovered, ReadFrom, Sized;
    ghost var to := Min(day.e, sealBefore);
    ghost var store, cover := if db == null then map[] else db.xlog, if db == null then {} else db.cover;
    var cut;
    HonestIsTruthful(coll, ask);
    page, cut := PastPage.PastPage(db, hashes, day.s, day.e, pageCount, cursor, sealBefore, ask,
                                   (i: nat) => false, over, coll, need);
    assert Spared(need, None) == need;
    if db != null {
      PageLeavesCache(store, cover, db.xlog, db.cover, coll, need, hashes, day, to, cursor, page, cut);
      PageLeavesFront(store, cover, db.xlog, db.cover, hashes, day, to, pageCount, cursor, page, cut);
    }
  }

  /** Gets one page of a day and counts its new rows. */
  method CountPage(db: CacheDb?, hashes: seq<int>, day: Slices.Piece, pageCount: int, sealBefore: int,
                   ask: Request -> Answer, over: nat -> bool, acc: Distribution.Accumulator, cursor: PastCursor,
                   seen0: set<int>, ghost coll: set<Row>, ghost need: set<Row>, ghost want: set<Row>, ghost out0: seq<Row>)
    returns (page: Page, seen: set<int>, ghost out: seq<Row>)
    requires UniqueTxids(coll) && 0 <= day.s < day.e
    requires need <= coll && CacheGood(db, coll, need) && forall r :: r in coll && r !in need ==> r in out0
    requires forall q :: Honest(coll, q, ask(q))
    requires UniqueTxids(want) && Wanted(coll, hashes, day.s, day.e) <= want && CountedOnce(want, seen0, out0)
    requires acc.Valid() && acc.added == Samples(out0)
    requires InDay(day, cursor) && Upto(coll, hashes, day, StartOf(cursor, day.s), out0)
    modifies if db == null then {} else {db}
    modifies acc, acc.counts, acc.errors, acc.fine
    ensures acc.Valid() && acc.added == Samples(out) && acc.total == |out| && CountedOnce(want, seen, out)
    ensures out == out0 + FreshRows(Txids(out0), page.rows) && forall r :: r in out <==> r in out0 || r in page.rows
    ensures PageOk(coll, need, hashes, day.s, day.e, cursor, page)
    ensures Advances(pageCount, day.s, day.e, cursor, page)
    ensures Sized(pageCount, StartOf(cursor, day.s), Min(day.e, sealBefore), page) && (page.fromCache ==> db != null)
    ensures !page.next.hasMore ==> AllCounted(coll, hashes, day, out)
    ensures !page.done ==> InDay(day, page.next) && Upto(coll, hashes, day, StartOf(page.next, day.s), out)
    ensures page.next.hasMore ==> CacheGood(db, coll, need)
    ensures CacheGood(db, coll, need - Elements(out))
    ensures !over(0) && old(FrontKept(db, need, hashes, day, Min(day.e, sealBefore), StartOf(cursor, day.s))) ==>
              && CacheGood(db, coll, need)
              && (!page.done ==> FrontKept(db, need, hashes, day, Min(day.e, sealBefore), StartOf(page.next, day.s)))
    ensures old(NoFront(db, hashes, day, Min(day.e, sealBefore), cursor)) ==>
              && page == FetchedPage(ask(BuildRequest(hashes, day.s, day.e, pageCount, cursor)), cursor)
              && (!page.done ==> NoFront(db, hashes, day, Min(day.e, sealBefore), page.next))
    ensures cursor == START && old(EmptyFront(db, hashes, day, Min(day.e, sealBefore))) ==>
              page == CachedPage([], Max(pageCount, 1), Min(day.e, sealBefore), day.e, START)
  {
    hide Honest, NoFront, EmptyFront, FrontKept, Samples, Sized;
    page := DayPage(db, hashes, day, pageCount, sealBefore, ask, over, cursor, coll, need);
    seen, out := TakePage(acc, seen0, page.rows, want, out0);
    PageCounts(coll, need, hashes, day, cursor, page, out0, out);
    if !page.next.hasMore {
      assert need - Elements(out) <= need - Wanted(coll, hashes, day.s, day.e);
    }
  }

  /** What is known of a day before it is counted: all pages come from the collector, or all but a first one from
      an empty front. */
  ghost predicate Known(plain: bool, handed: bool, pages: nat) {
    plain || (handed && pages > 0)
  }

  /** The cursor at which an empty front hands over. */
  function HandedAt(to: int): PastCursor {
    PastCursor(true, 0, to)
  }

  lemma HandedOver(db: CacheDb?, hashes: seq<int>, day: Slices.Piece, to: int, pageCount: int, page: Page,
                   had: seq<Row>, out: seq<Row>)
    requires page == CachedPage([], Max(pageCount, 1), to, day.e, START) && 0 < to < day.e
    requires out == had + FreshRows(Txids(had), page.rows)
    ensures out == had && page.next == HandedAt(to) && !page.done
    ensures NoFront(db, hashes, day, to, page.next)
  {
  }

  lemma EmptyFrontIs(db: CacheDb?, hashes: seq<int>, day: Slices.Piece, to: int)
    ensures EmptyFront(db, hashes, day, to) ==> 0 < to < day.e && !NoFront(db, hashes, day, to, START)
  {
  }

  lemma NothingCounted(db: CacheDb?, coll: set<Row>, need: set<Row>, hashes: seq<int>, day: Slices.Piece, to: int, out: seq<Row>)
    requires need <= coll && CacheGood(db, coll, need)
    ensures Upto(coll, hashes, day, StartOf(START, day.s), out)
    ensures FrontKept(db, need, hashes, day, to, StartOf(START, day.s)) && CacheGood(db, coll, need - Elements(out))
  {
  }

  /** How much of the day the pages have brought, if no instant fills a page. */
  ghost predicate BroughtEnough(cached: bool, coll: set<Row>, hashes: seq<int>, day: Slices.Piece, pageCount: int, c: nat,
                                to: int, cursor: PastCursor, pages: nat, out: seq<Row>) {
    c < pageCount ==>
      exists full: nat, read: set<Row> :: ReadEnough(cached, coll, hashes, day, pageCount, c, to, cursor, pages, full, read, out)
  }

  lemma NothingBroughtYet(cached: bool, coll: set<Row>, hashes: seq<int>, day: Slices.Piece, pageCount: int, c: nat, to: int,
                          out: seq<Row>)
    ensures BroughtEnough(cached, coll, hashes, day, pageCount, c, to, START, 0, out)
  {
    assert ReadEnough(cached, coll, hashes, day, pageCount, c, to, START, 0, 0, {}, out);
  }

  lemma PageBrought(cached: bool, coll: set<Row>, need: set<Row>, hashes: seq<int>, day: Slices.Piece, pageCount: int, c: nat,
                    to: int, cursor: PastCursor, pages: nat, page: Page, had: seq<Row>, out: seq<Row>)
    requires BroughtEnough(cached, coll, hashes, day, pageCount, c, to, cursor, pages, had)
    requires AtMostPerInstant(coll, hashes, day.s, day.e, c) && InDay(day, cursor) && 0 <= day.s
    requires PageOk(coll, need, hashes, day.s, day.e, cursor, page) && Advances(pageCount, day.s, day.e, cursor, page)
    requires Sized(pageCount, StartOf(cursor, day.s), to, page) && (page.fromCache ==> cached)
    requires forall r :: r in out <==> r in had || r in page.rows
    ensures !page.done ==> BroughtEnough(cached, coll, hashes, day, pageCount, c, to, page.next, pages + 1, out)
    ensures page.done && page.next.hasMore ==> !Uncrowded(coll, hashes, day.s, day.e, pageCount)
    ensures !page.next.hasMore ==> page.done
  {
    hide ReadEnough, AtMostPerInstant, Sized;
    if page.done && page.next.hasMore {
      StuckIsCrowded(coll, need, hashes, day.s, day.e, pageCount, cursor, page);
    }
    if c < pageCount && !page.done {
      var full: nat, read: set<Row> :| ReadEnough(cached, coll, hashes, day, pageCount, c, to, cursor, pages, full, read, had);
      var full', read' := PageReads(cached, coll, hashes, day, pageCount, c, to, cursor, pages, full, read, page, had, out);
    }
  }

  lemma GuardAfterLimit(cached: bool, coll: set<Row>, hashes: seq<int>, day: Slices.Piece, pageCount: int, c: nat, to: int,
                        cursor: PastCursor, out: seq<Row>)
    requires BroughtEnough(cached, coll, hashes, day, pageCount, c, to, cursor, MAX_PAGES, out)
    requires |out| < MAX_ROWS && c < pageCount
    ensures !LimitComesFirst(cached, pageCount, c)
  {
    var full: nat, read: set<Row> :| ReadEnough(cached, coll, hashes, day, pageCount, c, to, cursor, MAX_PAGES, full, read, out);
    GuardOnlyAfterLimit(cached, coll, hashes, day, pageCount, c, to, cursor, full, read, out);
  }

  /** Counts one day. The loop ends when a page says it is done, at the row limit, which is reported, or at the page
      guard, which is not. A day that was read to its end is counted completely, whatever is evicted
      meanwhile. If no instant fills a page and the limit comes before the guard, a day that is not reported
      was read to its end. Over a front that is not covered, or covered and empty, the result is that of
      `ReadDay`. */
  method CountDay(db: CacheDb?, hashes: seq<int>, day: Slices.Piece, pageCount: int, sealBefore: int,
                  ask: Request -> Answer, over: (nat, nat) -> bool, acc: Distribution.Accumulator, seen0: set<int>,
                  ghost coll: set<Row>, ghost need: set<Row>, ghost c: nat, ghost want: set<Row>, ghost out0: seq<Row>)
    returns (seen: set<int>, truncated: bool, ghost finished: bool, ghost out: seq<Row>)
    requires UniqueTxids(coll) && 0 <= day.s < day.e && AtMostPerInstant(coll, hashes, day.s, day.e, c)
    requires need <= coll && CacheGood(db, coll, need) && forall r :: r in coll && r !in need ==> r in out0
    requires forall q :: Honest(coll, q, ask(q))
    requires UniqueTxids(want) && Wanted(coll, hashes, day.s, day.e) <= want && CountedOnce(want, seen0, out0)
    requires acc.Valid() && acc.added == Samples(out0)
    modifies if db == null then {} else {db}
    modifies acc, acc.counts, acc.errors, acc.fine
    ensures acc.Valid() && acc.added == Samples(out) && CountedOnce(want, seen, out) && out0 <= out
    ensures truncated ==> |out| >= MAX_ROWS
    ensures finished ==> AllCounted(coll, hashes, day, out)
    ensures c < pageCount && LimitComesFirst(db != null, pageCount, c) && !truncated ==> finished
    ensures CacheGood(db, coll, need - Elements(out))
    ensures (forall n :: !over(n, 0)) ==> CacheGood(db, coll, need)
    ensures old(NoFront(db, hashes, day, Min(day.e, sealBefore), START)) ==>
              ReadDay(ask, hashes, day, pageCount, START, 0, out0) == (out, truncated, finished)
    ensures old(EmptyFront(db, hashes, day, Min(day.e, sealBefore))) && |out0| < MAX_ROWS ==>
              ReadDay(ask, hashes, day, pageCount, HandedAt(Min(day.e, sealBefore)), 1, out0) == (out, truncated, finished)
  {
    hide Honest, BroughtEnough, AtMostPerInstant, Uncrowded, LimitComesFirst, FrontCovered, CountedOnce, Samples, Sized;
    hide Genuine, Sound, AllCounted, Upto, FrontKept, NoFront, EmptyFront, ReadDay, CacheGood;
    hide Distribution.Accumulator.Valid, PageOk, Advances, ComesTo;
    ghost var to := Min(day.e, sealBefore);
    ghost var calm := forall n :: !over(n, 0);
    ghost var plain, handed := NoFront(db, hashes, day, to, START), EmptyFront(db, hashes, day, to) && |out0| < MAX_ROWS;
    ghost var all := if plain then ReadDay(ask, hashes, day, pageCount, START, 0, out0)
                     else ReadDay(ask, hashes, day, pageCount, HandedAt(to), 1, out0);
    EmptyFrontIs(db, hashes, day, to);
    var cursor, done := START, false;
    seen, out, truncated := seen0, out0, false;
    var pages: nat := 0;
    NothingBroughtYet(db != null, coll, hashes, day, pageCount, c, to, out);
    NothingCounted(db, coll, need, hashes, day, to, out);
    StartComesTo(ask, hashes, day, pageCount, cursor, pages, out);
    while !done && !truncated && pages < MAX_PAGES
      invariant pages <= MAX_PAGES && out0 <= out
      invariant acc.Valid() && acc.added == Samples(out) && CountedOnce(want, seen, out)
      invariant if truncated then |out| >= MAX_ROWS && !done else pages > 0 ==> |out| < MAX_ROWS
      invariant done && !cursor.hasMore ==> AllCounted(coll, hashes, day, out)
      invariant done && cursor.hasMore ==> !Uncrowded(coll, hashes, day.s, day.e, pageCount)
      invariant CacheGood(db, coll, need - Elements(out)) && (calm ==> CacheGood(db, coll, need))
      invariant !done && !truncated ==>
                  && InDay(day, cursor) && Upto(coll, hashes, day, StartOf(cursor, day.s), out)
                  && CacheGood(db, coll, need)
                  && (calm ==> FrontKept(db, need, hashes, day, to, StartOf(cursor, day.s)))
                  && BroughtEnough(db != null, coll, hashes, day, pageCount, c, to, cursor, pages, out)
                  && (Known(plain, handed, pages) ==> NoFront(db, hashes, day, to, cursor))
      invariant pages == 0 ==> !done && !truncated && cursor == START && out == out0 && (handed ==> EmptyFront(db, hashes, day, to))
      invariant Known(plain, handed, pages) ==> ComesTo(ask, hashes, day, pageCount, cursor, pages, out, truncated, done, all)
      decreases MAX_PAGES - pages
    {
      var n := pages;
      var page;
      ghost var from, had := cursor, out;
      page, seen, out :=
        CountPage(db, hashes, day, pageCount, sealBefore, ask, (i: nat) => over(n, i), acc, cursor, seen, coll, need, want, out);
      truncated := acc.total >= MAX_ROWS;
      done := !truncated && page.done;
      cursor := page.next;
      pages := pages + 1;
      if Known(plain, handed, n) {
        NextComesTo(ask, hashes, day, pageCount, from, n, had, page, out, all);
      }
      PageBrought(db != null, coll, need, hashes, day, pageCount, c, to, from, n, page, had, out);
      if handed && n == 0 {
        HandedOver(db, hashes, day, to, pageCount, page, had, out);
        StartComesTo(ask, hashes, day, pageCount, cursor, pages, out);
      }
    }
    finished := done && !cursor.hasMore;
    if Known(plain, handed, pages) {
      EndComesTo(ask, hashes, day, pageCount, cursor, pages, out, truncated, done, all);
    }
    if c < pageCount && !finished && !truncated {
      UncrowdedBelow(coll, hashes, day.s, day.e, c, pageCount);
      GuardAfterLimit(db != null, coll, hashes, day, pageCount, c, to, cursor, out);
    }
  }

  // The window

  lemma OneDayOf(coll: set<Row>, hashes: seq<int>, from: int, to: int, day: Slices.Piece, c: nat)
    requires AtMostPerInstant(coll, hashes, from, to, c) && from <= day.s && day.e <= to
    ensures AtMostPerInstant(coll, hashes, day.s, day.e, c) && Wanted(coll, hashes, day.s, day.e) <= Wanted(coll, hashes, from, to)
  {
  }

  lemma PieceEnds(days: seq<Slices.Piece>, s: int, e: int, i: nat)
    requires Slices.Tiles(days, s, e) && i < |days|
    ensures days[i].e <= e
  {
    var k := i;
    while k < |days| - 1
      invariant i <= k < |days| && days[i].e <= days[k].e
    {
      assert days[k].e == days[k + 1].s;
      k := k + 1;
    }
  }

  ghost predicate Reached(coll: set<Row>, hashes: seq<int>, from: int, upto: int, out: seq<Row>) {
    forall r :: r in Wanted(coll, hashes, from, upto) ==> r in out
  }

  /** Where the count of a window stands after some days, up to `upto`. */
  ghost predicate SoFar(coll: set<Row>, hashes: seq<int>, from: int, upto: int, none: bool, need: set<Row>, out: seq<Row>,
                        truncated: bool, finished: bool, limitFirst: bool) {
    && need <= coll && (forall r :: r in coll && r !in need ==> r in out)
    && (truncated ==> |out| >= MAX_ROWS) && (none ==> out == [] && upto == from)
    && (limitFirst && !truncated ==> finished)
    && (!none && !truncated && finished ==> Reached(coll, hashes, from, upto, out))
  }

  lemma DayDone(coll: set<Row>, hashes: seq<int>, from: int, day: Slices.Piece, none: bool, need: set<Row>, need': set<Row>,
                out0: seq<Row>, out: seq<Row>, finished: bool, truncated: bool, whole: bool, limitFirst: bool)
    requires SoFar(coll, hashes, from, day.s, none, need, out0, false, finished, limitFirst)
    requires out0 <= out && need - Elements(out) <= need' <= need
    requires truncated ==> |out| >= MAX_ROWS
    requires whole ==> AllCounted(coll, hashes, day, out)
    requires limitFirst && !truncated ==> whole
    ensures SoFar(coll, hashes, from, day.e, false, need', out, truncated, finished && whole, limitFirst)
  {
    forall r | r in Wanted(coll, hashes, from, day.e) && finished && whole
      ensures r in out
    {
      if r.endTime < day.s {
        assert r in Wanted(coll, hashes, from, day.s);
      } else {
        assert r in Wanted(coll, hashes, day.s, day.e);
      }
    }
  }

  /** The distribution of a window, which is empty unless it ends after it starts. What is counted is each
      row of the objects in the window at most once. If the row limit comes before the page guard, a result
      that does not say it is truncated counts each row exactly once, whatever the cache held, however the
      days were paged and whatever was evicted meanwhile. Afterwards the cache is sound for all rows that
      were not counted, and for all rows if nothing was evicted. */
  method WindowDistribution(db: CacheDb?, hashes: seq<int>, stime: int, etime: int, tz: int, pageCount: int,
                            sealBefore: int, ask: Request -> Answer, over: (nat, nat, nat) -> bool,
                            ghost coll: set<Row>, ghost c: nat)
    returns (d: Distribution.ElapsedDistribution, ghost finished: bool, ghost out: seq<Row>)
    requires UniqueTxids(coll) && 0 <= stime && AtMostPerInstant(coll, hashes, stime, etime, c)
    requires CacheGood(db, coll, coll)
    requires forall q :: Honest(coll, q, ask(q))
    modifies if db == null then {} else {db}
    ensures Distribution.IsDistribution(d, Samples(out))
    ensures forall r :: r in out ==> r in Wanted(coll, hashes, stime, etime)
    ensures forall i, j :: 0 <= i < j < |out| ==> out[i].txid != out[j].txid
    ensures d.truncated ==> d.total >= MAX_ROWS
    ensures c < pageCount && LimitComesFirst(db != null, pageCount, c) && !d.truncated ==> finished
    ensures stime < etime && !d.truncated && finished ==> forall r :: r in Wanted(coll, hashes, stime, etime) ==> r in out
    ensures etime <= stime ==> out == []
    ensures CacheGood(db, coll, coll - Elements(out))
    ensures (forall k, n :: !over(k, n, 0)) ==> CacheGood(db, coll, coll)
  {
    hide LimitComesFirst, AtMostPerInstant, Honest, SoFar, CountedOnce, Samples, Reached, AllCounted, NoFront, EmptyFront, ReadDay;
    hide CacheGood, Distribution.Accumulator.Valid;
    var acc := new Distribution.Accumulator();
    var seen, truncated := {}, false;
    ghost var want := Wanted(coll, hashes, stime, etime);
    ghost var calm := forall k, n :: !over(k, n, 0);
    ghost var limitFirst := c < pageCount && LimitComesFirst(db != null, pageCount, c);
    ghost var need := coll;
    finished, out := true, [];
    var days := Slices.SplitByDay(stime, etime, tz);
    var k: nat := 0;
    ghost var upto := stime;
    NothingSoFar(coll, hashes, stime, limitFirst);
    NothingYet(want);
    while k < |days| && !truncated
      invariant k <= |days| && upto == if k == 0 then stime else days[k - 1].e
      invariant fresh(acc) && fresh(acc.counts) && fresh(acc.errors) && fresh(acc.fine)
      invariant acc.Valid() && acc.added == Samples(out) && CountedOnce(want, seen, out)
      invariant CacheGood(db, coll, need) && (calm ==> need == coll)
      invariant SoFar(coll, hashes, stime, upto, k == 0, need, out, truncated, finished, limitFirst)
    {
      Slices.PieceOfTiling(days, stime, Max(stime, etime), k);
      PieceEnds(days, stime, Max(stime, etime), k);
      NeededOrCounted(coll, hashes, stime, upto, k == 0, need, out, truncated, finished, limitFirst);
      OneDayOf(coll, hashes, stime, etime, days[k], c);
      var n := k;
      ghost var whole, was, needed := true, out, need;
      seen, truncated, whole, out :=
        CountDay(db, hashes, days[k], pageCount, sealBefore, ask, (p: nat, i: nat) => over(n, p, i), acc, seen,
                 coll, need, c, want, out);
      need := if calm then coll else need - Elements(out);
      DayDone(coll, hashes, stime, days[k], k == 0, needed, need, was, out, finished, truncated, whole, limitFirst);
      finished := finished && whole;
      upto := days[k].e;
      k := k + 1;
    }
    NeededOrCounted(coll, hashes, stime, upto, k == 0, need, out, truncated, finished, limitFirst);
    SamplesSize(out);
    CountedIs(coll, hashes, stime, etime, want, seen, upto, out);
    StillGood(db, coll, need, coll - Elements(out));
    d := acc.Finish(truncated);
  }

  lemma NothingYet(want: set<Row>)
    ensures CountedOnce(want, {}, []) && Samples([]) == []
  {
  }

  lemma StillGood(db: CacheDb?, coll: set<Row>, need: set<Row>, less: set<Row>)
    requires CacheGood(db, coll, need) && less <= need
    ensures CacheGood(db, coll, less)
  {
  }

  lemma CountedIs(coll: set<Row>, hashes: seq<int>, stime: int, etime: int, want: set<Row>, seen: set<int>, upto: int, out: seq<Row>)
    requires CountedOnce(want, seen, out) && want == Wanted(coll, hashes, stime, etime)
    ensures forall r :: r in out ==> r in want
    ensures forall i, j :: 0 <= i < j < |out| ==> out[i].txid != out[j].txid
    ensures Reached(coll, hashes, stime, upto, out) <==> forall r :: r in Wanted(coll, hashes, stime, upto) ==> r in out
  {
  }

  lemma NothingSoFar(coll: set<Row>, hashes: seq<int>, from: int, limitFirst: bool)
    ensures SoFar(coll, hashes, from, from, true, coll, [], false, true, limitFirst)
  {
  }

  lemma NeededOrCounted(coll: set<Row>, hashes: seq<int>, from: int, upto: int, none: bool, need: set<Row>, out: seq<Row>,
                        truncated: bool, finished: bool, limitFirst: bool)
    requires SoFar(coll, hashes, from, upto, none, need, out, truncated, finished, limitFirst)
    ensures need <= coll && (forall r :: r in coll && r !in need ==> r in out) && coll - Elements(out) <= need
    ensures (truncated ==> |out| >= MAX_ROWS) && (none ==> out == []) && (limitFirst && !truncated ==> finished)
    ensures !none && !truncated && finished ==> Reached(coll, hashes, from, upto, out)
  {
  }
}
