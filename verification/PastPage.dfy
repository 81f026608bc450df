/** Reading a past range page by page, from the cache where it is sealed and from the collector
    for the rest.

    The collector is its set of rows `coll` and a function `ask` that answers requests. The collector's
    date directories are left out: a request is a set of objects and a time range. */
module PastPage {
  import opened Wrappers
  import opened Rows
  import opened Cover
  import opened CacheDb

  datatype PastCursor = PastCursor(hasMore: bool, lastTxid: int, lastXlogTime: int)

  const START := PastCursor(false, 0, 0)

  datatype Request = Request(hashes: seq<int>, stime: int, etime: int, pageCount: int)

  datatype Answer = Answer(rows: seq<Row>, next: PastCursor)

  datatype Page = Page(rows: seq<Row>, next: PastCursor, done: bool, fromCache: bool)

  /** Where the page at this cursor starts: a zero time means "from the beginning". */
  function StartOf(cursor: PastCursor, stime: int): int {
    if cursor.lastXlogTime != 0 then cursor.lastXlogTime else stime
  }

  /** The next page asks from the last time on, that time included; the cursor's txid is not sent. */
  function BuildRequest(hashes: seq<int>, stime: int, etime: int, pageCount: int, cursor: PastCursor): Request {
    Request(hashes, StartOf(cursor, stime), etime, pageCount)
  }

  /** `rows` come from the range, and of the needed rows of the range none is missing before the point
      from which the reader is told to go on, which does not lie before the range. */
  ghost predicate Complete(coll: set<Row>, need: set<Row>, hashes: seq<int>, from: int, to: int,
                           rows: seq<Row>, next: PastCursor) {
    && (next.hasMore ==> from <= next.lastXlogTime)
    && (forall r :: r in rows ==> r in Wanted(coll, hashes, from, to))
    && (forall r :: r in Wanted(need, hashes, from, to) && r !in rows ==>
                      next.hasMore && next.lastXlogTime <= r.endTime)
  }

  /** The least a collector owes: it invents nothing and says "no more" only when that is so. */
  ghost predicate Truthful(coll: set<Row>, q: Request, a: Answer) {
    Complete(coll, coll, q.hashes, q.stime, q.etime, a.rows, a.next)
  }

  /** A collector that also makes progress: "more" comes with a full page, in time order, and the
      time of its last row. */
  ghost predicate Honest(coll: set<Row>, q: Request, a: Answer) {
    && Truthful(coll, q, a)
    && (a.next.hasMore ==>
          && |a.rows| >= q.pageCount > 0
          && Distinct(a.rows)
          && a.next.lastXlogTime == a.rows[|a.rows| - 1].endTime
          && forall r :: r in a.rows ==> r.endTime <= a.next.lastXlogTime)
  }

  /** No instant of `[from, to]` holds a whole page of rows of these objects. */
  ghost predicate Uncrowded(coll: set<Row>, hashes: seq<int>, from: int, to: int, pageCount: int) {
    forall t :: from <= t <= to ==> |Wanted(coll, hashes, t, t)| < pageCount
  }

  /** At some instant of a range that begins at `from`, no later than the row, a page can be filled without
      the row. */
  ghost predicate CrowdedOut(coll: set<Row>, hashes: seq<int>, from: int, pageCount: int, r: Row) {
    exists t :: from <= t <= r.endTime && |Wanted(coll, hashes, t, t) - {r}| >= pageCount
  }

  /** What a page owes its reader, wherever it came from. */
  ghost predicate PageOk(coll: set<Row>, need: set<Row>, hashes: seq<int>, stime: int, etime: int,
                         cursor: PastCursor, page: Page) {
    && Complete(coll, need, hashes, StartOf(cursor, stime), etime, page.rows, page.next)
    && (!page.next.hasMore ==> page.done)
  }

  /** A page that is not the last one moves the cursor forward inside the range. One that says it is done
      although more was announced is full of rows of the instant it starts at. */
  ghost predicate Advances(pageCount: int, stime: int, etime: int, cursor: PastCursor, page: Page) {
    && (!page.done ==> cursor.lastXlogTime < page.next.lastXlogTime <= etime)
    && (page.done && page.next.hasMore ==>
          && page.next.lastXlogTime == StartOf(cursor, stime)
          && Distinct(page.rows) && |page.rows| >= Max(pageCount, 1)
          && forall r :: r in page.rows ==> r.endTime == page.next.lastXlogTime)
  }

  /** The rows of the range that the cache is allowed to keep as final and that lie before `upto`
      are stored. */
  ghost predicate FrontStored(store: map<int, Row>, coll: set<Row>, hashes: seq<int>, stime: int, to: int, upto: int) {
    forall r :: r in Wanted(coll, hashes, stime, to) && r.endTime < upto ==> Holds(store, r)
  }

  /** An eviction at `cut`, if there was one, leaves the row. */
  predicate Spares(cut: Option<int>, r: Row) {
    cut.Some? ==> cut.value <= r.endTime
  }

  ghost function Spared(rows: set<Row>, cut: Option<int>): set<Row> {
    set r | r in rows && Spares(cut, r)
  }

  /** How large a page is that announces more: a full page in time order, unless it is the one that hands
      over from the cache to the collector. A page comes from the cache only before that point. */
  ghost predicate Sized(pageCount: int, start: int, to: int, page: Page) {
    && (page.fromCache ==> start < to)
    && (page.next.hasMore ==>
          && Distinct(page.rows)
          && (forall r :: r in page.rows ==> r.endTime <= page.next.lastXlogTime)
          && (|page.rows| >= pageCount || (page.fromCache && page.next.lastXlogTime == to)))
  }

  // Page progress

  lemma {:induction false} DistinctFits(rows: seq<Row>, all: set<Row>)
    requires Distinct(rows) && forall r :: r in rows ==> r in all
    ensures |rows| <= |all|
  {
    if rows == [] {
    } else {
      var n := |rows| - 1;
      DistinctFits(rows[..n], all - {rows[n]});
    }
  }

  /** A full page ends strictly after the time it starts from, unless that instant is crowded. */
  lemma FullPageMovesOn(coll: set<Row>, hashes: seq<int>, from: int, to: int, pageCount: int, rows: seq<Row>, last: int)
    requires |Wanted(coll, hashes, from, from)| < pageCount
    requires |rows| >= pageCount && Distinct(rows)
    requires forall r :: r in rows ==> r in Wanted(coll, hashes, from, to) && r.endTime <= last
    ensures from < last
  {
    if last <= from {
      DistinctFits(rows, Wanted(coll, hashes, from, from));
    }
  }

  /** Some `n` rows of a set, each once. */
  lemma {:induction false} Pick(all: set<Row>, n: nat) returns (rows: seq<Row>)
    requires n <= |all|
    ensures |rows| == n && Distinct(rows) && forall r :: r in rows ==> r in all
  {
    if n == 0 {
      rows := [];
    } else {
      var x :| x in all;
      var rest := Pick(all - {x}, n - 1);
      rows := rest + [x];
    }
  }

  /** Exactly when an instant holds fewer rows than a page, every honest "more" moves on past it. */
  lemma MovesOnIffUncrowded(coll: set<Row>, hashes: seq<int>, from: int, to: int, pageCount: int)
    requires pageCount > 0 && from <= to
    ensures (forall a :: Honest(coll, Request(hashes, from, to, pageCount), a) && a.next.hasMore ==> from < a.next.lastXlogTime)
            <==> |Wanted(coll, hashes, from, from)| < pageCount
  {
    var here := Wanted(coll, hashes, from, from);
    if |here| < pageCount {
      forall a | Honest(coll, Request(hashes, from, to, pageCount), a) && a.next.hasMore
        ensures from < a.next.lastXlogTime
      {
        if a.next.lastXlogTime <= from {
          DistinctFits(a.rows, here);
        }
      }
    } else {
      var a := StuckAnswer(coll, hashes, from, to, pageCount);
    }
  }

  /** Where a page stopped although more was announced, it could be filled without any row it did not bring. */
  lemma StuckCrowds(coll: set<Row>, need: set<Row>, hashes: seq<int>, stime: int, etime: int, pageCount: int,
                    cursor: PastCursor, page: Page, r: Row)
    requires PageOk(coll, need, hashes, stime, etime, cursor, page) && Advances(pageCount, stime, etime, cursor, page)
    requires page.done && page.next.hasMore
    requires r !in page.rows && stime <= StartOf(cursor, stime) <= r.endTime
    ensures CrowdedOut(coll, hashes, stime, pageCount, r)
  {
    var t := StartOf(cursor, stime);
    DistinctFits(page.rows, Wanted(coll, hashes, t, t) - {r});
  }

  lemma StuckIsCrowded(coll: set<Row>, need: set<Row>, hashes: seq<int>, stime: int, etime: int, pageCount: int,
                       cursor: PastCursor, page: Page)
    requires PageOk(coll, need, hashes, stime, etime, cursor, page) && Advances(pageCount, stime, etime, cursor, page)
    requires page.done && page.next.hasMore && stime <= StartOf(cursor, stime)
    ensures !Uncrowded(coll, hashes, stime, etime, pageCount)
  {
    var t := StartOf(cursor, stime);
    assert page.rows[0] in page.rows;
    DistinctFits(page.rows, Wanted(coll, hashes, t, t));
  }

  /** At an instant that holds a whole page an honest collector may answer with rows of that instant only.
      If the cursor already stood there, the page says it is done, and the later rows are never read. */
  lemma StuckAnswer(coll: set<Row>, hashes: seq<int>, from: int, to: int, pageCount: int) returns (a: Answer)
    requires 0 < pageCount <= |Wanted(coll, hashes, from, from)| && from <= to
    ensures Honest(coll, Request(hashes, from, to, pageCount), a) && a.next.hasMore && a.next.lastXlogTime == from
    ensures forall r :: r in a.rows ==> r.endTime == from
  {
    a := AnswerUpTo(coll, hashes, from, from, to, pageCount, Wanted(coll, hashes, from, from));
  }

  /** An honest answer may go just as far as an instant with a whole page of rows, and bring any that many of
      them. */
  lemma AnswerUpTo(coll: set<Row>, hashes: seq<int>, from: int, t: int, to: int, pageCount: int, some: set<Row>)
    returns (a: Answer)
    requires from <= t <= to && some <= Wanted(coll, hashes, t, t) && 0 < pageCount <= |some|
    ensures Honest(coll, Request(hashes, from, to, pageCount), a) && a.next.hasMore && a.next.lastXlogTime == t
    ensures a.rows != [] && forall r :: r in a.rows ==> r in coll && from <= r.endTime <= t && (r.endTime == t ==> r in some)
  {
    var before := Wanted(coll, hashes, from, t - 1);
    var front := Pick(before, |before|);
    var rows := Pick(some, pageCount);
    PickedAll(front, before);
    DistinctConcat(front, rows);
    assert rows[|rows| - 1] in rows;
    a := Answer(front + rows, PastCursor(true, rows[|rows| - 1].txid, t));
  }

  lemma DistinctConcat(a: seq<Row>, b: seq<Row>)
    requires Distinct(a) && Distinct(b) && forall r :: r in a ==> r !in b
    ensures Distinct(a + b)
  {
    forall i, j | 0 <= i < j < |a + b|
      ensures (a + b)[i] != (a + b)[j]
    {
      if i < |a| <= j {
        assert a[i] in a && b[j - |a|] in b;
      }
    }
  }

  lemma PickedAll(rows: seq<Row>, all: set<Row>)
    requires Distinct(rows) && |rows| == |all| && forall r :: r in rows ==> r in all
    ensures forall r :: r in all ==> r in rows
  {
    forall r | r in all
      ensures r in rows
    {
      if r !in rows {
        DistinctFits(rows, all - {r});
      }
    }
  }

  lemma MoreRowsCrowd(some: set<Row>, all: set<Row>, hashes: seq<int>, from: int, to: int, pageCount: int)
    requires some <= all
    ensures Uncrowded(all, hashes, from, to, pageCount) ==> Uncrowded(some, hashes, from, to, pageCount)
    ensures forall r :: CrowdedOut(some, hashes, from, pageCount, r) ==> CrowdedOut(all, hashes, from, pageCount, r)
  {
    forall t | from <= t <= to && Uncrowded(all, hashes, from, to, pageCount)
      ensures |Wanted(some, hashes, t, t)| < pageCount
    {
      SubsetSize(Wanted(some, hashes, t, t), Wanted(all, hashes, t, t));
    }
    forall r | CrowdedOut(some, hashes, from, pageCount, r)
      ensures CrowdedOut(all, hashes, from, pageCount, r)
    {
      var t :| from <= t <= r.endTime && |Wanted(some, hashes, t, t) - {r}| >= pageCount;
      SubsetSize(Wanted(some, hashes, t, t) - {r}, Wanted(all, hashes, t, t) - {r});
    }
  }

  /** What the store holds of a sealed, covered range is what the collector holds of it. */
  lemma StoredIsWanted(store: map<int, Row>, cover: set<Interval>, coll: set<Row>, hashes: seq<int>, from: int, to: int)
    requires Genuine(store, coll) && Sound(store, cover, coll)
    requires forall h, t :: h in hashes && from <= t <= to ==> CoveredAt(cover, h, t)
    ensures Stored(store, hashes, from, to) == Wanted(coll, hashes, from, to)
  {
    forall r | r in Wanted(coll, hashes, from, to)
      ensures r in Stored(store, hashes, from, to)
    {
      assert CoveredAt(cover, r.objHash, r.endTime) && Holds(store, r);
    }
  }

  /** The cursor and verdict of a page read from the cache. */
  function CachedPage(rows: seq<Row>, limit: nat, cacheTo: int, etime: int, cursor: PastCursor): Page {
    var full := |rows| >= limit;
    var handoff := !full && cacheTo < etime;
    var lastTxid := if rows == [] then 0 else rows[|rows| - 1].txid;
    var lastTime := if rows == [] then 0 else rows[|rows| - 1].endTime;
    var next := PastCursor(full || handoff, lastTxid, if handoff then cacheTo else lastTime);
    Page(rows, next, !next.hasMore || next.lastXlogTime <= cursor.lastXlogTime, true)
  }

  lemma CachedPageOk(coll: set<Row>, hashes: seq<int>, stime: int, etime: int, pageCount: int,
                     cursor: PastCursor, cacheTo: int, rows: seq<Row>)
    requires StartOf(cursor, stime) < cacheTo <= etime
    requires FirstRows(Wanted(coll, hashes, StartOf(cursor, stime), cacheTo), Max(pageCount, 1), rows)
    ensures PageOk(coll, coll, hashes, stime, etime, cursor, CachedPage(rows, Max(pageCount, 1), cacheTo, etime, cursor))
    ensures Sized(pageCount, StartOf(cursor, stime), cacheTo, CachedPage(rows, Max(pageCount, 1), cacheTo, etime, cursor))
    ensures 0 <= stime && 0 <= cursor.lastXlogTime ==>
              Advances(pageCount, stime, etime, cursor, CachedPage(rows, Max(pageCount, 1), cacheTo, etime, cursor))
  {
    var start := StartOf(cursor, stime);
    var limit := Max(pageCount, 1);
    var avail := Wanted(coll, hashes, start, cacheTo);
    var page := CachedPage(rows, limit, cacheTo, etime, cursor);
    if |rows| < limit {
      FirstRowsAreAll(avail, limit, rows);
    } else {
      assert forall r :: r in avail && r !in rows ==> Before(rows[|rows| - 1], r);
      assert rows[|rows| - 1] in avail;
    }
  }

  lemma FirstRowsAreAll(avail: set<Row>, limit: nat, rows: seq<Row>)
    requires FirstRows(avail, limit, rows) && |rows| < limit
    ensures forall r :: r in avail ==> r in rows
  {
    forall r | r in avail
      ensures r in rows
    {
      if r !in rows {
        DistinctFits(rows, avail - {r});
      }
    }
  }

  /** The same for a cache that is sound for some rows only: the page comes from what is stored, and misses
      none of the needed rows that are. */
  lemma StoredPageOk(coll: set<Row>, need: set<Row>, store: map<int, Row>, hashes: seq<int>, stime: int, etime: int,
                     pageCount: int, cursor: PastCursor, cacheTo: int, rows: seq<Row>)
    requires Genuine(store, coll) && need <= coll && StartOf(cursor, stime) < cacheTo <= etime
    requires FirstRows(Stored(store, hashes, StartOf(cursor, stime), cacheTo), Max(pageCount, 1), rows)
    requires forall r :: r in Wanted(need, hashes, StartOf(cursor, stime), cacheTo) ==> Holds(store, r)
    ensures PageOk(coll, need, hashes, stime, etime, cursor, CachedPage(rows, Max(pageCount, 1), cacheTo, etime, cursor))
    ensures Sized(pageCount, StartOf(cursor, stime), cacheTo, CachedPage(rows, Max(pageCount, 1), cacheTo, etime, cursor))
    ensures 0 <= stime && 0 <= cursor.lastXlogTime ==>
              Advances(pageCount, stime, etime, cursor, CachedPage(rows, Max(pageCount, 1), cacheTo, etime, cursor))
  {
    var avail := Stored(store, hashes, StartOf(cursor, stime), cacheTo);
    var known := avail + (set r | r in need && cacheTo < r.endTime);
    assert Wanted(known, hashes, StartOf(cursor, stime), cacheTo) == avail;
    CachedPageOk(known, hashes, stime, etime, pageCount, cursor, cacheTo, rows);
    forall r | r in Wanted(need, hashes, StartOf(cursor, stime), etime)
      ensures r in known
    {
      assert r.endTime <= cacheTo ==> Holds(store, r);
    }
  }

  /** The page of an answer of the collector. */
  function FetchedPage(a: Answer, cursor: PastCursor): Page {
    Page(a.rows, a.next, !a.next.hasMore || a.rows == [] || a.next.lastXlogTime <= cursor.lastXlogTime, false)
  }

  /** The verdict on a page the collector sent. */
  lemma AnswerAdvances(coll: set<Row>, hashes: seq<int>, stime: int, etime: int, pageCount: int,
                       cursor: PastCursor, a: Answer)
    requires Honest(coll, BuildRequest(hashes, stime, etime, pageCount, cursor), a)
    requires 0 <= stime && 0 <= cursor.lastXlogTime
    ensures Advances(pageCount, stime, etime, cursor, FetchedPage(a, cursor))
  {
    if a.next.hasMore {
      var last := a.rows[|a.rows| - 1];
      assert last in a.rows;
    }
  }

  // What a page does to the cache

  function AfterPut(store: map<int, Row>, rows: seq<Row>, cut: Option<int>): map<int, Row> {
    if cut.None? then InsertAll(store, rows) else DropBefore(InsertAll(store, rows), cut.value)
  }

  function AfterCut(cover: set<Interval>, cut: Option<int>): set<Interval> {
    if cut.None? then cover else Trim(cover, cut.value)
  }

  /** The tables after a page. A page from the cache was covered; if another caller evicted between the
      test and the read, both tables are cut, and the page holds what was left. A page from the collector
      is put, which may evict, and the last one marks its range up to the seal. */
  ghost predicate TablesAfter(store: map<int, Row>, cover: set<Interval>, store': map<int, Row>, cover': set<Interval>,
                              hashes: seq<int>, stime: int, to: int, page: Page, cut: Option<int>)
  {
    if page.fromCache then
      && store' == AfterPut(store, [], cut) && cover' == AfterCut(cover, cut)
      && (forall r :: r in page.rows ==> Holds(store', r))
      && forall h, t :: h in hashes && stime <= t <= to ==> CoveredAt(cover, h, t)
    else
      && store' == AfterPut(store, page.rows, cut)
      && if page.next.hasMore || to < stime then cover' == AfterCut(cover, cut)
         else Marked(AfterCut(cover, cut), hashes, stime, to, cover')
  }

  /** What is held afterwards: what was held or came with the page, unless the eviction took it. */
  lemma HeldAfterPage(store: map<int, Row>, cover: set<Interval>, store': map<int, Row>, cover': set<Interval>,
                      coll: set<Row>, hashes: seq<int>, stime: int, to: int, page: Page, cut: Option<int>)
    requires UniqueTxids(coll) && Genuine(store, coll) && forall r :: r in page.rows ==> r in coll
    requires TablesAfter(store, cover, store', cover', hashes, stime, to, page, cut)
    ensures Genuine(store', coll)
    ensures forall r :: r in coll ==> (Holds(store', r) <==> (Holds(store, r) || r in page.rows) && Spares(cut, r))
  {
    InsertAllHolds(store, if page.fromCache then [] else page.rows, coll);
  }

  /** Before a mark, a page keeps "covered implies stored", whatever was evicted. */
  lemma PageKeepsSound(store: map<int, Row>, cover: set<Interval>, store': map<int, Row>, coll: set<Row>, need: set<Row>,
                       rows: seq<Row>, cut: Option<int>)
    requires UniqueTxids(coll) && Separated(cover) && Genuine(store, coll) && need <= coll && Sound(store, cover, need)
    requires forall r :: r in rows ==> r in coll
    requires store' == AfterPut(store, rows, cut)
    ensures Sound(store', AfterCut(cover, cut), need)
  {
    PutKeepsSound(store, cover, rows, coll, need);
    if cut.Some? {
      EvictKeepsSound(InsertAll(store, rows), cover, cut.value, need);
    }
  }

  /** The tables after the last page from the collector. They are sound exactly if every needed row of the
      marked range was held or came with the page, and the eviction of the put did not take it. Whatever
      was evicted, they are sound for all other rows. */
  lemma LastPageSoundIff(store: map<int, Row>, cover: set<Interval>, store': map<int, Row>, cover': set<Interval>,
                         coll: set<Row>, need: set<Row>, hashes: seq<int>, stime: int, to: int, page: Page, cut: Option<int>)
    requires UniqueTxids(coll) && Separated(cover) && Genuine(store, coll) && need <= coll && Sound(store, cover, need)
    requires forall r :: r in page.rows ==> r in coll
    requires !page.fromCache && !page.next.hasMore && stime <= to
    requires TablesAfter(store, cover, store', cover', hashes, stime, to, page, cut)
    ensures Sound(store', cover', need) <==>
            forall r :: r in Wanted(need, hashes, stime, to) ==> (Holds(store, r) || r in page.rows) && Spares(cut, r)
    ensures Sound(store', cover', need - Wanted(need, hashes, stime, to))
  {
    PageKeepsSound(store, cover, store', coll, need, page.rows, cut);
    HeldAfterPage(store, cover, store', cover', coll, hashes, stime, to, page, cut);
    MarkKeepsSoundIff(store', AfterCut(cover, cut), hashes, stime, to, cover', need);
  }

  /** So, when the rows before the last page are stored, an eviction inside the last put spoils the cache
      if and only if it cuts above the end of some wanted row of the marked range. */
  lemma EvictionSpoilsIff(store: map<int, Row>, cover: set<Interval>, store': map<int, Row>, cover': set<Interval>,
                          coll: set<Row>, hashes: seq<int>, stime: int, etime: int, to: int, cursor: PastCursor,
                          page: Page, cut: Option<int>)
    requires UniqueTxids(coll) && Separated(cover) && Genuine(store, coll) && Sound(store, cover, coll)
    requires !page.fromCache && !page.next.hasMore && stime <= to <= etime
    requires PageOk(coll, coll, hashes, stime, etime, cursor, page)
    requires FrontStored(store, coll, hashes, stime, to, StartOf(cursor, stime))
    requires TablesAfter(store, cover, store', cover', hashes, stime, to, page, cut)
    ensures Sound(store', cover', coll) <==>
            cut.None? || forall r :: r in Wanted(coll, hashes, stime, to) ==> cut.value <= r.endTime
  {
    LastPageSoundIff(store, cover, store', cover', coll, coll, hashes, stime, to, page, cut);
    forall r | r in Wanted(coll, hashes, stime, to)
      ensures Holds(store, r) || r in page.rows
    {
      assert r.endTime < StartOf(cursor, stime) || r in Wanted(coll, hashes, StartOf(cursor, stime), etime);
    }
  }

  /** The cover test of a page. */
  ghost predicate FrontCovered(cover: set<Interval>, hashes: seq<int>, stime: int, to: int, cursor: PastCursor) {
    && hashes != [] && StartOf(cursor, stime) < to
    && forall h, t :: h in hashes && stime <= t <= to ==> CoveredAt(cover, h, t)
  }

  /** The page holds the first rows of what is stored of the front. */
  ghost predicate ReadFrom(store: map<int, Row>, hashes: seq<int>, stime: int, etime: int, to: int, pageCount: int,
                           cursor: PastCursor, page: Page) {
    && FirstRows(Stored(store, hashes, StartOf(cursor, stime), to), Max(pageCount, 1), page.rows)
    && page == CachedPage(page.rows, Max(pageCount, 1), to, etime, cursor)
  }

  /** One page. What the front of the range covers comes from the cache; otherwise the collector is
      asked, its rows are stored, and when it says "no more" the range is marked up to the seal.

      `rival` answers for an eviction that another caller makes between the cover test and the read, which
      are two calls of the cache. `need` are the rows for which the cache is sound. A page is complete up
      to its own cursor for these rows, whatever is evicted by its own put; from the cache it misses at
      most the rows that the rival's cut took. */
  method PastPage(db: CacheDb?, hashes: seq<int>, stime: int, etime: int, pageCount: int, cursor: PastCursor,
                  sealBefore: int, ask: Request -> Answer, rival: nat -> bool, over: nat -> bool,
                  ghost coll: set<Row>, ghost need: set<Row>)
    returns (page: Page, cut: Option<int>)
    requires UniqueTxids(coll) && need <= coll
    requires stime <= StartOf(cursor, stime)
    requires db != null ==> db.Valid() && Genuine(db.xlog, coll) && Sound(db.xlog, db.cover, need)
    requires forall q :: Truthful(coll, q, ask(q))
    modifies if db == null then {} else {db}
    ensures (if page.fromCache then !rival(0) else !over(0)) ==> cut.None?
    ensures PageOk(coll, if page.fromCache then Spared(need, cut) else need, hashes, stime, etime, cursor, page)
    ensures (forall q :: Honest(coll, q, ask(q))) ==>
              Sized(pageCount, StartOf(cursor, stime), Min(etime, sealBefore), page)
    ensures (forall q :: Honest(coll, q, ask(q))) && 0 <= stime && 0 <= cursor.lastXlogTime ==>
              Advances(pageCount, stime, etime, cursor, page)
    ensures page.fromCache <==> db != null && old(FrontCovered(db.cover, hashes, stime, Min(etime, sealBefore), cursor))
    ensures !page.fromCache ==> page == FetchedPage(ask(BuildRequest(hashes, stime, etime, pageCount, cursor)), cursor)
    ensures page.fromCache ==> db != null && ReadFrom(db.xlog, hashes, stime, etime, Min(etime, sealBefore), pageCount, cursor, page)
    ensures db != null ==>
              && db.Valid()
              && TablesAfter(old(db.xlog), old(db.cover), db.xlog, db.cover, hashes, stime, Min(etime, sealBefore), page, cut)
  {
    var start, to := StartOf(cursor, stime), Min(etime, sealBefore);
    if db != null && start < to {
      var covered := db.XlogCovered(hashes, stime, to);
      if covered {
        page, cut := ReadCached(db, hashes, stime, etime, pageCount, cursor, to, rival, coll, need);
        return;
      }
    }
    var q := BuildRequest(hashes, stime, etime, pageCount, cursor);
    var a := ask(q);
    page := FetchedPage(a, cursor);
    if Honest(coll, q, a) && 0 <= stime && 0 <= cursor.lastXlogTime {
      AnswerAdvances(coll, hashes, stime, etime, pageCount, cursor, a);
    }
    cut := None;
    if db != null {
      cut := StorePage(db, hashes, stime, to, page, over);
    }
  }

  /** The page of a range whose front was found covered. */
  method ReadCached(db: CacheDb, hashes: seq<int>, stime: int, etime: int, pageCount: int, cursor: PastCursor,
                    to: int, rival: nat -> bool, ghost coll: set<Row>, ghost need: set<Row>)
    returns (page: Page, cut: Option<int>)
    requires need <= coll && stime <= StartOf(cursor, stime) < to <= etime
    requires db.Valid() && Genuine(db.xlog, coll) && Sound(db.xlog, db.cover, need)
    requires forall h, t :: h in hashes && stime <= t <= to ==> CoveredAt(db.cover, h, t)
    modifies db
    ensures page.fromCache && (!rival(0) ==> cut.None?)
    ensures PageOk(coll, Spared(need, cut), hashes, stime, etime, cursor, page)
    ensures Sized(pageCount, StartOf(cursor, stime), to, page)
    ensures 0 <= stime && 0 <= cursor.lastXlogTime ==> Advances(pageCount, stime, etime, cursor, page)
    ensures ReadFrom(db.xlog, hashes, stime, etime, to, pageCount, cursor, page)
    ensures db.Valid() && TablesAfter(old(db.xlog), old(db.cover), db.xlog, db.cover, hashes, stime, to, page, cut)
  {
    cut := db.EvictXlog(rival);
    var limit := Max(pageCount, 1);
    var rows := db.XlogPage(hashes, StartOf(cursor, stime), to, limit);
    page := CachedPage(rows, limit, to, etime, cursor);
    forall r | r in Wanted(Spared(need, cut), hashes, StartOf(cursor, stime), to)
      ensures Holds(db.xlog, r)
    {
      assert CoveredAt(old(db.cover), r.objHash, r.endTime);
    }
    StoredPageOk(coll, Spared(need, cut), db.xlog, hashes, stime, etime, pageCount, cursor, to, rows);
  }

  /** Stores the rows of a collector page and marks the range when the collector said "no more". */
  method StorePage(db: CacheDb, hashes: seq<int>, stime: int, to: int, page: Page, over: nat -> bool)
    returns (cut: Option<int>)
    requires db.Valid() && !page.fromCache
    modifies db
    ensures db.Valid() && (!over(0) ==> cut.None?)
    ensures TablesAfter(old(db.xlog), old(db.cover), db.xlog, db.cover, hashes, stime, to, page, cut)
  {
    cut := db.PutXlogs(page.rows, over);
    if !page.next.hasMore {
      if to >= stime {
        db.MarkXlog(hashes, stime, to);
      }
    }
  }

  /** The rows not seen before, each once, in order. */
  function FreshRows(seen: set<int>, rows: seq<Row>): seq<Row> {
    if rows == [] then []
    else
      var last := rows[|rows| - 1];
      var front := FreshRows(seen, rows[..|rows| - 1]);
      if last.txid in seen || last.txid in Txids(rows[..|rows| - 1]) then front else front + [last]
  }

  function Txids(rows: seq<Row>): set<int> {
    set r | r in rows :: r.txid
  }

  method DedupeByTxid(seen: set<int>, rows: seq<Row>) returns (seen': set<int>, unseen: seq<Row>)
    ensures unseen == FreshRows(seen, rows)
    ensures seen' == seen + Txids(rows)
  {
    seen', unseen := seen, [];
    for i := 0 to |rows|
      invariant unseen == FreshRows(seen, rows[..i])
      invariant seen' == seen + Txids(rows[..i])
    {
      assert rows[..i + 1] == rows[..i] + [rows[i]];
      assert rows[..i + 1][..i] == rows[..i];
      assert Txids(rows[..i + 1]) == Txids(rows[..i]) + {rows[i].txid};
      if rows[i].txid !in seen' {
        seen', unseen := seen' + {rows[i].txid}, unseen + [rows[i]];
      }
    }
    assert rows[..|rows|] == rows;
  }

  /** Deduplication keeps exactly one row of each txid not seen before. */
  lemma {:induction false} FreshRowsExact(seen: set<int>, rows: seq<Row>)
    ensures forall r :: r in FreshRows(seen, rows) ==> r in rows && r.txid !in seen
    ensures forall i, j :: 0 <= i < j < |FreshRows(seen, rows)| ==>
              FreshRows(seen, rows)[i].txid != FreshRows(seen, rows)[j].txid
    ensures Txids(FreshRows(seen, rows)) == Txids(rows) - seen
  {
    if rows == [] {
    } else {
      var n := |rows| - 1;
      var front := rows[..n];
      FreshRowsExact(seen, front);
      assert rows == front + [rows[n]];
      assert Txids(rows) == Txids(front) + {rows[n].txid};
      var unseen := FreshRows(seen, rows);
      if rows[n].txid in seen || rows[n].txid in Txids(front) {
      } else {
        assert unseen == FreshRows(seen, front) + [rows[n]];
        assert Txids(unseen) == Txids(FreshRows(seen, front)) + {rows[n].txid};
        forall i, j | 0 <= i < j < |unseen|
          ensures unseen[i].txid != unseen[j].txid
        {
          assert unseen[i].txid in Txids(FreshRows(seen, front));
        }
      }
    }
  }

  /** What a page brought and what was evicted after it came. */
  datatype Turn = Turn(rows: seq<Row>, cut: Option<int>)

  /** The row is held after the turns: held before or brought, and not taken since. */
  predicate Survives(before: map<int, Row>, turns: seq<Turn>, r: Row) {
    if turns == [] then r.txid in before && before[r.txid] == r
    else
      var last := turns[|turns| - 1];
      (r in last.rows || Survives(before, turns[..|turns| - 1], r)) && Spares(last.cut, r)
  }

  ghost predicate Brought(turns: seq<Turn>, r: Row) {
    exists n :: 0 <= n < |turns| && r in turns[n].rows
  }

  lemma TurnAdded(before: map<int, Row>, turns: seq<Turn>, t: Turn)
    ensures forall r :: Survives(before, turns + [t], r) <==> (r in t.rows || Survives(before, turns, r)) && Spares(t.cut, r)
    ensures forall r :: Brought(turns, r) || r in t.rows ==> Brought(turns + [t], r)
  {
    var all := turns + [t];
    assert all[..|turns|] == turns && all[|turns|] == t;
    forall r | Brought(turns, r)
      ensures Brought(all, r)
    {
      var n :| 0 <= n < |turns| && r in turns[n].rows;
      assert r in all[n].rows;
    }
  }

  lemma {:induction false} SurvivesCalm(before: map<int, Row>, turns: seq<Turn>, r: Row)
    requires Brought(turns, r) && forall n :: 0 <= n < |turns| ==> turns[n].cut.None?
    ensures Survives(before, turns, r)
  {
    var n :| 0 <= n < |turns| && r in turns[n].rows;
    var k := |turns| - 1;
    if n < k {
      assert r in turns[..k][n].rows;
      SurvivesCalm(before, turns[..k], r);
    }
  }

  /** The sealed part of the range is marked, and all is sound if its needed rows are held. */
  ghost predicate SealedSound(store: map<int, Row>, cover: set<Interval>, need: set<Row>, hashes: seq<int>,
                              stime: int, to: int) {
    && (forall h, t :: h in hashes && stime <= t <= to ==> CoveredAt(cover, h, t))
    && (Sound(store, cover, need) <==> forall r :: r in Wanted(need, hashes, stime, to) ==> Holds(store, r))
  }

  lemma PageLeavesSealed(store: map<int, Row>, cover: set<Interval>, store': map<int, Row>, cover': set<Interval>,
                         coll: set<Row>, need: set<Row>, hashes: seq<int>, stime: int, to: int, page: Page, cut: Option<int>)
    requires UniqueTxids(coll) && Separated(cover) && Genuine(store, coll) && need <= coll && Sound(store, cover, need)
    requires forall r :: r in page.rows ==> r in coll
    requires TablesAfter(store, cover, store', cover', hashes, stime, to, page, cut) && (page.fromCache ==> cut.None?)
    ensures page.next.hasMore ==> Sound(store', cover', need)
    ensures !page.next.hasMore ==> SealedSound(store', cover', need, hashes, stime, to)
  {
    if page.fromCache {
      forall r | r in Wanted(need, hashes, stime, to)
        ensures Holds(store, r)
      {
        assert CoveredAt(cover, r.objHash, r.endTime);
      }
    } else {
      PageKeepsSound(store, cover, store', coll, need, page.rows, cut);
      if !page.next.hasMore && stime <= to {
        MarkKeepsSoundIff(store', AfterCut(cover, cut), hashes, stime, to, cover', need);
      }
    }
  }

  /** A row that some page brought survives if and only if no eviction after its last coming took it. */
  lemma {:induction false} SurvivesIff(before: map<int, Row>, turns: seq<Turn>, r: Row, n: nat)
    requires n < |turns| && r in turns[n].rows && forall m :: n < m < |turns| ==> r !in turns[m].rows
    ensures Survives(before, turns, r) <==> forall m :: n <= m < |turns| ==> Spares(turns[m].cut, r)
  {
    var k := |turns| - 1;
    if n < k {
      SurvivesIff(before, turns[..k], r, n);
      assert forall m :: n <= m < k ==> turns[..k][m] == turns[m];
    }
  }

  /** How far the rows of a range have been collected. */
  ghost predicate Collected(coll: set<Row>, need: set<Row>, hashes: seq<int>, stime: int, etime: int, pageCount: int,
                            cursor: PastCursor, done: bool, out: seq<Row>) {
    forall r :: r in Wanted(need, hashes, stime, etime) ==>
      || r in out
      || (!done && StartOf(cursor, stime) <= r.endTime)
      || (done && cursor.hasMore && CrowdedOut(coll, hashes, stime, pageCount, r))
  }

  lemma PageCollected(coll: set<Row>, need: set<Row>, hashes: seq<int>, stime: int, etime: int, pageCount: int,
                      cursor: PastCursor, page: Page, had: seq<Row>, out: seq<Row>)
    requires 0 <= stime <= StartOf(cursor, stime) && (page.done || 0 < page.next.lastXlogTime)
    requires Collected(coll, need, hashes, stime, etime, pageCount, cursor, false, had)
    requires PageOk(coll, need, hashes, stime, etime, cursor, page) && Advances(pageCount, stime, etime, cursor, page)
    requires forall r :: r in out <==> r in had || r in page.rows
    ensures Collected(coll, need, hashes, stime, etime, pageCount, page.next, page.done, out)
    ensures page.done && page.next.hasMore ==> !Uncrowded(coll, hashes, stime, etime, pageCount)
  {
    if page.done && page.next.hasMore {
      StuckIsCrowded(coll, need, hashes, stime, etime, pageCount, cursor, page);
      forall r | r !in page.rows && StartOf(cursor, stime) <= r.endTime
        ensures CrowdedOut(coll, hashes, stime, pageCount, r)
      {
        StuckCrowds(coll, need, hashes, stime, etime, pageCount, cursor, page, r);
      }
    }
  }

  lemma HonestIsTruthful(coll: set<Row>, ask: Request -> Answer)
    requires forall q :: Honest(coll, q, ask(q))
    ensures forall q :: Truthful(coll, q, ask(q))
  {
    forall q
      ensures Truthful(coll, q, ask(q))
    {
      assert Honest(coll, q, ask(q));
    }
  }

  lemma NothingCollected(coll: set<Row>, need: set<Row>, hashes: seq<int>, stime: int, etime: int, pageCount: int)
    ensures Collected(coll, need, hashes, stime, etime, pageCount, START, false, []) && Txids([]) == {}
  {
  }

  lemma NothingBrought(before: map<int, Row>)
    ensures forall r :: Survives(before, [], r) <==> Holds(before, r)
  {
  }

  lemma AllCollected(coll: set<Row>, need: set<Row>, hashes: seq<int>, stime: int, etime: int, pageCount: int,
                     cursor: PastCursor, out: seq<Row>)
    requires Collected(coll, need, hashes, stime, etime, pageCount, cursor, true, out)
    ensures forall r :: r in Wanted(need, hashes, stime, etime) ==>
              r in out || (cursor.hasMore && CrowdedOut(coll, hashes, stime, pageCount, r))
  {
  }

  lemma SealedIs(store: map<int, Row>, cover: set<Interval>, coll: set<Row>, need: set<Row>, hashes: seq<int>,
                 stime: int, to: int, before: map<int, Row>, turns: seq<Turn>)
    requires SealedSound(store, cover, need, hashes, stime, to) && need <= coll
    requires forall r :: r in coll ==> (Holds(store, r) <==> Survives(before, turns, r))
    ensures Sound(store, cover, need) <==> forall r :: r in Wanted(need, hashes, stime, to) ==> Survives(before, turns, r)
    ensures forall h, t :: h in hashes && stime <= t <= to ==> CoveredAt(cover, h, t)
  {
  }

  /** Reads a range page by page until a page says it is done, dropping repeated txids. It terminates, and
      what it has collected are rows of the objects in `[stime, etime]`, each once: of the rows for which the
      cache is sound, all but those that an instant with a whole page of others crowds out, whatever the
      evictions inside the puts removed. Afterwards, unless the reading got stuck at such an instant, the
      sealed part of the range is marked, and the cache is sound exactly if each wanted row of that part
      survived. */
  method Drain(db: CacheDb?, hashes: seq<int>, stime: int, etime: int, pageCount: int, sealBefore: int,
               ask: Request -> Answer, over: (nat, nat) -> bool, ghost coll: set<Row>, ghost need: set<Row>)
    returns (out: seq<Row>, ghost turns: seq<Turn>, ghost stuck: bool)
    requires UniqueTxids(coll) && need <= coll && 0 <= stime
    requires db != null ==> db.Valid() && Genuine(db.xlog, coll) && Sound(db.xlog, db.cover, need)
    requires forall q :: Honest(coll, q, ask(q))
    modifies if db == null then {} else {db}
    ensures forall r :: r in out ==> r in Wanted(coll, hashes, stime, etime)
    ensures forall i, j :: 0 <= i < j < |out| ==> out[i].txid != out[j].txid
    ensures forall r :: r in Wanted(need, hashes, stime, etime) ==>
              r in out || (stuck && CrowdedOut(coll, hashes, stime, pageCount, r))
    ensures Uncrowded(coll, hashes, stime, etime, pageCount) ==> !stuck
    ensures forall r :: r in out ==> Brought(turns, r)
    ensures (forall n :: !over(n, 0)) ==> forall n :: 0 <= n < |turns| ==> turns[n].cut.None?
    ensures db != null ==> db.Valid() && Genuine(db.xlog, coll)
    ensures db != null && stuck ==> Sound(db.xlog, db.cover, need)
    ensures db != null && !stuck ==>
              && (Sound(db.xlog, db.cover, need) <==>
                  forall r :: r in Wanted(need, hashes, stime, Min(etime, sealBefore)) ==> Survives(old(db.xlog), turns, r))
              && forall h, t :: h in hashes && stime <= t <= Min(etime, sealBefore) ==> CoveredAt(db.cover, h, t)
    ensures db != null && (forall n :: !over(n, 0)) ==> Sound(db.xlog, db.cover, need)
  {
    hide CrowdedOut, Uncrowded, TablesAfter, SealedSound, Honest, Truthful, Collected, Txids, Survives, Sound, Genuine, Sized;
    ghost var want := Wanted(coll, hashes, stime, etime);
    ghost var to := Min(etime, sealBefore);
    var cursor, done := START, false;
    var seen := {};
    var pages: nat := 0;
    NothingCollected(coll, need, hashes, stime, etime, pageCount);
    NothingBrought(if db == null then map[] else db.xlog);
    HonestIsTruthful(coll, ask);
    out, turns, stuck := [], [], false;
    while !done
      invariant !done && cursor != START ==> 0 < cursor.lastXlogTime && stime <= cursor.lastXlogTime <= etime
      invariant seen == Txids(out)
      invariant forall i, j :: 0 <= i < j < |out| ==> out[i].txid != out[j].txid
      invariant forall r :: r in out ==> r in want
      invariant Collected(coll, need, hashes, stime, etime, pageCount, cursor, done, out)
      invariant stuck <==> done && cursor.hasMore
      invariant stuck ==> !Uncrowded(coll, hashes, stime, etime, pageCount)
      invariant forall r :: r in out ==> Brought(turns, r)
      invariant (forall n :: !over(n, 0)) ==> forall n :: 0 <= n < |turns| ==> turns[n].cut.None?
      invariant db != null ==> db.Valid() && Genuine(db.xlog, coll)
      invariant db != null ==> forall r :: r in coll ==> (Holds(db.xlog, r) <==> Survives(old(db.xlog), turns, r))
      invariant db != null && (!done || stuck) ==> Sound(db.xlog, db.cover, need)
      invariant db != null && done && !stuck ==> SealedSound(db.xlog, db.cover, need, hashes, stime, to)
      decreases !done, Max(etime, 0) - cursor.lastXlogTime
    {
      var n := pages;
      ghost var store, cover := if db == null then map[] else db.xlog, if db == null then {} else db.cover;
      var page, cut := PastPage(db, hashes, stime, etime, pageCount, cursor, sealBefore, ask,
                                (i: nat) => false, (i: nat) => over(n, i), coll, need);
      if db != null {
        HeldAfterPage(store, cover, db.xlog, db.cover, coll, hashes, stime, to, page, cut);
        PageLeavesSealed(store, cover, db.xlog, db.cover, coll, need, hashes, stime, to, page, cut);
      }
      var unseen;
      ghost var before, had, was := seen, out, turns;
      seen, unseen := DedupeByTxid(seen, page.rows);
      out := out + unseen;
      turns := turns + [Turn(page.rows, cut)];
      AddFresh(want, before, had, page.rows, out);
      TurnAdded(if db == null then map[] else old(db.xlog), was, Turn(page.rows, cut));
      assert Spared(need, None) == need;
      PageCollected(coll, need, hashes, stime, etime, pageCount, cursor, page, had, out);
      done := page.done;
      cursor := page.next;
      stuck := done && cursor.hasMore;
      pages := pages + 1;
    }
    AllCollected(coll, need, hashes, stime, etime, pageCount, cursor, out);
    if db != null && !stuck {
      SealedIs(db.xlog, db.cover, coll, need, hashes, stime, to, old(db.xlog), turns);
    }
    if db != null && (forall n :: !over(n, 0)) && !stuck {
      forall r | r in Wanted(need, hashes, stime, to)
        ensures Survives(old(db.xlog), turns, r)
      {
        SurvivesCalm(old(db.xlog), turns, r);
      }
    }
  }

  lemma AddFresh(want: set<Row>, seen: set<int>, had: seq<Row>, rows: seq<Row>, out: seq<Row>)
    requires UniqueTxids(want) && seen == Txids(had)
    requires forall r :: r in had ==> r in want
    requires forall r :: r in rows ==> r in want
    requires forall i, j :: 0 <= i < j < |had| ==> had[i].txid != had[j].txid
    requires out == had + FreshRows(seen, rows)
    ensures seen + Txids(rows) == Txids(out)
    ensures forall i, j :: 0 <= i < j < |out| ==> out[i].txid != out[j].txid
    ensures forall r :: r in out <==> r in had || r in rows
  {
    var unseen := FreshRows(seen, rows);
    FreshRowsExact(seen, rows);
    assert Txids(out) == Txids(had) + Txids(unseen);
    forall r | r in rows
      ensures r in out
    {
      assert r.txid in Txids(out);
    }
    forall i, j | 0 <= i < j < |out|
      ensures out[i].txid != out[j].txid
    {
      if i < |had| <= j {
        assert out[i].txid in Txids(had) && out[j] in unseen;
      }
    }
  }
}
