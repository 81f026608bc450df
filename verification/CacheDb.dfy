/** The local cache of finished transactions: the `xlog` table and the `xlog_cover` table.

    Every method is one call of the cache and runs under its lock. Whether the file is over its size
    limit is not modelled: `over(i)` is the answer of the i-th look at it. */
module CacheDb {
  import opened Wrappers
  import opened Rows
  import opened Cover

  const EVICT_STEP_MS := 3_600_000
  const EVICT_TURNS := 1000

  /** The store after inserting the rows in order, the later one replacing the earlier one. */
  function InsertAll(store: map<int, Row>, rows: seq<Row>): map<int, Row> {
    if rows == [] then store
    else
      var last := rows[|rows| - 1];
      InsertAll(store, rows[..|rows| - 1])[last.txid := last]
  }

  /** The store without the rows that ended before `cut`. */
  function DropBefore(store: map<int, Row>, cut: int): map<int, Row> {
    map k | k in store && store[k].endTime >= cut :: store[k]
  }

  /** Each stored row is a row of the collector, filed under its own txid. */
  ghost predicate Genuine(store: map<int, Row>, coll: set<Row>) {
    forall k :: k in store ==> store[k].txid == k && store[k] in coll
  }

  /** "Covered implies stored": every collector row at a covered time of its object is in the store. */
  ghost predicate Sound(store: map<int, Row>, cover: set<Interval>, coll: set<Row>) {
    forall r :: r in coll && CoveredAt(cover, r.objHash, r.endTime) ==> Holds(store, r)
  }

  ghost predicate Holds(store: map<int, Row>, r: Row) {
    r.txid in store && store[r.txid] == r
  }

  /** Those of the rows that are not in the store. */
  ghost function Unheld(store: map<int, Row>, rows: set<Row>): set<Row> {
    set r | r in rows && !Holds(store, r)
  }

  /** The collector rows at covered times that are not in the store: the cache is sound for all others. */
  ghost function Holes(store: map<int, Row>, cover: set<Interval>, coll: set<Row>): set<Row> {
    set r | r in coll && CoveredAt(cover, r.objHash, r.endTime) && !Holds(store, r)
  }

  /** The stored rows a page query looks at. */
  ghost function Stored(store: map<int, Row>, hashes: seq<int>, from: int, to: int): set<Row> {
    set k | k in store && store[k].objHash in hashes && from <= store[k].endTime <= to :: store[k]
  }

  /** `rows` are the first `limit` of `avail` in the order of the page query. */
  ghost predicate FirstRows(avail: set<Row>, limit: nat, rows: seq<Row>) {
    && |rows| == (if |avail| < limit then |avail| else limit)
    && (forall i :: 0 <= i < |rows| ==> rows[i] in avail)
    && (forall i, j :: 0 <= i < j < |rows| ==> Before(rows[i], rows[j]))
    && (forall r, i :: r in avail && r !in rows && 0 <= i < |rows| ==> Before(rows[i], r))
  }

  class CacheDb {
    var xlog: map<int, Row>
    var cover: set<Interval>

    ghost predicate Valid()
      reads this
    {
      && Separated(cover)
      && forall k :: k in xlog ==> xlog[k].txid == k
    }

    constructor ()
      ensures Valid() && xlog == map[] && cover == {}
    {
      xlog, cover := map[], {};
    }

    /** Is `[s, e]` of every listed object covered? One row per object has to hold all of it. */
    method XlogCovered(hashes: seq<int>, s: int, e: int) returns (covered: bool)
      requires Valid()
      ensures covered <==>
              hashes != [] && s <= e && forall h, t :: h in hashes && s <= t <= e ==> CoveredAt(cover, h, t)
    {
      if hashes == [] || e < s {
        return false;
      }
      for i := 0 to |hashes|
        invariant forall h, t :: h in hashes[..i] && s <= t <= e ==> CoveredAt(cover, h, t)
      {
        SingleRowTest(cover, hashes[i], s, e);
        if !exists r :: r in cover && r.objHash == hashes[i] && r.s <= s && r.e >= e {
          assert !OneRowHolds(cover, hashes[i], s, e);
          return false;
        }
      }
      return true;
    }

    /** The stored rows of the objects in `[from, to]`, by end time and txid, at most `limit`. */
    method XlogPage(hashes: seq<int>, from: int, to: int, limit: nat) returns (rows: seq<Row>)
      requires Valid()
      ensures FirstRows(Stored(xlog, hashes, from, to), limit, rows)
    {
      rows := FirstOf(set k | k in xlog && xlog[k].objHash in hashes && from <= xlog[k].endTime <= to :: xlog[k], limit);
    }

    static method FirstOf(avail: set<Row>, limit: nat) returns (rows: seq<Row>)
      requires UniqueTxids(avail)
      ensures FirstRows(avail, limit, rows)
    {
      rows := [];
      var rest := avail;
      while |rows| < limit && rest != {}
        invariant rest <= avail && forall r :: r in avail && r !in rest ==> r in rows
        invariant |rows| + |rest| == |avail| && |rows| <= limit
        invariant forall i :: 0 <= i < |rows| ==> rows[i] in avail
        invariant forall i, j :: 0 <= i < j < |rows| ==> Before(rows[i], rows[j])
        invariant forall r, i :: r in rest && 0 <= i < |rows| ==> Before(rows[i], r)
        decreases |rest|
      {
        var m := First(rest);
        rows, rest := rows + [m], rest - {m};
      }
    }

    static method First(rows: set<Row>) returns (m: Row)
      requires rows != {}
      requires UniqueTxids(rows)
      ensures m in rows && forall r :: r in rows && r != m ==> Before(m, r)
    {
      m :| m in rows;
      var rest := rows - {m};
      while rest != {}
        invariant rest <= rows && m in rows && m !in rest
        invariant forall r :: r in rows && r !in rest && r != m ==> Before(m, r)
        decreases |rest|
      {
        var r :| r in rest;
        if Before(r, m) {
          m := r;
        }
        rest := rest - {r};
      }
    }

    /** Stores rows the collector sent, then trims the file if it is over its limit. */
    method PutXlogs(rows: seq<Row>, over: nat -> bool) returns (cut: Option<int>)
      requires Valid()
      modifies this
      ensures Valid()
      ensures !over(0) ==> cut.None?
      ensures cut.None? ==> xlog == InsertAll(old(xlog), rows) && cover == old(cover)
      ensures cut.Some? ==>
                && xlog == DropBefore(InsertAll(old(xlog), rows), cut.value)
                && cover == Trim(old(cover), cut.value)
    {
      if rows == [] {
        return None;
      }
      for i := 0 to |rows|
        invariant Valid() && cover == old(cover)
        invariant xlog == InsertAll(old(xlog), rows[..i])
      {
        xlog := xlog[rows[i].txid := rows[i]];
        assert rows[..i + 1][..i] == rows[..i];
      }
      assert rows[..|rows|] == rows;
      cut := EvictXlog(over);
    }

    /** Records `[s, e]` of the objects as received, merging what it overlaps or touches. */
    method MarkXlog(hashes: seq<int>, s: int, e: int)
      requires Valid()
      modifies this`cover
      ensures Valid()
      ensures Marked(old(cover), hashes, s, e, cover)
    {
      if e < s {
        return;
      }
      for i := 0 to |hashes|
        invariant Valid()
        invariant Marked(old(cover), hashes[..i], s, e, cover)
      {
        var h := hashes[i];
        var ns, ne := s, e;
        ghost var before := cover;
        var near := set r | r in cover && Near(r, h, s, e);
        var todo := near;
        while todo != {}
          invariant todo <= near
          invariant cover == before - (near - todo)
          invariant ns <= s && e <= ne
          invariant forall r :: r in near - todo ==> ns <= r.s && r.e <= ne
          invariant ns == s || exists r :: r in near && r.s == ns
          invariant ne == e || exists r :: r in near && r.e == ne
          decreases |todo|
        {
          var r :| r in todo;
          ns, ne := Min(ns, r.s), Max(ne, r.e);
          cover := cover - {r};
          todo := todo - {r};
        }
        cover := cover + {Interval(h, ns, ne)};
        MergeNear(before, h, s, e, ns, ne, cover);
        assert hashes[..i + 1] == hashes[..i] + [h];
      }
      assert hashes[..|hashes|] == hashes;
    }

    method OldestEndTime() returns (oldest: Option<int>)
      ensures oldest.None? <==> xlog == map[]
      ensures oldest.Some? ==>
                && (exists k :: k in xlog && xlog[k].endTime == oldest.value)
                && (forall k :: k in xlog ==> oldest.value <= xlog[k].endTime)
    {
      oldest := None;
      var rows := set k | k in xlog :: xlog[k];
      var todo := rows;
      while todo != {}
        invariant todo <= rows
        invariant oldest.None? <==> todo == rows
        invariant oldest.Some? ==>
                    && (exists r :: r in rows && r.endTime == oldest.value)
                    && (forall r :: r in rows && r !in todo ==> oldest.value <= r.endTime)
        decreases |todo|
      {
        var r :| r in todo;
        if oldest.None? || r.endTime < oldest.value {
          oldest := Some(r.endTime);
        }
        todo := todo - {r};
      }
      assert forall k :: k in xlog ==> xlog[k] in rows;
    }

    /** One turn of the eviction loop: gives up the oldest stored hour, rows and coverage together.
        A turn that finds a row always removes one, so the loop cannot spin. */
    method EvictTurn() returns (cut: Option<int>)
      requires Valid()
      modifies this
      ensures Valid()
      ensures cut.None? <==> old(xlog) == map[]
      ensures cut.None? ==> xlog == old(xlog) && cover == old(cover)
      ensures cut.Some? ==>
                && xlog == DropBefore(old(xlog), cut.value) && cover == Trim(old(cover), cut.value)
                && |xlog| < |old(xlog)|
                && (forall k :: k in old(xlog) ==> cut.value - EVICT_STEP_MS <= old(xlog)[k].endTime)
                && exists k :: k in old(xlog) && old(xlog)[k].endTime == cut.value - EVICT_STEP_MS
    {
      var oldest := OldestEndTime();
      if oldest.None? {
        return None;
      }
      var c := oldest.value + EVICT_STEP_MS;
      var k :| k in xlog && xlog[k].endTime == oldest.value;
      xlog := map j | j in xlog && !(xlog[j].endTime < c) :: xlog[j];
      assert k !in xlog && xlog.Keys < old(xlog.Keys);
      SmallerDomain(xlog, old(xlog));
      cover := set r | r in cover :: if r.s < c then Interval(r.objHash, c, r.e) else r;
      cover := set r | r in cover && !(r.e < r.s);
      TrimInTwoStatements(old(cover), c, cover);
      TrimExact(old(cover), c);
      return Some(c);
    }

    static lemma SmallerDomain(a: map<int, Row>, b: map<int, Row>)
      requires a.Keys < b.Keys
      ensures |a| < |b|
    {
      SmallerSet(a.Keys, b.Keys);
    }

    static lemma SmallerSet(a: set<int>, b: set<int>)
      requires a < b
      ensures |a| < |b|
    {
      assert b == a + (b - a);
    }

    static lemma TrimInTwoStatements(cover: set<Interval>, c: int, after: set<Interval>)
      requires Separated(cover)
      requires after == set r | r in (set q | q in cover :: if q.s < c then Interval(q.objHash, c, q.e) else q)
                                && !(r.e < r.s)
      ensures after == Trim(cover, c)
    {
      forall x | x in Trim(cover, c)
        ensures x in after
      {
        var r :| r in cover && r.e >= c && x == Interval(r.objHash, Max(r.s, c), r.e);
        assert x == if r.s < c then Interval(r.objHash, c, r.e) else r;
      }
      forall x | x in after
        ensures x in Trim(cover, c)
      {
        var q :| q in cover && x == if q.s < c then Interval(q.objHash, c, q.e) else q;
        assert x == Interval(q.objHash, Max(q.s, c), q.e);
      }
    }

    /** Deletes from the oldest end, an hour at a time, while the file is over its limit. What goes is
        exactly what lies before one cut, in both tables. */
    method EvictXlog(over: nat -> bool) returns (cut: Option<int>)
      requires Valid()
      modifies this
      ensures Valid()
      ensures !over(0) ==> cut.None?
      ensures cut.None? ==> xlog == old(xlog) && cover == old(cover)
      ensures cut.Some? ==>
                && xlog == DropBefore(old(xlog), cut.value) && cover == Trim(old(cover), cut.value)
                && |xlog| < |old(xlog)|
    {
      cut := None;
      for i := 0 to EVICT_TURNS
        invariant Valid() && (!over(0) ==> i == 0 && cut.None?)
        invariant cut.None? ==> xlog == old(xlog) && cover == old(cover)
        invariant cut.Some? ==>
                    && xlog == DropBefore(old(xlog), cut.value) && cover == Trim(old(cover), cut.value)
                    && |xlog| < |old(xlog)|
      {
        if !over(i) {
          break;
        }
        ghost var mid := xlog;
        var c := EvictTurn();
        if c.None? {
          break;
        }
        if cut.Some? {
          assert c.value > cut.value;
          TrimTwice(old(cover), cut.value, c.value);
          assert DropBefore(mid, c.value) == DropBefore(old(xlog), c.value);
        }
        cut := c;
      }
    }

    method Clear()
      modifies this
      ensures Valid() && xlog == map[] && cover == {}
    {
      xlog, cover := map[], {};
    }
  }

  // What the operations keep. The lemmas speak of the tables as values, so that the protocol over
  // many callers can use them as well.

  /** After inserting rows of the collector exactly the rows held before and the inserted ones are held. */
  lemma {:induction false} InsertAllHolds(store: map<int, Row>, rows: seq<Row>, coll: set<Row>)
    requires UniqueTxids(coll) && Genuine(store, coll)
    requires forall r :: r in rows ==> r in coll
    ensures Genuine(InsertAll(store, rows), coll)
    ensures forall r :: r in coll ==> (Holds(InsertAll(store, rows), r) <==> Holds(store, r) || r in rows)
  {
    if rows == [] {
    } else {
      var n := |rows| - 1;
      assert rows == rows[..n] + [rows[n]];
      InsertAllHolds(store, rows[..n], coll);
    }
  }

  /** Storing genuine rows keeps "covered implies stored", for whichever rows it is asked. */
  lemma PutKeepsSound(store: map<int, Row>, cover: set<Interval>, rows: seq<Row>, coll: set<Row>, need: set<Row>)
    requires UniqueTxids(coll) && Genuine(store, coll) && need <= coll && Sound(store, cover, need)
    requires forall r :: r in rows ==> r in coll
    ensures Genuine(InsertAll(store, rows), coll) && Sound(InsertAll(store, rows), cover, need)
  {
    InsertAllHolds(store, rows, coll);
  }

  /** Eviction shrinks both tables by the same cut, so it keeps "covered implies stored". */
  lemma EvictKeepsSound(store: map<int, Row>, cover: set<Interval>, cut: int, need: set<Row>)
    requires Separated(cover) && Sound(store, cover, need)
    ensures Sound(DropBefore(store, cut), Trim(cover, cut), need)
  {
    TrimExact(cover, cut);
  }

  /** A mark keeps "covered implies stored" exactly when the rows of the marked range are stored. */
  lemma MarkKeepsSoundIff(store: map<int, Row>, cover: set<Interval>, hashes: seq<int>, s: int, e: int,
                          after: set<Interval>, need: set<Row>)
    requires Sound(store, cover, need) && Marked(cover, hashes, s, e, after)
    ensures Sound(store, after, need) <==> forall r :: r in Wanted(need, hashes, s, e) ==> Holds(store, r)
  {
    forall r | r in Wanted(need, hashes, s, e) && Sound(store, after, need)
      ensures Holds(store, r)
    {
      assert CoveredAt(after, r.objHash, r.endTime);
    }
  }

  // Coverage over a whole history of the table

  datatype CoverOp = Receive(hashes: seq<int>, s: int, e: int) | Cut(cut: int) | Wipe

  /** The tables between the operations, from an empty one on. */
  ghost predicate CoverHistory(tables: seq<set<Interval>>, ops: seq<CoverOp>) {
    && |tables| == |ops| + 1 && tables[0] == {}
    && forall i :: 0 <= i < |ops| ==> CoverStep(tables[i], ops[i], tables[i + 1])
  }

  ghost predicate CoverStep(before: set<Interval>, op: CoverOp, after: set<Interval>) {
    match op
    case Receive(hashes, s, e) => Marked(before, hashes, s, e, after)
    case Cut(cut) => after == Trim(before, cut)
    case Wipe => after == {}
  }

  predicate Receives(op: CoverOp, h: int, t: int) {
    op.Receive? && h in op.hashes && op.s <= t <= op.e
  }

  predicate Loses(op: CoverOp, t: int) {
    op.Wipe? || (op.Cut? && t < op.cut)
  }

  /** The instant was received and has not been cut off or wiped out since. */
  ghost predicate StillReceived(ops: seq<CoverOp>, h: int, t: int) {
    exists i :: 0 <= i < |ops| && Receives(ops[i], h, t) && forall j :: i < j < |ops| ==> !Loses(ops[j], t)
  }

  lemma ReceivedStep(ops: seq<CoverOp>, op: CoverOp, h: int, t: int)
    ensures StillReceived(ops + [op], h, t) <==> Receives(op, h, t) || (StillReceived(ops, h, t) && !Loses(op, t))
  {
    var all := ops + [op];
    if Receives(op, h, t) {
      assert Receives(all[|ops|], h, t);
    }
    if StillReceived(ops, h, t) && !Loses(op, t) {
      var i :| 0 <= i < |ops| && Receives(ops[i], h, t) && forall j :: i < j < |ops| ==> !Loses(ops[j], t);
      assert Receives(all[i], h, t);
    }
    if StillReceived(all, h, t) && !Receives(op, h, t) {
      var i :| 0 <= i < |all| && Receives(all[i], h, t) && forall j :: i < j < |all| ==> !Loses(all[j], t);
      assert Receives(ops[i], h, t) && !Loses(all[|ops|], t);
      assert forall j :: i < j < |ops| ==> ops[j] == all[j];
    }
  }

  /** Over every history of marks, evictions and clears the table is exact: an instant is covered if and
      only if it was marked and neither cut off nor cleared afterwards. */
  lemma {:induction false} CoverIsHistory(tables: seq<set<Interval>>, ops: seq<CoverOp>, n: nat)
    requires CoverHistory(tables, ops) && n <= |ops|
    ensures Separated(tables[n])
    ensures forall h, t :: CoveredAt(tables[n], h, t) <==> StillReceived(ops[..n], h, t)
  {
    if n == 0 {
    } else {
      CoverIsHistory(tables, ops, n - 1);
      assert CoverStep(tables[n - 1], ops[n - 1], tables[n]);
      assert ops[..n] == ops[..n - 1] + [ops[n - 1]];
      if ops[n - 1].Cut? {
        TrimExact(tables[n - 1], ops[n - 1].cut);
      }
      forall h, t
        ensures CoveredAt(tables[n], h, t) <==> StillReceived(ops[..n], h, t)
      {
        ReceivedStep(ops[..n - 1], ops[n - 1], h, t);
      }
    }
  }
}
