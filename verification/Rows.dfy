/** The part of a transaction log row that the cache, the scan and the digest look at. */
module Rows {

  datatype Row = Row(txid: int, objHash: int, endTime: int, service: int, elapsed: int, error: int)

  /** A txid names one row: no collector holds two different rows with the same txid. */
  ghost predicate UniqueTxids(rows: set<Row>) {
    forall a, b :: a in rows && b in rows && a.txid == b.txid ==> a == b
  }

  /** The rows of the given objects that ended in `[from, to]`. */
  ghost function Wanted(rows: set<Row>, hashes: seq<int>, from: int, to: int): set<Row> {
    set r | r in rows && r.objHash in hashes && from <= r.endTime <= to
  }

  ghost predicate Distinct(rows: seq<Row>) {
    forall i, j :: 0 <= i < j < |rows| ==> rows[i] != rows[j]
  }

  function Elements(rows: seq<Row>): set<Row> {
    set r | r in rows
  }

  lemma {:induction false} ElementsSize(rows: seq<Row>)
    ensures |Elements(rows)| <= |rows|
    ensures Distinct(rows) ==> |Elements(rows)| == |rows|
  {
    if rows == [] {
    } else {
      var n := |rows| - 1;
      ElementsSize(rows[..n]);
      assert rows == rows[..n] + [rows[n]];
      assert Elements(rows) == Elements(rows[..n]) + {rows[n]};
    }
  }

  lemma SubsetSize(a: set<Row>, b: set<Row>)
    requires a <= b
    ensures |a| <= |b|
  {
    assert b == a + (b - a);
  }

  /** `ORDER BY end_time, txid`. */
  predicate Before(a: Row, b: Row) {
    a.endTime < b.endTime || (a.endTime == b.endTime && a.txid < b.txid)
  }
}
