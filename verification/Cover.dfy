/** The covered intervals kept beside the cached rows, read as sets of points in time.

    The table is a set of closed intervals per object. `Separated` says that two intervals of one
    object never overlap and never touch, so the table is the list of maximal covered ranges. */
module Cover {
  import opened Wrappers

  datatype Interval = Interval(objHash: int, s: int, e: int)

  /** Time `t` of object `h` is recorded as completely received. */
  ghost predicate CoveredAt(cover: set<Interval>, h: int, t: int) {
    exists r :: r in cover && r.objHash == h && r.s <= t <= r.e
  }

  /** Some single interval of `h` holds all of `[s, e]`: the test the cache query makes. */
  ghost predicate OneRowHolds(cover: set<Interval>, h: int, s: int, e: int) {
    exists r :: r in cover && r.objHash == h && r.s <= s && e <= r.e
  }

  ghost predicate Apart(a: Interval, b: Interval) {
    a.e + 1 < b.s || b.e + 1 < a.s
  }

  ghost predicate Separated(cover: set<Interval>) {
    && (forall r :: r in cover ==> r.s <= r.e)
    && (forall a, b :: a in cover && b in cover && a.objHash == b.objHash && a != b ==> Apart(a, b))
  }

  /** `after` covers what `before` covers and `[s, e]` of each listed object besides, nothing else. */
  ghost predicate Marked(before: set<Interval>, hashes: seq<int>, s: int, e: int, after: set<Interval>) {
    && Separated(after)
    && forall h, t :: CoveredAt(after, h, t) <==> CoveredAt(before, h, t) || (h in hashes && s <= t <= e)
  }

  /** An interval that overlaps or touches `[s, e]` of object `h`. */
  predicate Near(r: Interval, h: int, s: int, e: int) {
    r.objHash == h && r.e >= s - 1 && r.s <= e + 1
  }

  /** The table after everything below `cut` was given up. */
  function Trim(cover: set<Interval>, cut: int): set<Interval> {
    set r | r in cover && r.e >= cut :: Interval(r.objHash, Max(r.s, cut), r.e)
  }

  /** Right after the end of an interval nothing is covered. */
  lemma GapAfter(cover: set<Interval>, r: Interval)
    requires Separated(cover) && r in cover
    ensures !CoveredAt(cover, r.objHash, r.e + 1)
  {
    forall q | q in cover && q.objHash == r.objHash
      ensures !(q.s <= r.e + 1 <= q.e)
    {
      assert q == r || Apart(q, r);
    }
  }

  /** The query looks for one row around the whole range. It finds one exactly when every instant of the
      range is covered. */
  lemma SingleRowTest(cover: set<Interval>, h: int, s: int, e: int)
    requires Separated(cover)
    requires s <= e
    ensures OneRowHolds(cover, h, s, e) <==> forall t :: s <= t <= e ==> CoveredAt(cover, h, t)
  {
    if forall t :: s <= t <= e ==> CoveredAt(cover, h, t) {
      assert CoveredAt(cover, h, s);
      var r :| r in cover && r.objHash == h && r.s <= s <= r.e;
      GapAfter(cover, r);
      assert e <= r.e;
    }
  }

  /** A table is determined by the points it covers: two separated tables that cover the same
      points hold the same intervals. */
  lemma SeparatedIsCanonical(a: set<Interval>, b: set<Interval>)
    requires Separated(a) && Separated(b)
    requires forall h, t :: CoveredAt(a, h, t) <==> CoveredAt(b, h, t)
    ensures a == b
  {
    SameCoverSubset(a, b);
    SameCoverSubset(b, a);
  }

  lemma SameCoverSubset(a: set<Interval>, b: set<Interval>)
    requires Separated(a) && Separated(b)
    requires forall h, t :: CoveredAt(a, h, t) <==> CoveredAt(b, h, t)
    ensures a <= b
  {
    forall r | r in a
      ensures r in b
    {
      assert forall t :: r.s <= t <= r.e ==> CoveredAt(b, r.objHash, t);
      SingleRowTest(b, r.objHash, r.s, r.e);
      var q :| q in b && q.objHash == r.objHash && q.s <= r.s && r.e <= q.e;
      assert forall t :: q.s <= t <= q.e ==> CoveredAt(a, r.objHash, t);
      SingleRowTest(a, r.objHash, q.s, q.e);
      var p :| p in a && p.objHash == r.objHash && p.s <= q.s && q.e <= p.e;
      assert !Apart(p, r);
    }
  }

  /** Replacing the intervals near `[s, e]` by the hull of them and `[s, e]` adds exactly `[s, e]`. */
  lemma MergeNear(cover: set<Interval>, h: int, s: int, e: int, ns: int, ne: int, after: set<Interval>)
    requires Separated(cover) && s <= e
    requires ns <= s && e <= ne
    requires forall r :: r in cover && Near(r, h, s, e) ==> ns <= r.s && r.e <= ne
    requires ns == s || exists r :: r in cover && Near(r, h, s, e) && r.s == ns
    requires ne == e || exists r :: r in cover && Near(r, h, s, e) && r.e == ne
    requires after == (set r | r in cover && !Near(r, h, s, e)) + {Interval(h, ns, ne)}
    ensures Marked(cover, [h], s, e, after)
  {
    var hull := Interval(h, ns, ne);
    forall r | r in cover && !Near(r, h, s, e) && r.objHash == h
      ensures Apart(r, hull)
    {
      assert forall q :: q in cover && Near(q, h, s, e) ==> Apart(r, q);
    }
    forall x, t
      ensures CoveredAt(after, x, t) <==> CoveredAt(cover, x, t) || (x in [h] && s <= t <= e)
    {
      if CoveredAt(after, x, t) {
        var r :| r in after && r.objHash == x && r.s <= t <= r.e;
        if r == hull && !(s <= t <= e) {
          if t < s {
            var q :| q in cover && Near(q, h, s, e) && q.s == ns;
            assert q.s <= t <= q.e;
          } else {
            var q :| q in cover && Near(q, h, s, e) && q.e == ne;
            assert q.s <= t <= q.e;
          }
        }
      }
      if CoveredAt(cover, x, t) {
        var r :| r in cover && r.objHash == x && r.s <= t <= r.e;
        if Near(r, h, s, e) {
          assert hull in after && hull.s <= t <= hull.e;
        } else {
          assert r in after;
        }
      } else if x in [h] && s <= t <= e {
        assert hull in after && hull.s <= t <= hull.e;
      }
    }
  }

  /** Trimming gives up precisely the covered points below the cut. */
  lemma TrimExact(cover: set<Interval>, cut: int)
    requires Separated(cover)
    ensures Separated(Trim(cover, cut))
    ensures forall h, t :: CoveredAt(Trim(cover, cut), h, t) <==> CoveredAt(cover, h, t) && cut <= t
  {
    var after := Trim(cover, cut);
    forall x | x in after
      ensures x.s <= x.e && x.s >= cut
    {
    }
    forall a, b | a in after && b in after && a.objHash == b.objHash && a != b
      ensures Apart(a, b)
    {
      var p :| p in cover && p.e >= cut && a == Interval(p.objHash, Max(p.s, cut), p.e);
      var q :| q in cover && q.e >= cut && b == Interval(q.objHash, Max(q.s, cut), q.e);
      assert Apart(p, q);
    }
    forall h, t | CoveredAt(cover, h, t) && cut <= t
      ensures CoveredAt(after, h, t)
    {
      var r :| r in cover && r.objHash == h && r.s <= t <= r.e;
      assert Interval(r.objHash, Max(r.s, cut), r.e) in after;
    }
  }

  /** Two cuts in growing order leave what the later one alone leaves. */
  lemma TrimTwice(cover: set<Interval>, c1: int, c2: int)
    requires c1 <= c2
    ensures Trim(Trim(cover, c1), c2) == Trim(cover, c2)
  {
    forall x | x in Trim(cover, c2)
      ensures x in Trim(Trim(cover, c1), c2)
    {
      var r :| r in cover && r.e >= c2 && x == Interval(r.objHash, Max(r.s, c2), r.e);
      var y := Interval(r.objHash, Max(r.s, c1), r.e);
      assert y in Trim(cover, c1);
      assert x == Interval(y.objHash, Max(y.s, c2), y.e);
    }
  }
}
