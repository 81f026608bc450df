/** Stable sorting by a pair of integers, largest first, and what survives truncation. */
module StableSort {

  type Key = (int, int)

  /** Strictly larger in the lexicographic order: comes first in the sorted list. */
  predicate Ahead(a: Key, b: Key) {
    a.0 > b.0 || (a.0 == b.0 && a.1 > b.1)
  }

  ghost predicate Sorted<T>(key: T -> Key, xs: seq<T>) {
    forall i, j :: 0 <= i < j < |xs| ==> !Ahead(key(xs[j]), key(xs[i]))
  }

  /** Puts `x` behind everything it is not strictly ahead of. */
  function Insert<T>(key: T -> Key, xs: seq<T>, x: T): seq<T> {
    if xs == [] then [x]
    else
      var n := |xs| - 1;
      if Ahead(key(x), key(xs[n])) then Insert(key, xs[..n], x) + [xs[n]] else xs + [x]
  }

  function Sort<T>(key: T -> Key, xs: seq<T>): seq<T> {
    if xs == [] then [] else Insert(key, Sort(key, xs[..|xs| - 1]), xs[|xs| - 1])
  }

  function Take<T>(xs: seq<T>, k: nat): seq<T> {
    if |xs| <= k then xs else xs[..k]
  }

  /** The elements with a given key, in order. */
  function WithKey<T>(key: T -> Key, xs: seq<T>, k: Key): seq<T> {
    if xs == [] then []
    else
      var n := |xs| - 1;
      WithKey(key, xs[..n], k) + if key(xs[n]) == k then [xs[n]] else []
  }

  function Keys<T>(key: T -> Key, xs: seq<T>): seq<Key> {
    seq(|xs|, i requires 0 <= i < |xs| => key(xs[i]))
  }

  // The sort is a stable sort

  lemma {:induction false} InsertAdds<T>(key: T -> Key, xs: seq<T>, x: T)
    ensures |Insert(key, xs, x)| == |xs| + 1
    ensures multiset(Insert(key, xs, x)) == multiset(xs) + multiset{x}
    ensures forall i :: 0 <= i < |xs| + 1 ==> Insert(key, xs, x)[i] in xs || Insert(key, xs, x)[i] == x
  {
    if xs == [] {
    } else {
      var n := |xs| - 1;
      assert xs == xs[..n] + [xs[n]];
      InsertAdds(key, xs[..n], x);
    }
  }

  lemma {:induction false} InsertSorted<T>(key: T -> Key, xs: seq<T>, x: T)
    requires Sorted(key, xs)
    ensures Sorted(key, Insert(key, xs, x))
  {
    if xs == [] {
    } else {
      var n := |xs| - 1;
      if Ahead(key(x), key(xs[n])) {
        InsertSorted(key, xs[..n], x);
        InsertAdds(key, xs[..n], x);
        var front := Insert(key, xs[..n], x);
        forall i | 0 <= i < |front|
          ensures !Ahead(key(xs[n]), key(front[i]))
        {
          if front[i] != x {
            var ys := xs[..n];
            assert front[i] in ys;
            var k :| 0 <= k < |ys| && ys[k] == front[i];
            assert xs[k] == front[i];
          }
        }
      }
    }
  }

  lemma {:induction false} InsertStable<T>(key: T -> Key, xs: seq<T>, x: T, k: Key)
    requires Sorted(key, xs)
    ensures WithKey(key, Insert(key, xs, x), k) == WithKey(key, xs, k) + if key(x) == k then [x] else []
  {
    if xs == [] {
      assert [x][..0] == [];
    } else {
      var n := |xs| - 1;
      if Ahead(key(x), key(xs[n])) {
        InsertStable(key, xs[..n], x, k);
        var front := Insert(key, xs[..n], x);
        assert (front + [xs[n]])[..|front|] == front;
        if key(x) == k {
          NoneBehind(key, xs, k);
        }
      } else {
        assert (xs + [x])[..|xs|] == xs;
      }
    }
  }

  /** In a sorted list whose last key is behind `k`, the elements with key `k` all lie before it. */
  lemma NoneBehind<T>(key: T -> Key, xs: seq<T>, k: Key)
    requires xs != [] && key(xs[|xs| - 1]) != k
    ensures WithKey(key, xs, k) == WithKey(key, xs[..|xs| - 1], k)
  {
  }

  /** `Sort` is a stable sort: in order, a permutation, and elements with equal keys keep their order. */
  lemma {:induction false} SortIsStableSort<T>(key: T -> Key, xs: seq<T>)
    ensures Sorted(key, Sort(key, xs))
    ensures multiset(Sort(key, xs)) == multiset(xs) && |Sort(key, xs)| == |xs|
    ensures forall k :: WithKey(key, Sort(key, xs), k) == WithKey(key, xs, k)
  {
    if xs == [] {
    } else {
      var n := |xs| - 1;
      assert xs == xs[..n] + [xs[n]];
      SortIsStableSort(key, xs[..n]);
      InsertAdds(key, Sort(key, xs[..n]), xs[n]);
      InsertSorted(key, Sort(key, xs[..n]), xs[n]);
      forall k
        ensures WithKey(key, Sort(key, xs), k) == WithKey(key, xs, k)
      {
        InsertStable(key, Sort(key, xs[..n]), xs[n], k);
      }
    }
  }

  // Truncation

  lemma InsertLast<T>(key: T -> Key, xs: seq<T>, x: T)
    requires forall i :: 0 <= i < |xs| ==> !Ahead(key(x), key(xs[i]))
    ensures Insert(key, xs, x) == xs + [x]
  {
  }

  lemma NotAheadOfAny<T>(key: T -> Key, xs: seq<T>, x: T)
    requires Sorted(key, xs) && xs != [] && !Ahead(key(x), key(xs[|xs| - 1]))
    ensures forall i :: 0 <= i < |xs| ==> !Ahead(key(x), key(xs[i]))
  {
  }

  lemma TakeOfLonger<T>(xs: seq<T>, ys: seq<T>, k: nat)
    requires k <= |xs|
    ensures Take(xs + ys, k) == Take(xs, k)
  {
  }

  lemma {:induction false} SortedIsFixed<T>(key: T -> Key, xs: seq<T>)
    requires Sorted(key, xs)
    ensures Sort(key, xs) == xs
  {
    if xs == [] {
    } else {
      var n := |xs| - 1;
      SortedIsFixed(key, xs[..n]);
      InsertLast(key, xs[..n], xs[n]);
    }
  }

  lemma InsertBefore<T>(key: T -> Key, xs: seq<T>, x: T, k: nat)
    requires |xs| > k && Ahead(key(x), key(xs[|xs| - 1]))
    ensures Take(Insert(key, xs, x), k) == Take(Insert(key, xs[..|xs| - 1], x), k) && Take(xs[..|xs| - 1], k) == Take(xs, k)
  {
    hide Take, Ahead;
    var n := |xs| - 1;
    InsertAdds(key, xs[..n], x);
    TakeOfLonger(Insert(key, xs[..n], x), [xs[n]], k);
    TakeOfLonger(xs[..n], [xs[n]], k);
    assert xs == xs[..n] + [xs[n]];
  }

  /** Only the first `k` of a sorted list matter for the first `k` after an insertion. */
  lemma {:induction false} TakeInsert<T>(key: T -> Key, xs: seq<T>, x: T, k: nat)
    requires Sorted(key, xs)
    ensures Take(Insert(key, xs, x), k) == Take(Insert(key, Take(xs, k), x), k)
  {
    if |xs| > k {
      var n := |xs| - 1;
      if Ahead(key(x), key(xs[n])) {
        TakeInsert(key, xs[..n], x, k);
        InsertBefore(key, xs, x, k);
      } else {
        NotAheadOfAny(key, xs, x);
        InsertLast(key, xs[..k], x);
        TakeOfLonger(xs, [x], k);
        TakeOfLonger(xs[..k], [x], k);
      }
    }
  }

  lemma TakeSortStep<T>(key: T -> Key, u: seq<T>, v: seq<T>, x: T, k: nat)
    requires Take(Sort(key, u), k) == Take(Sort(key, v), k)
    ensures Take(Sort(key, u + [x]), k) == Take(Sort(key, v + [x]), k)
  {
    assert (u + [x])[..|u|] == u && (v + [x])[..|v|] == v;
    SortIsStableSort(key, u);
    SortIsStableSort(key, v);
    TakeInsert(key, Sort(key, u), x, k);
    TakeInsert(key, Sort(key, v), x, k);
  }

  /** Sorting what was kept by an earlier truncation together with new elements keeps the same first
      `k` as sorting everything. */
  lemma {:induction false} TakeSortTwice<T>(key: T -> Key, a: seq<T>, b: seq<T>, k: nat)
    ensures Take(Sort(key, Take(Sort(key, a), k) + b), k) == Take(Sort(key, a + b), k)
  {
    var kept := Take(Sort(key, a), k);
    if b == [] {
      SortIsStableSort(key, a);
      assert kept + b == kept && a + b == a;
      SortedIsFixed(key, kept);
    } else {
      var n := |b| - 1;
      TakeSortTwice(key, a, b[..n], k);
      TakeSortStep(key, kept + b[..n], a + b[..n], b[n], k);
      assert kept + b == kept + b[..n] + [b[n]] && a + b == a + b[..n] + [b[n]];
    }
  }

  // Independence of the input order

  /** Every element of `b` can be moved to its end. */
  lemma SplitAt<T>(b: seq<T>, x: T) returns (i: nat)
    requires x in b
    ensures i < |b| && b == b[..i] + [x] + b[i + 1..]
    ensures multiset(b) == multiset(b[..i] + b[i + 1..]) + multiset{x}
  {
    i :| i < |b| && b[i] == x;
    assert b == b[..i] + [x] + b[i + 1..];
  }

  lemma MultisetOfFront<T>(s: seq<T>)
    requires s != []
    ensures multiset(s[..|s| - 1]) == multiset(s) - multiset{s[|s| - 1]}
    ensures s[|s| - 1] in multiset(s)
  {
    assert s == s[..|s| - 1] + [s[|s| - 1]];
  }

  lemma KeysAround<T>(key: T -> Key, b: seq<T>, i: nat)
    requires i < |b|
    ensures multiset(Keys(key, b)) == multiset(Keys(key, b[..i] + b[i + 1..])) + multiset{key(b[i])}
  {
    var l, r := Keys(key, b[..i]), Keys(key, b[i + 1..]);
    assert Keys(key, b) == l + [key(b[i])] + r;
    assert Keys(key, b[..i] + b[i + 1..]) == l + r;
  }

  lemma {:induction false} KeysOfPermutation<T>(key: T -> Key, a: seq<T>, b: seq<T>)
    requires multiset(a) == multiset(b)
    ensures multiset(Keys(key, a)) == multiset(Keys(key, b))
  {
    if a == [] {
      assert |multiset(b)| == |b|;
    } else {
      var n := |a| - 1;
      MultisetOfFront(a);
      var i := SplitAt(b, a[n]);
      var rest := b[..i] + b[i + 1..];
      KeysOfPermutation(key, a[..n], rest);
      assert Keys(key, a) == Keys(key, a[..n]) + [key(a[n])];
      KeysAround(key, b, i);
    }
  }

  lemma SameLast(a: seq<Key>, b: seq<Key>)
    requires multiset(a) == multiset(b) && |a| == |b| > 0
    requires forall i, j :: 0 <= i < j < |a| ==> !Ahead(a[j], a[i])
    requires forall i, j :: 0 <= i < j < |b| ==> !Ahead(b[j], b[i])
    ensures a[|a| - 1] == b[|b| - 1]
  {
    assert a[|a| - 1] in multiset(a) && b[|b| - 1] in multiset(b);
  }

  lemma {:induction false} SortedKeysUnique(a: seq<Key>, b: seq<Key>)
    requires multiset(a) == multiset(b)
    requires forall i, j :: 0 <= i < j < |a| ==> !Ahead(a[j], a[i])
    requires forall i, j :: 0 <= i < j < |b| ==> !Ahead(b[j], b[i])
    ensures a == b
  {
    assert |multiset(a)| == |a| && |multiset(b)| == |b|;
    if a == [] {
    } else {
      var n := |a| - 1;
      MultisetOfFront(a);
      MultisetOfFront(b);
      SameLast(a, b);
      SortedKeysUnique(a[..n], b[..n]);
      assert a == a[..n] + [a[n]] && b == b[..n] + [b[n]];
    }
  }

  lemma KeysOfTake<T>(key: T -> Key, xs: seq<T>, k: nat)
    ensures Keys(key, Take(xs, k)) == Take(Keys(key, xs), k)
  {
  }

  /** The keys of the first `k` after sorting do not depend on the order of the input. */
  lemma SortedKeysIgnoreOrder<T>(key: T -> Key, a: seq<T>, b: seq<T>, k: nat)
    requires multiset(a) == multiset(b)
    ensures Keys(key, Take(Sort(key, a), k)) == Keys(key, Take(Sort(key, b), k))
  {
    var sa, sb := Sort(key, a), Sort(key, b);
    SortIsStableSort(key, a);
    SortIsStableSort(key, b);
    KeysOfPermutation(key, sa, sb);
    SortedKeysUnique(Keys(key, sa), Keys(key, sb));
    KeysOfTake(key, sa, k);
    KeysOfTake(key, sb, k);
  }
}
