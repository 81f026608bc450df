/** Work split over workers in strides, and answers put back where they belong. */
module Strided {
  import opened Wrappers
  import opened Dictionary

  /** `skip(first).step_by(step)` over `n` items. */
  function Part(first: nat, step: nat, n: nat): seq<nat>
    requires step > 0
    decreases n - first
  {
    if first >= n then [] else [first] + Part(first + step, step, n)
  }

  method TakePart(first: nat, step: nat, n: nat) returns (part: seq<nat>)
    requires step > 0
    ensures part == Part(first, step, n)
  {
    part := [];
    var i := first;
    while i < n
      invariant part + Part(i, step, n) == Part(first, step, n)
      decreases n - i
    {
      part := part + [i];
      i := i + step;
    }
  }

  lemma StepBack(i: nat, step: nat)
    requires 0 < step <= i
    ensures (i - step) % step == i % step
  {
    var q, r := i / step, i % step;
    assert i == q * step + r && q >= 1;
    assert i - step == (q - 1) * step + r;
    SameRemainder(i - step, q - 1, r, step);
  }

  lemma SameRemainder(i: nat, q: nat, r: nat, step: nat)
    requires i == q * step + r && r < step
    ensures i % step == r
  {
    var d := i / step - q;
    assert d * step == i / step * step - q * step;
    assert i / step * step + i % step == i;
    MultipleGrows(d, step);
  }

  /** A part holds the items from its first on that are a number of strides away, in ascending order. */
  lemma {:induction false} PartMembers(first: nat, step: nat, n: nat, i: nat)
    requires step > 0
    ensures i in Part(first, step, n) <==> first <= i < n && (i - first) % step == 0
    decreases n - first
  {
    if first < n {
      PartMembers(first + step, step, n, i);
      if i >= first + step {
        StepBack(i - first, step);
      } else if first < i {
        SameRemainder(i - first, 0, i - first, step);
      }
    }
  }

  lemma {:induction false} PartAscends(first: nat, step: nat, n: nat)
    requires step > 0
    ensures forall a, b :: 0 <= a < b < |Part(first, step, n)| ==> Part(first, step, n)[a] < Part(first, step, n)[b]
    ensures forall a :: 0 <= a < |Part(first, step, n)| ==> first <= Part(first, step, n)[a] < n
    decreases n - first
  {
    if first < n {
      PartAscends(first + step, step, n);
    }
  }

  /** For any number of workers every item is in the part of exactly one of them, and in it once. */
  lemma PartsPartition(step: nat, n: nat, i: nat)
    requires step > 0 && i < n
    ensures forall w: nat :: w < step ==> (i in Part(w, step, n) <==> w == i % step)
    ensures forall w: nat, a, b :: w < step && 0 <= a < b < |Part(w, step, n)| ==> Part(w, step, n)[a] != Part(w, step, n)[b]
  {
    forall w: nat | w < step
      ensures i in Part(w, step, n) <==> w == i % step
    {
      PartMembers(w, step, n, i);
      if w <= i {
        ResidueOf(i, w, step);
      } else {
        SameRemainder(i, 0, i, step);
      }
    }
    forall w: nat, a, b | w < step && 0 <= a < b < |Part(w, step, n)|
      ensures Part(w, step, n)[a] != Part(w, step, n)[b]
    {
      PartAscends(w, step, n);
    }
  }

  lemma ResidueOf(i: nat, w: nat, step: nat)
    requires w < step && w <= i
    ensures (i - w) % step == 0 <==> i % step == w
  {
    var q, r := i / step, i % step;
    assert i == q * step + r;
    if r == w {
      SameRemainder(i - w, q, 0, step);
    } else if (i - w) % step == 0 {
      var p := (i - w) / step;
      assert i == p * step + w;
      SameRemainder(i, p, w, step);
    }
  }

  // Fetching profiles

  /** What became of a worker: its thread died, it got no connection, or it has an answer or a failure for
      each of its targets. */
  datatype Outcome<T> = Died | NoConnection | Fetched(answers: map<nat, T>)

  /** What the worker hands back: its targets with their answers. */
  function Handed<T>(part: seq<nat>, o: Outcome<T>): seq<(nat, Option<T>)> {
    if o.Died? then []
    else seq(|part|, a requires 0 <= a < |part| => (part[a], Answer(o, part[a])))
  }

  function Answer<T>(o: Outcome<T>, i: nat): Option<T> {
    if o.Fetched? && i in o.answers then Some(o.answers[i]) else None
  }

  function Clamp(workers: nat, n: nat): nat {
    Min(Max(workers, 1), n)
  }

  /** The workers in the order in which their results are taken. */
  ghost predicate EachOnce(order: seq<nat>, k: nat) {
    && (forall a :: 0 <= a < |order| ==> order[a] < k)
    && (forall a, b :: 0 <= a < b < |order| ==> order[a] != order[b])
    && (forall w: nat :: w < k ==> w in order)
  }

  method PutBack<T>(out: array<Option<T>>, handed: seq<(nat, Option<T>)>)
    requires forall a :: 0 <= a < |handed| ==> handed[a].0 < out.Length
    requires forall a, b :: 0 <= a < b < |handed| ==> handed[a].0 != handed[b].0
    modifies out
    ensures forall a :: 0 <= a < |handed| ==> out[handed[a].0] == handed[a].1
    ensures forall i :: 0 <= i < out.Length && (forall a :: 0 <= a < |handed| ==> handed[a].0 != i) ==> out[i] == old(out[i])
  {
    for c := 0 to |handed|
      invariant forall a :: 0 <= a < c ==> out[handed[a].0] == handed[a].1
      invariant forall i :: 0 <= i < out.Length && (forall a :: 0 <= a < c ==> handed[a].0 != i) ==> out[i] == old(out[i])
    {
      out[handed[c].0] := handed[c].1;
    }
  }

  /** One worker's results put back: its slots hold its answers, all others are as they were. */
  method PutBackPart<T>(out: array<Option<T>>, w: nat, k: nat, o: Outcome<T>)
    requires w < k && forall i :: 0 <= i < out.Length && i % k == w ==> out[i] == None
    modifies out
    ensures forall i :: 0 <= i < out.Length ==> out[i] == if i % k == w then Answer(o, i) else old(out[i])
  {
    var part := TakePart(w, k, out.Length);
    PartAscends(w, k, out.Length);
    var handed := Handed(part, o);
    PutBack(out, handed);
    forall i | 0 <= i < out.Length
      ensures out[i] == if i % k == w then Answer(o, i) else old(out[i])
    {
      PartsPartition(k, out.Length, i);
      if i % k == w {
        var a :| 0 <= a < |part| && part[a] == i;
        if !o.Died? {
          assert handed[a] == (i, Answer(o, i));
        }
      }
    }
  }

  /** Slot `i` holds the answer for target `i`, or nothing if its worker has none, in whatever order the
      workers' results come. */
  method FetchParallel<T>(n: nat, workers: nat, outcomes: seq<Outcome<T>>, order: seq<nat>)
    returns (out: array<Option<T>>)
    requires n > 0 ==> |outcomes| == Clamp(workers, n) && EachOnce(order, Clamp(workers, n))
    ensures out.Length == n
    ensures forall i :: 0 <= i < n ==> Clamp(workers, n) > 0 && out[i] == Answer(outcomes[i % Clamp(workers, n)], i)
  {
    out := new Option<T>[n](_ => None);
    if n == 0 {
      return;
    }
    var k := Clamp(workers, n);
    for c := 0 to |order|
      invariant forall i :: 0 <= i < n ==> out[i] == if i % k in order[..c] then Answer(outcomes[i % k], i) else None
    {
      assert order[..c + 1] == order[..c] + [order[c]];
      assert order[c] !in order[..c];
      PutBackPart(out, order[c], k, outcomes[order[c]]);
    }
    forall i | 0 <= i < n
      ensures i % k in order[..|order|]
    {
      assert order[..|order|] == order && i % k < k;
    }
  }

  // Fetching texts

  /** What a request for one chunk of hashes brought before it ended or failed. */
  datatype Reply = Reply(texts: Texts, ok: bool)

  /** All chunks of a part were answered. */
  ghost predicate Answered(replies: seq<Reply>, w: nat, k: nat)
    requires k > 0
  {
    forall c :: 0 <= c < |replies| && c % k == w ==> replies[c].ok
  }

  ghost predicate InReply(reply: Reply, item: Item) {
    item.0 in reply.texts && reply.texts[item.0] == item.1
  }

  /** The item is a text of one of the chunks of the part. */
  ghost predicate FromPart(replies: seq<Reply>, w: nat, k: nat, item: Item)
    requires k > 0
  {
    exists c :: 0 <= c < |replies| && c % k == w && InReply(replies[c], item)
  }

  ghost predicate Given(items: seq<Item>, key: Key) {
    exists a :: 0 <= a < |items| && items[a].0 == key
  }

  /** A worker asks for its chunks into a cache of its own, and has nothing to show if one fails. */
  method Gather(replies: seq<Reply>, w: nat, k: nat) returns (local: Option<Texts>)
    requires w < k
    ensures local.Some? <==> Answered(replies, w, k)
    ensures local.Some? ==> forall key :: key in local.value ==> FromPart(replies, w, k, (key, local.value[key]))
    ensures local.Some? ==>
              forall c, key :: 0 <= c < |replies| && c % k == w && key in replies[c].texts ==> key in local.value
  {
    var part := TakePart(w, k, |replies|);
    PartIs(w, k, |replies|);
    assert forall b :: 0 <= b < |part| ==> part[b] < |replies| && part[b] % k == w;
    var texts: Texts := map[];
    for a := 0 to |part|
      invariant forall b :: 0 <= b < a ==> replies[part[b]].ok
      invariant forall key :: key in texts ==> FromPart(replies, w, k, (key, texts[key]))
      invariant forall b, key :: 0 <= b < a && key in replies[part[b]].texts ==> key in texts
    {
      if !replies[part[a]].ok {
        return None;
      }
      ghost var had := texts;
      texts := texts + replies[part[a]].texts;
      forall key | key in texts
        ensures FromPart(replies, w, k, (key, texts[key]))
      {
        if key in replies[part[a]].texts {
          assert InReply(replies[part[a]], (key, texts[key]));
        } else {
          assert FromPart(replies, w, k, (key, had[key]));
        }
      }
    }
    local := Some(texts);
    forall c | 0 <= c < |replies| && c % k == w
      ensures exists b :: 0 <= b < |part| && part[b] == c
    {
      assert c in part;
    }
  }

  lemma PartIs(w: nat, k: nat, n: nat)
    requires w < k
    ensures forall c :: 0 <= c < n ==> (c in Part(w, k, n) <==> c % k == w)
    ensures forall a :: 0 <= a < |Part(w, k, n)| ==> Part(w, k, n)[a] < n && Part(w, k, n)[a] % k == w
  {
    PartAscends(w, k, n);
    forall c | 0 <= c < n
      ensures c in Part(w, k, n) <==> c % k == w
    {
      PartsPartition(k, n, c);
    }
    forall a | 0 <= a < |Part(w, k, n)|
      ensures Part(w, k, n)[a] % k == w
    {
      assert Part(w, k, n)[a] in Part(w, k, n);
    }
  }

  lemma GivenSnoc(items: seq<Item>, item: Item)
    ensures Given(items + [item], item.0) && forall key :: Given(items, key) ==> Given(items + [item], key)
  {
    assert (items + [item])[|items|] == item;
    forall key | Given(items, key)
      ensures Given(items + [item], key)
    {
      var a :| 0 <= a < |items| && items[a].0 == key;
      assert (items + [item])[a].0 == key;
    }
  }

  /** Inserts texts in whatever order the map gives them. */
  method InsertTexts(cache: TextCache, texts: Texts) returns (ghost items: seq<Item>)
    modifies cache`inner, cache`pending
    ensures cache.inner == Apply(old(cache.inner), items)
    ensures cache.pending == if cache.store == null then old(cache.pending) else old(cache.pending) + items
    ensures forall a :: 0 <= a < |items| ==> items[a].0 in texts && texts[items[a].0] == items[a].1
    ensures forall key :: key in texts ==> Given(items, key)
  {
    hide Given;
    var todo := texts;
    items := [];
    while |todo| > 0
      invariant todo.Keys <= texts.Keys && forall key :: key in todo ==> todo[key] == texts[key]
      invariant cache.inner == Apply(old(cache.inner), items)
      invariant cache.pending == if cache.store == null then old(cache.pending) else old(cache.pending) + items
      invariant forall a :: 0 <= a < |items| ==> items[a].0 in texts && texts[items[a].0] == items[a].1
      invariant forall key :: key in texts && key !in todo ==> Given(items, key)
      decreases |todo|
    {
      var key :| key in todo;
      cache.Insert(key, todo[key]);
      ghost var more := items + [(key, todo[key])];
      assert more[..|items|] == items;
      GivenSnoc(items, (key, todo[key]));
      items := more;
      ghost var had := todo;
      todo := todo - {key};
      assert had == todo[key := had[key]];
    }
  }

  /** Chunk `c` counts: a single chunk is taken as far as it came, one of several only if all chunks of its
      worker were answered. */
  ghost predicate Counts(replies: seq<Reply>, workers: nat, c: nat)
    requires c < |replies|
  {
    |replies| == 1 || Answered(replies, c % Clamp(workers, |replies|), Clamp(workers, |replies|))
  }

  /** The item is a text of a chunk that counts. */
  ghost predicate FromCounted(replies: seq<Reply>, workers: nat, item: Item) {
    exists c :: 0 <= c < |replies| && Counts(replies, workers, c) && InReply(replies[c], item)
  }

  /** The texts that count of the first `w` of `k` workers are among the items. */
  ghost predicate Taken(replies: seq<Reply>, k: nat, w: nat, items: seq<Item>)
    requires k > 0
  {
    forall c, key :: 0 <= c < |replies| && c % k < w && Answered(replies, c % k, k) && key in replies[c].texts ==>
      Given(items, key)
  }

  lemma TakeOneMore(replies: seq<Reply>, k: nat, w: nat, items: seq<Item>, more: seq<Item>)
    requires w < k && Taken(replies, k, w, items)
    requires Answered(replies, w, k) ==>
               forall c, key :: 0 <= c < |replies| && c % k == w && key in replies[c].texts ==> Given(more, key)
    ensures Taken(replies, k, w + 1, items + more)
  {
    GivenConcat(items, more);
  }

  lemma PartCounts(replies: seq<Reply>, workers: nat, w: nat, texts: Texts, more: seq<Item>)
    requires |replies| > 1 && Answered(replies, w, Clamp(workers, |replies|))
    requires forall key :: key in texts ==> FromPart(replies, w, Clamp(workers, |replies|), (key, texts[key]))
    requires forall a :: 0 <= a < |more| ==> more[a].0 in texts && texts[more[a].0] == more[a].1
    ensures forall a :: 0 <= a < |more| ==> FromCounted(replies, workers, more[a])
  {
    forall a | 0 <= a < |more|
      ensures FromCounted(replies, workers, more[a])
    {
      var k := Clamp(workers, |replies|);
      var key := more[a].0;
      assert FromPart(replies, w, k, (key, texts[key]));
      var c :| 0 <= c < |replies| && c % k == w && InReply(replies[c], (key, texts[key]));
      assert Counts(replies, workers, c);
    }
  }

  method FetchChunks(cache: TextCache, workers: nat, replies: seq<Reply>) returns (ok: bool, ghost items: seq<Item>)
    requires |replies| > 1
    modifies cache`inner, cache`pending
    ensures ok <==> forall c :: 0 <= c < |replies| ==> replies[c].ok
    ensures cache.inner == Apply(old(cache.inner), items)
    ensures cache.pending == if cache.store == null then old(cache.pending) else old(cache.pending) + items
    ensures forall a :: 0 <= a < |items| ==> FromCounted(replies, workers, items[a])
    ensures forall c, key :: 0 <= c < |replies| && Counts(replies, workers, c) && key in replies[c].texts ==> Given(items, key)
  {
    hide Given, FromCounted, FromPart, Taken, Answered, Counts;
    var k := Clamp(workers, |replies|);
    ok, items := true, [];
    TakenNone(replies, k);
    for w := 0 to k
      invariant ok <==> forall v :: 0 <= v < w ==> Answered(replies, v, k)
      invariant cache.inner == Apply(old(cache.inner), items)
      invariant cache.pending == if cache.store == null then old(cache.pending) else old(cache.pending) + items
      invariant forall a :: 0 <= a < |items| ==> FromCounted(replies, workers, items[a])
      invariant Taken(replies, k, w, items)
    {
      var local := Gather(replies, w, k);
      ghost var more := [];
      if local.Some? {
        more := InsertTexts(cache, local.value);
        PartCounts(replies, workers, w, local.value, more);
      } else {
        ok := false;
      }
      ApplyConcat(old(cache.inner), items, more);
      TakeOneMore(replies, k, w, items, more);
      items := items + more;
    }
    TakenAll(replies, workers, items);
    AllAnswered(replies, k);
  }

  lemma TakenNone(replies: seq<Reply>, k: nat)
    requires k > 0
    ensures Taken(replies, k, 0, [])
  {
  }

  lemma TakenAll(replies: seq<Reply>, workers: nat, items: seq<Item>)
    requires |replies| > 1 && Taken(replies, Clamp(workers, |replies|), Clamp(workers, |replies|), items)
    ensures forall c, key :: 0 <= c < |replies| && Counts(replies, workers, c) && key in replies[c].texts ==> Given(items, key)
  {
  }

  lemma AllAnswered(replies: seq<Reply>, k: nat)
    requires k > 0
    ensures (forall v :: 0 <= v < k ==> Answered(replies, v, k)) <==> forall c :: 0 <= c < |replies| ==> replies[c].ok
  {
    forall c | 0 <= c < |replies| && forall v :: 0 <= v < k ==> Answered(replies, v, k)
      ensures replies[c].ok
    {
      assert Answered(replies, c % k, k);
    }
  }

  lemma GivenConcat(a: seq<Item>, b: seq<Item>)
    ensures forall key :: Given(a, key) || Given(b, key) ==> Given(a + b, key)
  {
    forall key | Given(a, key) || Given(b, key)
      ensures Given(a + b, key)
    {
      if Given(a, key) {
        var i :| 0 <= i < |a| && a[i].0 == key;
        assert (a + b)[i].0 == key;
      } else {
        var i :| 0 <= i < |b| && b[i].0 == key;
        assert (a + b)[|a| + i].0 == key;
      }
    }
  }

  /** Fetches the texts of some hashes, chunk by chunk. Every text that counts comes into the memory and, if a
      disk is attached, onto it, behind whatever was still waiting; nothing else does. It succeeds exactly if
      every chunk was answered. */
  method FetchTexts(cache: TextCache, workers: nat, replies: seq<Reply>) returns (ok: bool, ghost items: seq<Item>)
    requires |replies| > 0
    modifies cache`inner, cache`pending, cache.store
    ensures ok <==> forall c :: 0 <= c < |replies| ==> replies[c].ok
    ensures cache.inner == Apply(old(cache.inner), items) && cache.pending == []
    ensures cache.store != null ==> cache.store.texts == Apply(old(cache.store.texts), old(cache.pending) + items)
    ensures forall a :: 0 <= a < |items| ==> FromCounted(replies, workers, items[a])
    ensures forall c, key :: 0 <= c < |replies| && Counts(replies, workers, c) && key in replies[c].texts ==> Given(items, key)
  {
    if |replies| == 1 {
      items := InsertTexts(cache, replies[0].texts);
      ok := replies[0].ok;
      assert forall a :: 0 <= a < |items| ==> InReply(replies[0], items[a]);
    } else {
      ok, items := FetchChunks(cache, workers, replies);
    }
    cache.Flush();
  }
}
