/** The texts behind hashes: a memory cache in front of the disk cache of the collector it is attached to. */
module Dictionary {
  import opened Wrappers

  type Key = (string, int)
  type Texts = map<Key, string>
  type Item = (Key, string)

  // What the operations mean

  /** `INSERT OR REPLACE`, one item after the other. */
  function Apply(d: Texts, items: seq<Item>): Texts {
    if items == [] then d else Apply(d, items[..|items| - 1])[items[|items| - 1].0 := items[|items| - 1].1]
  }

  /** A cache and the disk it is attached to. */
  datatype View = View(inner: Texts, pending: seq<Item>, disk: Option<Texts>)

  function Flushed(v: View): View {
    View(v.inner, [], if v.disk.Some? then Some(Apply(v.disk.value, v.pending)) else None)
  }

  function Inserted(v: View, key: Key, text: string): View {
    View(v.inner[key := text], if v.disk.Some? then v.pending + [(key, text)] else v.pending, v.disk)
  }

  /** The hashes, in order, that are not 0 and name no text of the kind among those given. */
  function Unknown(kind: string, hashes: seq<int>, known: Texts): seq<int> {
    if hashes == [] then []
    else
      var h := hashes[|hashes| - 1];
      Unknown(kind, hashes[..|hashes| - 1], known) + if h != 0 && (kind, h) !in known then [h] else []
  }

  /** The texts of a kind with one of the hashes. */
  function Found(d: Texts, kind: string, hashes: seq<int>): Texts {
    map k | k in d && k.0 == kind && k.1 in hashes :: d[k]
  }

  /** What is known to the memory or to the disk. Where both know a text, the memory's counts. */
  function Known(v: View): Texts {
    if v.disk.Some? then v.disk.value + v.inner else v.inner
  }

  /** The view after a lookup: what the disk knew of the hashes has come into the memory. */
  function Loaded(v: View, kind: string, hashes: seq<int>): View {
    if v.disk.Some? then v.(inner := v.inner + Found(v.disk.value, kind, Unknown(kind, hashes, v.inner))) else v
  }

  lemma {:induction false} UnknownMembers(kind: string, hashes: seq<int>, known: Texts)
    ensures forall h :: h in Unknown(kind, hashes, known) <==> h in hashes && h != 0 && (kind, h) !in known
  {
    if hashes == [] {
    } else {
      UnknownMembers(kind, hashes[..|hashes| - 1], known);
      assert hashes == hashes[..|hashes| - 1] + [hashes[|hashes| - 1]];
    }
  }

  lemma UnknownStep(kind: string, hashes: seq<int>, i: nat, known: Texts)
    requires i < |hashes|
    ensures Unknown(kind, hashes[..i + 1], known) ==
            Unknown(kind, hashes[..i], known) + if hashes[i] != 0 && (kind, hashes[i]) !in known then [hashes[i]] else []
  {
    assert hashes[..i + 1][..i] == hashes[..i];
  }

  /** Filtering by the memory and then by the disk is filtering by both. */
  lemma {:induction false} UnknownTwice(kind: string, hashes: seq<int>, a: Texts, b: Texts)
    ensures Unknown(kind, Unknown(kind, hashes, a), b) == Unknown(kind, hashes, b + a)
  {
    if hashes == [] {
    } else {
      var n := |hashes| - 1;
      UnknownTwice(kind, hashes[..n], a, b);
      var first := Unknown(kind, hashes[..n], a);
      if hashes[n] != 0 && (kind, hashes[n]) !in a {
        assert (first + [hashes[n]])[..|first|] == first;
      } else {
        assert first + [] == first;
      }
    }
  }

  // The classes

  /** The text table of a collector's cache file. */
  class TextStore {
    var texts: Texts

    method PutTexts(items: seq<Item>)
      modifies this
      ensures texts == Apply(old(texts), items)
    {
      for i := 0 to |items|
        invariant texts == Apply(old(texts), items[..i])
      {
        assert items[..i + 1][..i] == items[..i];
        texts := texts[items[i].0 := items[i].1];
      }
      assert items[..|items|] == items;
    }

    method Lookup(kind: string, hashes: seq<int>) returns (found: Texts)
      ensures found == Found(texts, kind, hashes)
    {
      found := map[];
      for i := 0 to |hashes|
        invariant found == Found(texts, kind, hashes[..i])
      {
        assert hashes[..i + 1] == hashes[..i] + [hashes[i]];
        if (kind, hashes[i]) in texts {
          found := found[(kind, hashes[i]) := texts[(kind, hashes[i])]];
        }
      }
      assert hashes[..|hashes|] == hashes;
    }
  }

  class TextCache {
    var inner: Texts
    var store: TextStore?
    var pending: seq<Item>

    constructor ()
      ensures Now() == View(map[], [], None)
    {
      inner, store, pending := map[], null, [];
    }

    function Now(): View
      reads this, store
    {
      View(inner, pending, if store == null then None else Some(store.texts))
    }

    method Flush()
      modifies this`pending, store
      ensures Now() == Flushed(old(Now()))
    {
      if pending == [] {
        return;
      }
      if store != null {
        store.PutTexts(pending);
      }
      pending := [];
    }

    /** Attaches another store, or none. What is waiting goes to the store it was meant for. */
    method Attach(other: TextStore?)
      modifies this`pending, this`store, store
      ensures store == other && pending == [] && inner == old(inner)
      ensures old(store) != null ==> old(store).texts == Apply(old(store.texts), old(pending))
    {
      Flush();
      store := other;
    }

    method Insert(key: Key, text: string)
      modifies this`inner, this`pending
      ensures Now() == Inserted(old(Now()), key, text)
    {
      if store != null {
        pending := pending + [(key, text)];
      }
      inner := inner[key := text];
    }

    /** The hashes to ask the collector for: exactly the non-zero ones known neither here nor on disk, in
        the order asked. All others can be read from the memory afterwards. */
    method Missing(kind: string, hashes: seq<int>) returns (rest: seq<int>)
      modifies this`inner
      ensures Now() == Loaded(old(Now()), kind, hashes)
      ensures rest == Unknown(kind, hashes, old(Known(Now())))
      ensures forall h :: h in hashes && h != 0 ==> (h !in rest <==> (kind, h) in inner)
      ensures forall k :: k in old(inner) ==> k in inner && inner[k] == old(inner)[k]
      ensures forall k :: k in inner && k !in old(inner) ==> store != null && k in store.texts && inner[k] == store.texts[k]
    {
      UnknownMembers(kind, hashes, inner);
      UnknownMembers(kind, hashes, Known(Now()));
      var memMiss := Filter(kind, hashes, inner);
      if store == null {
        return memMiss;
      }
      UnknownTwice(kind, hashes, inner, store.texts);
      if memMiss == [] {
        assert Found(store.texts, kind, []) == map[];
        assert inner + map[] == inner;
        return memMiss;
      }
      var found := store.Lookup(kind, memMiss);
      rest := Filter(kind, memMiss, found);
      SameMisses(kind, memMiss, store.texts);
      inner := inner + found;
    }
  }

  method Filter(kind: string, hashes: seq<int>, known: Texts) returns (out: seq<int>)
    ensures out == Unknown(kind, hashes, known)
  {
    out := [];
    for i := 0 to |hashes|
      invariant out == Unknown(kind, hashes[..i], known)
    {
      UnknownStep(kind, hashes, i, known);
      if hashes[i] != 0 && (kind, hashes[i]) !in known {
        out := out + [hashes[i]];
      }
    }
    assert hashes[..|hashes|] == hashes;
  }

  /** What was found among the hashes hides the same hashes as the whole table. */
  lemma SameMisses(kind: string, hashes: seq<int>, d: Texts)
    ensures Unknown(kind, hashes, Found(d, kind, hashes)) == Unknown(kind, hashes, d)
  {
    SameMissesUpTo(kind, hashes, |hashes|, d);
    assert hashes[..|hashes|] == hashes;
  }

  lemma {:induction false} SameMissesUpTo(kind: string, hashes: seq<int>, n: nat, d: Texts)
    requires n <= |hashes|
    ensures Unknown(kind, hashes[..n], Found(d, kind, hashes)) == Unknown(kind, hashes[..n], d)
  {
    if n == 0 {
    } else {
      SameMissesUpTo(kind, hashes, n - 1, d);
      UnknownStep(kind, hashes, n - 1, d);
      UnknownStep(kind, hashes, n - 1, Found(d, kind, hashes));
    }
  }

  // Whole runs over several collectors

  datatype Op =
    | Attach(to: Option<nat>)
    | Insert(key: Key, text: string)
    | Missing(kind: string, hashes: seq<int>)
    | Flush

  /** A cache and the disks of all collectors; `at` is the one it is attached to. */
  datatype World = World(inner: Texts, pending: seq<Item>, at: Option<nat>, disks: map<nat, Texts>)

  ghost predicate Sane(w: World) {
    && (w.at.Some? ==> w.at.value in w.disks)
    && (w.at.None? ==> w.pending == [])
  }

  function ViewOf(w: World): View
    requires w.at.Some? ==> w.at.value in w.disks
  {
    View(w.inner, w.pending, if w.at.Some? then Some(w.disks[w.at.value]) else None)
  }

  function Put(w: World, v: View): World {
    World(v.inner, v.pending, w.at,
          if w.at.Some? && v.disk.Some? then w.disks[w.at.value := v.disk.value] else w.disks)
  }

  function Step(w: World, op: Op): World
    requires w.at.Some? ==> w.at.value in w.disks
  {
    match op
    case Attach(to) => Put(w, Flushed(ViewOf(w))).(at := to)
    case Insert(key, text) => Put(w, Inserted(ViewOf(w), key, text))
    case Missing(kind, hashes) => Put(w, Loaded(ViewOf(w), kind, hashes))
    case Flush => Put(w, Flushed(ViewOf(w)))
  }

  /** Only known collectors are attached. */
  ghost predicate Attachable(ops: seq<Op>, w: World) {
    forall i :: 0 <= i < |ops| && ops[i].Attach? && ops[i].to.Some? ==> ops[i].to.value in w.disks
  }

  lemma StepKeepsDisks(w: World, op: Op)
    requires Sane(w) && (op.Attach? && op.to.Some? ==> op.to.value in w.disks)
    ensures Sane(Step(w, op)) && Step(w, op).disks.Keys == w.disks.Keys
  {
  }

  ghost function Run(w: World, ops: seq<Op>): (w': World)
    requires Sane(w) && Attachable(ops, w)
    ensures Sane(w') && w'.disks.Keys == w.disks.Keys
    decreases |ops|
  {
    if ops == [] then w
    else
      var before := Run(w, ops[..|ops| - 1]);
      StepKeepsDisks(before, ops[|ops| - 1]);
      Step(before, ops[|ops| - 1])
  }

  /** The collector attached after the operations. */
  function AtAfter(at: Option<nat>, ops: seq<Op>): Option<nat> {
    if ops == [] then at
    else if ops[|ops| - 1].Attach? then ops[|ops| - 1].to
    else AtAfter(at, ops[..|ops| - 1])
  }

  /** What was inserted while a collector was attached, in order. */
  function Meant(at: Option<nat>, ops: seq<Op>, id: nat): seq<Item> {
    if ops == [] then []
    else
      var n := |ops| - 1;
      Meant(at, ops[..n], id) +
      if ops[n].Insert? && AtAfter(at, ops[..n]) == Some(id) then [(ops[n].key, ops[n].text)] else []
  }

  function Waiting(w: World, id: nat): seq<Item> {
    if w.at == Some(id) then w.pending else []
  }

  /** Splitting what was meant for a disk into what it has received and what is waiting for it. */
  ghost predicate OnItsWay(d0: Texts, d: Texts, meant: seq<Item>, waiting: seq<Item>) {
    && |waiting| <= |meant| && waiting == meant[|meant| - |waiting|..]
    && d == Apply(d0, meant[..|meant| - |waiting|])
  }

  /** Over every run, a disk holds what it held at first and then, in order, what was inserted while it was
      attached, except for the last part of that which is still waiting, and nothing else. */
  lemma {:induction false} DiskReceivesItsOwn(w: World, ops: seq<Op>, id: nat)
    requires Sane(w) && w.pending == [] && Attachable(ops, w) && id in w.disks
    ensures var w' := Run(w, ops);
            && w'.at == AtAfter(w.at, ops)
            && OnItsWay(w.disks[id], w'.disks[id], Meant(w.at, ops, id), Waiting(w', id))
    decreases |ops|
  {
    if ops == [] {
      assert Apply(w.disks[id], []) == w.disks[id];
    } else {
      var n := |ops| - 1;
      DiskReceivesItsOwn(w, ops[..n], id);
      var u := Run(w, ops[..n]);
      StepOnItsWay(w.disks[id], u, ops[n], id, Meant(w.at, ops[..n], id));
    }
  }

  lemma StepOnItsWay(d0: Texts, u: World, op: Op, id: nat, meant: seq<Item>)
    requires Sane(u) && id in u.disks && OnItsWay(d0, u.disks[id], meant, Waiting(u, id))
    requires op.Attach? && op.to.Some? ==> op.to.value in u.disks
    ensures var u' := Step(u, op);
            var more := if op.Insert? && u.at == Some(id) then [(op.key, op.text)] else [];
            id in u'.disks && OnItsWay(d0, u'.disks[id], meant + more, Waiting(u', id))
  {
    var more := if op.Insert? && u.at == Some(id) then [(op.key, op.text)] else [];
    if op.Insert? || op.Missing? {
      KeepWaiting(d0, u.disks[id], meant, Waiting(u, id), more);
    } else {
      NothingWaits(d0, u.disks[id], meant, Waiting(u, id));
      assert meant + [] == meant;
    }
  }

  lemma KeepWaiting(d0: Texts, d: Texts, meant: seq<Item>, waiting: seq<Item>, more: seq<Item>)
    requires OnItsWay(d0, d, meant, waiting)
    ensures OnItsWay(d0, d, meant + more, waiting + more)
    ensures waiting + [] == waiting && meant + [] == meant
  {
    var n := |meant| - |waiting|;
    assert (meant + more)[..n] == meant[..n] && (meant + more)[n..] == meant[n..] + more;
  }

  lemma {:induction false} ApplyConcat(d: Texts, a: seq<Item>, b: seq<Item>)
    ensures Apply(Apply(d, a), b) == Apply(d, a + b)
  {
    if b == [] {
      assert a + b == a;
    } else {
      assert (a + b)[..|a + b| - 1] == a + b[..|b| - 1];
      ApplyConcat(d, a, b[..|b| - 1]);
    }
  }

  lemma NothingWaits(d0: Texts, d: Texts, meant: seq<Item>, waiting: seq<Item>)
    requires OnItsWay(d0, d, meant, waiting)
    ensures OnItsWay(d0, Apply(d, waiting), meant, [])
    ensures waiting == [] ==> Apply(d, waiting) == d
  {
    var n := |meant| - |waiting|;
    ApplyConcat(d0, meant[..n], waiting);
    assert meant[..n] + waiting == meant && meant[|meant|..] == [] && meant[..|meant|] == meant;
  }

  /** After a flush or a change of collector nothing is waiting: the disk holds all that was meant for it. */
  lemma FlushedDiskIsExact(w: World, ops: seq<Op>, id: nat)
    requires Sane(w) && w.pending == [] && Attachable(ops, w) && id in w.disks
    requires ops != [] && (ops[|ops| - 1].Flush? || ops[|ops| - 1].Attach?)
    ensures Run(w, ops).disks[id] == Apply(w.disks[id], Meant(w.at, ops, id))
  {
    DiskReceivesItsOwn(w, ops, id);
    var meant := Meant(w.at, ops, id);
    assert Waiting(Run(w, ops), id) == [] && meant[..|meant|] == meant;
  }

  /** The last text given for a key. */
  function LastText(items: seq<Item>, key: Key): Option<string> {
    if items == [] then None
    else if items[|items| - 1].0 == key then Some(items[|items| - 1].1)
    else LastText(items[..|items| - 1], key)
  }

  /** On disk the last text given for a key counts; keys never given keep what they had. */
  lemma {:induction false} LastTextCounts(d: Texts, items: seq<Item>, key: Key)
    ensures match LastText(items, key)
            case Some(t) => key in Apply(d, items) && Apply(d, items)[key] == t
            case None => (key in Apply(d, items) <==> key in d) && (key in d ==> Apply(d, items)[key] == d[key])
  {
    if items == [] {
    } else {
      LastTextCounts(d, items[..|items| - 1], key);
    }
  }

  /** So a key is on a flushed disk only if it was there at first or was inserted while that disk was
      attached, and with the last text inserted. */
  lemma FlushedDiskHoldsLastTexts(w: World, ops: seq<Op>, id: nat, key: Key)
    requires Sane(w) && w.pending == [] && Attachable(ops, w) && id in w.disks
    requires ops != [] && (ops[|ops| - 1].Flush? || ops[|ops| - 1].Attach?)
    ensures var d := Run(w, ops).disks[id];
            match LastText(Meant(w.at, ops, id), key)
            case Some(t) => key in d && d[key] == t
            case None => (key in d <==> key in w.disks[id]) && (key in d ==> d[key] == w.disks[id][key])
  {
    FlushedDiskIsExact(w, ops, id);
    LastTextCounts(w.disks[id], Meant(w.at, ops, id), key);
  }
}
