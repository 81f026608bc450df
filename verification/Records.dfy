/** Records with a fixed head and optional groups behind it. A group is present only when something is
    left to read, so a shorter record is an older one. */
module Records {
  import opened Wrappers
  import opened Bytes
  import opened Codec
  import opened Fields

  function Default(k: Kind): Field {
    match k
    case KText => TextField([])
    case KBoolean => Flag(false)
    case _ => Number(0)
  }

  function Defaults(ks: seq<Kind>): seq<Field> {
    seq(|ks|, i requires 0 <= i < |ks| => Default(ks[i]))
  }

  /** Reads the optional groups: a group is read when something is left, and has its defaults otherwise. */
  function GetGroups(gs: seq<seq<Kind>>, s: Data, got: seq<seq<Field>>): Parse<seq<seq<Field>>>
    requires AllKnown(gs)
  {
    if gs == [] then Ok((got, s))
    else if s == [] then GetGroups(gs[1..], s, got + [Defaults(gs[0])])
    else
      var (fs, r) :- GetFields(gs[0], s, []);
      GetGroups(gs[1..], r, got + [fs])
  }

  ghost predicate AllKnown(gs: seq<seq<Kind>>) {
    forall i :: 0 <= i < |gs| ==> KnownWidths(gs[i])
  }

  /** Reads the head and then the groups. */
  function GetRecord(ks: seq<Kind>, gs: seq<seq<Kind>>, s: Data): Parse<(seq<Field>, seq<seq<Field>>)>
    requires KnownWidths(ks) && AllKnown(gs)
  {
    var (h, r) :- GetFields(ks, s, []);
    var (g, rest) :- GetGroups(gs, r, []);
    Ok(((h, g), rest))
  }

  /** A record has as many fields as its layout says. */
  ghost predicate Shaped(ks: seq<Kind>, gs: seq<seq<Kind>>, h: seq<Field>, g: seq<seq<Field>>) {
    |h| == |ks| && |g| == |gs| && forall i :: 0 <= i < |gs| ==> |g[i]| == |gs[i]|
  }

  lemma {:induction false} FieldsCount(ks: seq<Kind>, s: Data, got: seq<Field>)
    requires KnownWidths(ks) && GetFields(ks, s, got).Ok?
    ensures |GetFields(ks, s, got).value.0| == |got| + |ks|
  {
    if ks == [] {
    } else {
      var (f, r) := GetField(ks[0], s).value;
      FieldsCount(ks[1..], r, got + [f]);
    }
  }

  lemma {:induction false} GroupsCount(gs: seq<seq<Kind>>, s: Data, got: seq<seq<Field>>, before: seq<seq<Kind>>)
    requires AllKnown(gs) && GetGroups(gs, s, got).Ok?
    requires |got| == |before| && forall i :: 0 <= i < |got| ==> |got[i]| == |before[i]|
    ensures var out := GetGroups(gs, s, got).value.0;
            |out| == |before + gs| && forall i :: 0 <= i < |out| ==> |out[i]| == |(before + gs)[i]|
  {
    if gs == [] {
      assert before + gs == before;
    } else {
      assert before + [gs[0]] + gs[1..] == before + gs;
      if s == [] {
        GroupsCount(gs[1..], s, got + [Defaults(gs[0])], before + [gs[0]]);
      } else {
        var (fs, r) := GetFields(gs[0], s, []).value;
        FieldsCount(gs[0], s, []);
        GroupsCount(gs[1..], r, got + [fs], before + [gs[0]]);
      }
    }
  }

  lemma RecordShape(ks: seq<Kind>, gs: seq<seq<Kind>>, s: Data)
    requires KnownWidths(ks) && AllKnown(gs) && GetRecord(ks, gs, s).Ok?
    ensures var (h, g) := GetRecord(ks, gs, s).value.0; Shaped(ks, gs, h, g)
  {
    FieldsCount(ks, s, []);
    GroupsCount(gs, GetFields(ks, s, []).value.1, [], []);
    assert [] + gs == gs;
  }

  // Writing

  function PutGroups(gs: seq<seq<Kind>>, fss: seq<seq<Field>>): Data
    requires WritableGroups(gs, fss)
  {
    if gs == [] then [] else PutFields(gs[0], fss[0]) + PutGroups(gs[1..], fss[1..])
  }

  predicate WritableGroups(gs: seq<seq<Kind>>, fss: seq<seq<Field>>) {
    |gs| == |fss| && forall i :: 0 <= i < |gs| ==> gs[i] != [] && AllWritable(gs[i], fss[i])
  }

  function DefaultGroups(gs: seq<seq<Kind>>): seq<seq<Field>> {
    seq(|gs|, i requires 0 <= i < |gs| => Defaults(gs[i]))
  }

  /** A layout and values that fit it. */
  ghost predicate Laid(ks: seq<Kind>, fs: seq<Field>, gs: seq<seq<Kind>>, fss: seq<seq<Field>>) {
    && KnownWidths(ks) && AllKnown(gs)
    && ks != [] && AllWritable(ks, fs) && WritableGroups(gs, fss)
  }

  /** The record up to the end of its `g`-th group. */
  function PutRecord(ks: seq<Kind>, fs: seq<Field>, gs: seq<seq<Kind>>, fss: seq<seq<Field>>, g: nat): Data
    requires Laid(ks, fs, gs, fss) && g <= |gs|
  {
    PutFields(ks, fs) + PutGroups(gs[..g], fss[..g])
  }

  // Reading undoes writing

  lemma {:induction false} NothingLeft(gs: seq<seq<Kind>>, got: seq<seq<Field>>)
    requires AllKnown(gs)
    ensures GetGroups(gs, [], got) == Ok((got + DefaultGroups(gs), []))
  {
    if gs == [] {
      assert DefaultGroups(gs) == [] && got + [] == got;
    } else {
      NothingLeft(gs[1..], got + [Defaults(gs[0])]);
      assert DefaultGroups(gs) == [Defaults(gs[0])] + DefaultGroups(gs[1..]);
      assert got + [Defaults(gs[0])] + DefaultGroups(gs[1..]) == got + DefaultGroups(gs);
    }
  }

  lemma GroupWritten(ks: seq<Kind>, fs: seq<Field>, tail: Data)
    requires ks != [] && AllWritable(ks, fs)
    ensures GetFields(ks, PutFields(ks, fs) + tail, []) == Ok((fs, tail)) && PutFields(ks, fs) != []
  {
    FieldsRoundTrip(ks, fs, [], tail);
    FieldRoundTrip(ks[0], fs[0], []);
    assert [] + fs == fs;
  }

  lemma PutFirstGroup(gs: seq<seq<Kind>>, fss: seq<seq<Field>>, g: nat)
    requires WritableGroups(gs, fss) && 0 < g <= |gs|
    ensures WritableGroups(gs[1..], fss[1..])
    ensures PutGroups(gs[..g], fss[..g]) == PutFields(gs[0], fss[0]) + PutGroups(gs[1..][..g - 1], fss[1..][..g - 1])
  {
    assert gs[..g][1..] == gs[1..][..g - 1] && fss[..g][1..] == fss[1..][..g - 1];
  }

  lemma GroupsStep(gs: seq<seq<Kind>>, s: Data, fs: seq<Field>, r: Data, got: seq<seq<Field>>)
    requires gs != [] && s != [] && AllKnown(gs)
    requires GetFields(gs[0], s, []) == Ok((fs, r))
    ensures GetGroups(gs, s, got) == GetGroups(gs[1..], r, got + [fs])
  {
  }

  lemma PastFirstGroup(gs: seq<seq<Kind>>, fs: seq<Field>, r: Data, got: seq<seq<Field>>)
    requires AllKnown(gs) && gs != [] && gs[0] != [] && AllWritable(gs[0], fs)
    ensures GetGroups(gs, PutFields(gs[0], fs) + r, got) == GetGroups(gs[1..], r, got + [fs])
  {
    GroupWritten(gs[0], fs, r);
    GroupsStep(gs, PutFields(gs[0], fs) + r, fs, r, got);
  }

  /** The first `g` groups come back and the rest have their defaults; with all groups written anything
      may follow. */
  lemma {:induction false} GroupsRoundTrip(gs: seq<seq<Kind>>, fss: seq<seq<Field>>, g: nat, got: seq<seq<Field>>, tail: Data)
    requires WritableGroups(gs, fss) && g <= |gs| && AllKnown(gs)
    requires g == |gs| || tail == []
    ensures GetGroups(gs, PutGroups(gs[..g], fss[..g]) + tail, got) ==
            Ok((got + fss[..g] + DefaultGroups(gs[g..]), tail))
  {
    if g == 0 {
      NoGroupWritten(gs, fss, got, tail);
    } else {
      PutFirstGroup(gs, fss, g);
      var first, others := PutFields(gs[0], fss[0]), PutGroups(gs[1..][..g - 1], fss[1..][..g - 1]);
      var rest := others + tail;
      Regroup(first, others, tail);
      PastFirstGroup(gs, fss[0], rest, got);
      GroupsRoundTrip(gs[1..], fss[1..], g - 1, got + [fss[0]], tail);
      ShiftFirst(gs, fss, g, got);
    }
  }

  lemma ShiftFirst(gs: seq<seq<Kind>>, fss: seq<seq<Field>>, g: nat, got: seq<seq<Field>>)
    requires 0 < g <= |gs| == |fss|
    ensures got + [fss[0]] + fss[1..][..g - 1] + DefaultGroups(gs[1..][g - 1..]) == got + fss[..g] + DefaultGroups(gs[g..])
  {
    assert gs[1..][g - 1..] == gs[g..];
    assert got + [fss[0]] + fss[1..][..g - 1] == got + fss[..g];
  }

  lemma NoGroupWritten(gs: seq<seq<Kind>>, fss: seq<seq<Field>>, got: seq<seq<Field>>, tail: Data)
    requires WritableGroups(gs, fss) && AllKnown(gs)
    requires gs == [] || tail == []
    ensures GetGroups(gs, PutGroups(gs[..0], fss[..0]) + tail, got) == Ok((got + fss[..0] + DefaultGroups(gs[0..]), tail))
  {
    assert PutGroups(gs[..0], fss[..0]) + tail == tail && gs[0..] == gs && got + fss[..0] == got;
    if gs == [] {
      assert got + DefaultGroups(gs) == got;
    } else {
      NothingLeft(gs, got);
    }
  }

  lemma RecordRoundTrip(ks: seq<Kind>, fs: seq<Field>, gs: seq<seq<Kind>>, fss: seq<seq<Field>>, g: nat, tail: Data)
    requires Laid(ks, fs, gs, fss) && g <= |gs| && (g == |gs| || tail == [])
    ensures GetRecord(ks, gs, PutRecord(ks, fs, gs, fss, g) + tail) ==
            Ok(((fs, fss[..g] + DefaultGroups(gs[g..])), tail))
  {
    var head, r := PutFields(ks, fs), PutGroups(gs[..g], fss[..g]) + tail;
    Regroup(head, PutGroups(gs[..g], fss[..g]), tail);
    GroupWritten(ks, fs, r);
    GroupsRoundTrip(gs, fss, g, [], tail);
    assert [] + fss[..g] == fss[..g];
  }

  // Cutting a record short

  /** Nothing or a number of whole groups is `k` bytes long. */
  ghost predicate AfterGroup(gs: seq<seq<Kind>>, fss: seq<seq<Field>>, k: nat)
    requires WritableGroups(gs, fss)
  {
    || k == 0
    || (gs != [] && k >= |PutFields(gs[0], fss[0])| && AfterGroup(gs[1..], fss[1..], k - |PutFields(gs[0], fss[0])|))
  }

  lemma {:induction false} WhichGroup(gs: seq<seq<Kind>>, fss: seq<seq<Field>>, k: nat) returns (g: nat)
    requires WritableGroups(gs, fss) && AfterGroup(gs, fss, k)
    ensures g <= |gs| && k == |PutGroups(gs[..g], fss[..g])|
  {
    if k == 0 {
      g := 0;
    } else {
      var others := WhichGroup(gs[1..], fss[1..], k - |PutFields(gs[0], fss[0])|);
      g := others + 1;
      PutFirstGroup(gs, fss, g);
    }
  }

  lemma SplitFirstGroup(gs: seq<seq<Kind>>, fss: seq<seq<Field>>)
    requires WritableGroups(gs, fss) && gs != []
    ensures WritableGroups(gs[1..], fss[1..]) && AllWritable(gs[0], fss[0]) && gs[0] != []
    ensures PutGroups(gs, fss) == PutFields(gs[0], fss[0]) + PutGroups(gs[1..], fss[1..])
  {
  }

  lemma BadFirstGroup(gs: seq<seq<Kind>>, s: Data, got: seq<seq<Field>>)
    requires gs != [] && s != [] && AllKnown(gs) && GetFields(gs[0], s, []).Err?
    ensures GetGroups(gs, s, got).Err?
  {
  }

  lemma CutInFirstGroup(gs: seq<seq<Kind>>, fs: seq<Field>, all: Data, rest: Data, k: nat, got: seq<seq<Field>>)
    requires AllKnown(gs) && gs != [] && AllWritable(gs[0], fs)
    requires all == PutFields(gs[0], fs) + rest && 0 < k < |PutFields(gs[0], fs)|
    ensures GetGroups(gs, all[..k], got).Err?
  {
    FieldsCut(gs[0], fs, k);
    CutFirst(PutFields(gs[0], fs), rest, k);
    BadFirstGroup(gs, all[..k], got);
  }

  lemma CutBehindFirstGroup(gs: seq<seq<Kind>>, fs: seq<Field>, rest: Data, j: nat, got: seq<seq<Field>>)
    requires AllKnown(gs) && gs != [] && gs[0] != [] && AllWritable(gs[0], fs) && j <= |rest|
    ensures GetGroups(gs, (PutFields(gs[0], fs) + rest)[..|PutFields(gs[0], fs)| + j], got) ==
            GetGroups(gs[1..], rest[..j], got + [fs])
  {
    hide *;
    PastFirstGroup(gs, fs, rest[..j], got);
    CutSecond(PutFields(gs[0], fs), rest, j);
  }

  lemma CutFacts(gs: seq<seq<Kind>>, fss: seq<seq<Field>>, k: nat)
    requires WritableGroups(gs, fss) && AllKnown(gs)
    requires k <= |PutGroups(gs, fss)| && !AfterGroup(gs, fss, k)
    ensures k > 0 && |gs| == |fss| > 0 && WritableGroups(gs[1..], fss[1..]) && AllKnown(gs[1..])
    ensures gs[0] != [] && AllWritable(gs[0], fss[0])
    ensures PutGroups(gs, fss) == PutFields(gs[0], fss[0]) + PutGroups(gs[1..], fss[1..])
    ensures var n := |PutFields(gs[0], fss[0])|;
            k >= n ==> k - n <= |PutGroups(gs[1..], fss[1..])| && !AfterGroup(gs[1..], fss[1..], k - n)
  {
    hide GetGroups, GetFields;
    SplitFirstGroup(gs, fss);
  }

  lemma {:induction false} GroupsCut(gs: seq<seq<Kind>>, fss: seq<seq<Field>>, k: nat, got: seq<seq<Field>>)
    requires WritableGroups(gs, fss) && AllKnown(gs)
    requires k <= |PutGroups(gs, fss)| && !AfterGroup(gs, fss, k)
    ensures GetGroups(gs, PutGroups(gs, fss)[..k], got).Err?
  {
    hide *;
    CutFacts(gs, fss, k);
    var all, rest := PutGroups(gs, fss), PutGroups(gs[1..], fss[1..]);
    var n := |PutFields(gs[0], fss[0])|;
    if k < n {
      CutInFirstGroup(gs, fss[0], all, rest, k, got);
    } else {
      var j := k - n;
      CutBehindFirstGroup(gs, fss[0], rest, j, got);
      GroupsCut(gs[1..], fss[1..], j, got + [fss[0]]);
    }
  }

  lemma {:induction false} GroupsPrefix(gs: seq<seq<Kind>>, fss: seq<seq<Field>>, g: nat)
    requires WritableGroups(gs, fss) && g <= |gs|
    ensures PutGroups(gs[..g], fss[..g]) <= PutGroups(gs, fss)
  {
    if g == 0 {
    } else {
      PutFirstGroup(gs, fss, g);
      SplitFirstGroup(gs, fss);
      GroupsPrefix(gs[1..], fss[1..], g - 1);
    }
  }

  /** A record of `k` bytes ends after its head or after one of its groups. */
  ghost predicate AtRecordEnd(ks: seq<Kind>, fs: seq<Field>, gs: seq<seq<Kind>>, fss: seq<seq<Field>>, k: nat)
    requires Laid(ks, fs, gs, fss)
  {
    k >= |PutFields(ks, fs)| && AfterGroup(gs, fss, k - |PutFields(ks, fs)|)
  }

  lemma WhichEnd(ks: seq<Kind>, fs: seq<Field>, gs: seq<seq<Kind>>, fss: seq<seq<Field>>, k: nat) returns (g: nat)
    requires Laid(ks, fs, gs, fss) && AtRecordEnd(ks, fs, gs, fss, k)
    ensures g <= |gs| && k == |PutRecord(ks, fs, gs, fss, g)|
  {
    g := WhichGroup(gs, fss, k - |PutFields(ks, fs)|);
  }

  lemma RecordPrefix(ks: seq<Kind>, fs: seq<Field>, gs: seq<seq<Kind>>, fss: seq<seq<Field>>, g: nat)
    requires Laid(ks, fs, gs, fss) && g <= |gs|
    ensures PutRecord(ks, fs, gs, fss, g) <= PutRecord(ks, fs, gs, fss, |gs|)
  {
    GroupsPrefix(gs, fss, g);
    assert gs[..|gs|] == gs && fss[..|fss|] == fss;
  }

  lemma BadGroups(ks: seq<Kind>, fs: seq<Field>, gs: seq<seq<Kind>>, r: Data)
    requires KnownWidths(ks) && AllKnown(gs) && ks != [] && AllWritable(ks, fs) && GetGroups(gs, r, []).Err?
    ensures GetRecord(ks, gs, PutFields(ks, fs) + r).Err?
  {
    GroupWritten(ks, fs, r);
  }

  lemma WholeRecord(ks: seq<Kind>, fs: seq<Field>, gs: seq<seq<Kind>>, fss: seq<seq<Field>>)
    requires Laid(ks, fs, gs, fss)
    ensures PutRecord(ks, fs, gs, fss, |gs|) == PutFields(ks, fs) + PutGroups(gs, fss)
  {
    assert gs[..|gs|] == gs && fss[..|fss|] == fss;
  }

  lemma HeadCut(ks: seq<Kind>, fs: seq<Field>, gs: seq<seq<Kind>>, all: Data, rest: Data, k: nat)
    requires KnownWidths(ks) && AllKnown(gs) && AllWritable(ks, fs)
    requires all == PutFields(ks, fs) + rest && k < |PutFields(ks, fs)|
    ensures GetRecord(ks, gs, all[..k]).Err?
  {
    FieldsCut(ks, fs, k);
    CutFirst(PutFields(ks, fs), rest, k);
  }

  lemma RestCut(ks: seq<Kind>, fs: seq<Field>, gs: seq<seq<Kind>>, all: Data, rest: Data, k: nat)
    requires KnownWidths(ks) && AllKnown(gs) && AllWritable(ks, fs) && ks != []
    requires all == PutFields(ks, fs) + rest && |PutFields(ks, fs)| <= k <= |all|
    requires GetGroups(gs, rest[..k - |PutFields(ks, fs)|], []).Err?
    ensures GetRecord(ks, gs, all[..k]).Err?
  {
    hide *;
    var j := k - |PutFields(ks, fs)|;
    BadGroups(ks, fs, gs, rest[..j]);
    CutSecond(PutFields(ks, fs), rest, j);
  }

  /** A record cut anywhere but after its head or one of its groups cannot be read. */
  lemma RecordCut(ks: seq<Kind>, fs: seq<Field>, gs: seq<seq<Kind>>, fss: seq<seq<Field>>, k: nat)
    requires Laid(ks, fs, gs, fss) && k <= |PutRecord(ks, fs, gs, fss, |gs|)| && !AtRecordEnd(ks, fs, gs, fss, k)
    ensures GetRecord(ks, gs, PutRecord(ks, fs, gs, fss, |gs|)[..k]).Err?
  {
    hide GetRecord, GetGroups, GetFields;
    WholeRecord(ks, fs, gs, fss);
    var n := |PutFields(ks, fs)|;
    if k < n {
      HeadCut(ks, fs, gs, PutRecord(ks, fs, gs, fss, |gs|), PutGroups(gs, fss), k);
    } else {
      GroupsCut(gs, fss, k - n, []);
      RestCut(ks, fs, gs, PutRecord(ks, fs, gs, fss, |gs|), PutGroups(gs, fss), k);
    }
  }

  // The writer and the reader of records

  lemma {:induction false} GroupsSnoc(gs: seq<seq<Kind>>, fss: seq<seq<Field>>, g: nat)
    requires WritableGroups(gs, fss) && g < |gs|
    ensures PutGroups(gs[..g + 1], fss[..g + 1]) == PutGroups(gs[..g], fss[..g]) + PutFields(gs[g], fss[g])
  {
    hide PutFields, AllWritable;
    PutFirstGroup(gs, fss, g + 1);
    if g == 0 {
      assert PutGroups(gs[1..][..0], fss[1..][..0]) == PutGroups(gs[..0], fss[..0]) == [];
      assert PutFields(gs[0], fss[0]) + [] == [] + PutFields(gs[0], fss[0]);
    } else {
      PutFirstGroup(gs, fss, g);
      GroupsSnoc(gs[1..], fss[1..], g - 1);
      Regroup(PutFields(gs[0], fss[0]), PutGroups(gs[1..][..g - 1], fss[1..][..g - 1]), PutFields(gs[g], fss[g]));
    }
  }

  method WriteRecord(w: ScouterWriter, ks: seq<Kind>, fs: seq<Field>, gs: seq<seq<Kind>>, fss: seq<seq<Field>>)
    requires Laid(ks, fs, gs, fss) && AllWritten(ks) && forall i :: 0 <= i < |gs| ==> AllWritten(gs[i])
    modifies w
    ensures w.buf == old(w.buf) + PutRecord(ks, fs, gs, fss, |gs|)
  {
    var start := w.buf;
    WriteFields(w, ks, fs);
    for g := 0 to |gs|
      invariant w.buf == start + PutRecord(ks, fs, gs, fss, g)
    {
      GroupsSnoc(gs, fss, g);
      Regroup(PutFields(ks, fs), PutGroups(gs[..g], fss[..g]), PutFields(gs[g], fss[g]));
      Regroup(start, PutRecord(ks, fs, gs, fss, g), PutFields(gs[g], fss[g]));
      WriteFields(w, gs[g], fss[g]);
    }
  }

  method ReadRecord(r: ScouterReader, ks: seq<Kind>, gs: seq<seq<Kind>>) returns (res: Result<(seq<Field>, seq<seq<Field>>)>)
    requires r.Valid() && KnownWidths(ks) && AllKnown(gs)
    modifies r
    ensures r.Valid() && Did(GetRecord(ks, gs, old(r.Rest())), res, r.Rest())
  {
    var h := ReadFields(r, ks);
    if h.Err? {
      return Err;
    }
    var groups: seq<seq<Field>> := [];
    ghost var all := GetGroups(gs, r.Rest(), []);
    for g := 0 to |gs|
      invariant r.Valid()
      invariant all == GetGroups(gs[g..], r.Rest(), groups)
    {
      assert gs[g..][0] == gs[g] && gs[g..][1..] == gs[g + 1..];
      var left := r.Remaining();
      if left > 0 {
        var fs := ReadFields(r, gs[g]);
        if fs.Err? {
          return Err;
        }
        groups := groups + [fs.value];
      } else {
        groups := groups + [Defaults(gs[g])];
      }
    }
    res := Ok((h.value, groups));
  }
}
