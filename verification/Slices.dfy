/** Cutting a window into local days and into slices that workers can share. */
module Slices {
  import opened Wrappers
  import opened Calendar

  datatype SortBy = Slowest | Latest

  datatype Piece = Piece(s: int, e: int)

  /** `date` is the collector's directory of the day, as a date. */
  datatype Slice = Slice(date: Date, stime: int, etime: int)

  /** The local day of an instant, and the directory key of that day. */
  function LocalDay(ms: int, tz: int): int {
    (ms + tz) / DAY_MS
  }

  function DateKey(ms: int, tz: int): Date {
    CivilFromDays(LocalDay(ms, tz))
  }

  /** The end of the day as `split_by_day` computes it: the division truncates toward zero. */
  function Boundary(cur: int, tz: int): int {
    (Quot(cur + tz, DAY_MS) + 1) * DAY_MS - tz
  }

  /** `pieces` tile `[s, e)`: non-empty, in order, no gap and no overlap. */
  ghost predicate Tiles(pieces: seq<Piece>, s: int, e: int) {
    && (forall i :: 0 <= i < |pieces| ==> pieces[i].s < pieces[i].e)
    && (forall i :: 0 <= i < |pieces| - 1 ==> pieces[i].e == pieces[i + 1].s)
    && (if pieces == [] then s >= e else pieces[0].s == s && pieces[|pieces| - 1].e == e)
  }

  /** All of `[p.s, p.e)` lies in one local day. */
  ghost predicate OneDay(p: Piece, tz: int) {
    LocalDay(p.s, tz) == LocalDay(p.e - 1, tz)
  }

  /** The window starts at or after the local epoch, or exactly at a local midnight, or ends before the
      next local midnight. */
  predicate DaysAlign(stime: int, etime: int, tz: int) {
    || stime + tz >= 0
    || (stime + tz) % DAY_MS == 0
    || etime + tz <= ((stime + tz) / DAY_MS + 1) * DAY_MS
  }

  ghost predicate AtMidnight(ms: int, tz: int) {
    (ms + tz) % DAY_MS == 0
  }

  lemma BoundaryAfter(cur: int, tz: int)
    ensures cur < Boundary(cur, tz)
    ensures cur + tz >= 0 || AtMidnight(cur, tz) ==> Boundary(cur, tz) + tz == ((cur + tz) / DAY_MS + 1) * DAY_MS
    ensures cur + tz < 0 && !AtMidnight(cur, tz) ==> Boundary(cur, tz) + tz == ((cur + tz) / DAY_MS + 2) * DAY_MS
    ensures AtMidnight(Boundary(cur, tz), tz)
  {
  }

  /** The piece that starts at `cur` of a window that ends at `etime`. */
  lemma NextPiece(cur: int, etime: int, tz: int, end: int)
    requires cur < etime && end == Min(Boundary(cur, tz), etime)
    ensures cur < end <= etime
    ensures end < etime ==> AtMidnight(end, tz)
    ensures OneDay(Piece(cur, end), tz) <==> DaysAlign(cur, etime, tz)
    ensures AtMidnight(cur, tz) ==> OneDay(Piece(cur, end), tz)
  {
    BoundaryAfter(cur, tz);
  }

  /** Cuts `[stime, etime)` at local midnights. The pieces always tile the window; each lies inside one
      local day if and only if the window aligns. */
  method SplitByDay(stime: int, etime: int, tz: int) returns (out: seq<Piece>)
    ensures Tiles(out, stime, Max(stime, etime)) && (out == [] <==> etime <= stime)
    ensures (forall i :: 0 <= i < |out| ==> OneDay(out[i], tz)) <==> etime <= stime || DaysAlign(stime, etime, tz)
    ensures forall i :: 0 <= i < |out| - 1 ==> AtMidnight(out[i].e, tz)
  {
    out := [];
    if etime <= stime {
      return;
    }
    var cur := stime;
    ghost var aligned := DaysAlign(stime, etime, tz);
    while cur < etime
      invariant stime <= cur <= etime && (out == [] <==> cur == stime)
      invariant Tiles(out, stime, cur)
      invariant out != [] && cur < etime ==> AtMidnight(cur, tz)
      invariant forall i :: 0 <= i < |out| - 1 ==> AtMidnight(out[i].e, tz)
      invariant out != [] ==> (OneDay(out[0], tz) <==> aligned)
      invariant forall i :: 1 <= i < |out| ==> OneDay(out[i], tz)
    {
      var boundary := Boundary(cur, tz);
      var end := Min(boundary, etime);
      NextPiece(cur, etime, tz, end);
      out := out + [Piece(cur, end)];
      cur := end;
    }
    assert out[0].s == stime;
  }

  function Reversed<T>(s: seq<T>): seq<T> {
    seq(|s|, i requires 0 <= i < |s| => s[|s| - 1 - i])
  }

  lemma ReverseIsExact<T>(s: seq<T>)
    ensures Reversed(Reversed(s)) == s
    ensures |Reversed(s)| == |s| && forall i :: 0 <= i < |s| ==> Reversed(s)[i] == s[|s| - 1 - i]
  {
  }

  /** The slices in time order: a "latest first" plan is the exact reverse. */
  function InTimeOrder(plan: seq<Slice>, sort: SortBy): seq<Slice> {
    if sort == Latest then Reversed(plan) else plan
  }

  ghost predicate TilesWindow(slices: seq<Slice>, s: int, e: int) {
    && (forall i :: 0 <= i < |slices| ==> slices[i].stime < slices[i].etime)
    && (forall i :: 0 <= i < |slices| - 1 ==> slices[i].etime == slices[i + 1].stime)
    && (if slices == [] then s >= e else slices[0].stime == s && slices[|slices| - 1].etime == e)
  }

  /** A slice is a full step, or shorter because the day or the window ends. */
  ghost predicate FullStep(sl: Slice, step: int, tz: int, etime: int) {
    && sl.etime - sl.stime <= step
    && (sl.etime - sl.stime == step || AtMidnight(sl.etime, tz) || sl.etime == etime)
  }

  /** A slice lies inside the local day whose key it carries. */
  ghost predicate InItsDay(sl: Slice, tz: int) {
    && sl.date == DateKey(sl.stime, tz)
    && LocalDay(sl.stime, tz) == LocalDay(sl.etime - 1, tz)
  }

  /** A plan in time order for `[s, upto)` of a window that ends at `etime`. */
  ghost predicate Plan(slices: seq<Slice>, s: int, upto: int, step: int, tz: int, etime: int) {
    && TilesWindow(slices, s, upto) && (slices == [] <==> upto == s)
    && forall i :: 0 <= i < |slices| ==> FullStep(slices[i], step, tz, etime)
  }

  ghost predicate Dated(slices: seq<Slice>, tz: int) {
    forall i :: 0 <= i < |slices| ==> InItsDay(slices[i], tz)
  }

  lemma AddSlice(slices: seq<Slice>, s: int, step: int, tz: int, etime: int, sl: Slice)
    requires Plan(slices, s, sl.stime, step, tz, etime)
    requires s <= sl.stime < sl.etime && FullStep(sl, step, tz, etime)
    ensures Plan(slices + [sl], s, sl.etime, step, tz, etime)
  {
  }

  /** Directory keys tell days apart. */
  lemma KeysApart(a: int, b: int, tz: int)
    requires DateKey(a, tz) == DateKey(b, tz)
    ensures LocalDay(a, tz) == LocalDay(b, tz)
  {
    DaysOfCivil(LocalDay(a, tz));
    DaysOfCivil(LocalDay(b, tz));
  }

  /** A slice that carries the key of the day its piece starts in is rightly dated exactly when it ends in
      that day. */
  lemma AddDated(slices: seq<Slice>, start: int, s: int, e: int, tz: int)
    requires start <= s < e
    ensures var sl := Slice(DateKey(start, tz), s, e);
            Dated(slices + [sl], tz) <==> Dated(slices, tz) && LocalDay(start, tz) == LocalDay(e - 1, tz)
  {
    var out := slices + [Slice(DateKey(start, tz), s, e)];
    assert LocalDay(start, tz) <= LocalDay(s, tz) <= LocalDay(e - 1, tz);
    if Dated(out, tz) {
      assert InItsDay(out[|slices|], tz);
      KeysApart(start, s, tz);
      assert forall i :: 0 <= i < |slices| ==> out[i] == slices[i];
    }
  }

  /** The slices of one day, appended to the plan. */
  method CutDay(plan: seq<Slice>, day: Piece, tz: int, step: int, ghost stime: int, ghost etime: int)
    returns (out: seq<Slice>)
    requires step > 0 && stime <= day.s < day.e && Plan(plan, stime, day.s, step, tz, etime)
    requires day.e == etime || AtMidnight(day.e, tz)
    ensures Plan(out, stime, day.e, step, tz, etime)
    ensures Dated(out, tz) <==> Dated(plan, tz) && OneDay(day, tz)
  {
    out := plan;
    var s := day.s;
    while s < day.e
      invariant day.s <= s <= day.e && Plan(out, stime, s, step, tz, etime)
      invariant Dated(out, tz) <==> Dated(plan, tz) && (s == day.s || LocalDay(day.s, tz) == LocalDay(s - 1, tz))
    {
      var e := Min(s + step, day.e);
      var sl := Slice(DateKey(day.s, tz), s, e);
      AddSlice(out, stime, step, tz, etime, sl);
      AddDated(out, day.s, s, e, tz);
      assert s == day.s || LocalDay(day.s, tz) <= LocalDay(s - 1, tz) <= LocalDay(e - 1, tz);
      out := out + [sl];
      s := e;
    }
  }

  lemma PieceOfTiling(days: seq<Piece>, stime: int, etime: int, i: nat)
    requires Tiles(days, stime, etime) && i < |days|
    ensures stime <= days[i].s && (i == 0 ==> days[i].s == stime) && (i > 0 ==> days[i].s == days[i - 1].e)
    ensures i == |days| - 1 ==> days[i].e == etime
  {
    if i > 0 {
      PieceOfTiling(days[..i], stime, days[i - 1].e, i - 1);
    }
  }

  method PlanForward(days: seq<Piece>, stime: int, etime: int, tz: int, step: int) returns (out: seq<Slice>)
    requires step > 0 && Tiles(days, stime, Max(stime, etime))
    requires forall i :: 0 <= i < |days| - 1 ==> AtMidnight(days[i].e, tz)
    ensures Plan(out, stime, Max(stime, etime), step, tz, etime)
    ensures Dated(out, tz) <==> forall i :: 0 <= i < |days| ==> OneDay(days[i], tz)
  {
    out := [];
    ghost var upto := stime;
    for i := 0 to |days|
      invariant upto == if i == 0 then stime else days[i - 1].e
      invariant stime <= upto && Plan(out, stime, upto, step, tz, etime)
      invariant Dated(out, tz) <==> forall k :: 0 <= k < i ==> OneDay(days[k], tz)
    {
      PieceOfTiling(days, stime, Max(stime, etime), i);
      out := CutDay(out, days[i], tz, step, stime, etime);
      upto := days[i].e;
    }
  }

  /** The slices of a window, in the order workers take them. In time order they tile the window, each
      at most `sliceMs` long; each lies inside one local day and carries its key if and only if the
      window aligns with local days. */
  method PlanSlices(stime: int, etime: int, tz: int, sliceMs: int, sort: SortBy) returns (out: seq<Slice>)
    ensures TilesWindow(InTimeOrder(out, sort), stime, Max(stime, etime))
    ensures forall i :: 0 <= i < |out| ==> FullStep(out[i], Max(sliceMs, 1), tz, etime)
    ensures Dated(out, tz) <==> etime <= stime || DaysAlign(stime, etime, tz)
  {
    var days := SplitByDay(stime, etime, tz);
    out := PlanForward(days, stime, etime, tz, Max(sliceMs, 1));
    if sort == Latest {
      ReverseIsExact(out);
      ReversedDated(out, tz);
      out := Reversed(out);
    }
  }

  lemma ReversedDated(slices: seq<Slice>, tz: int)
    ensures Dated(Reversed(slices), tz) <==> Dated(slices, tz)
  {
    forall i | 0 <= i < |slices|
      ensures Dated(Reversed(slices), tz) ==> InItsDay(slices[i], tz)
      ensures Dated(slices, tz) ==> InItsDay(Reversed(slices)[i], tz)
    {
      assert slices[i] == Reversed(slices)[|slices| - 1 - i];
    }
  }

  /** A window that does not align: it straddles the local epoch, its only piece has instants of two days,
      and a slice of it with instants of January 1st carries the key of December 31st. */
  lemma EpochWindowIsMisdated(tz: int)
    ensures var s, e := -1 - tz, 1 - tz;
            && !DaysAlign(s, e, tz) && Min(Boundary(s, tz), e) == e
            && DateKey(s, tz) == Date(1969, 12, 31) && DateKey(e - 1, tz) == Date(1970, 1, 1)
            && !InItsDay(Slice(DateKey(s, tz), s, e), tz)
  {
    hide CivilFromDays, Boundary;
    var s, e := -1 - tz, 1 - tz;
    assert s + tz == -1 && e - 1 + tz == 0;
    BoundaryAfter(s, tz);
    FirstDays();
  }

  lemma FirstDays()
    ensures CivilFromDays(-1) == Date(1969, 12, 31) && CivilFromDays(0) == Date(1970, 1, 1)
  {
    CivilOfDays(Date(1969, 12, 31), -1);
    CivilOfDays(Date(1970, 1, 1), 0);
  }

  /** A tiling reaches every instant of its window. */
  lemma TilingReaches(slices: seq<Slice>, s: int, e: int, t: int) returns (i: nat)
    requires TilesWindow(slices, s, e) && s <= t < e
    ensures i < |slices| && slices[i].stime <= t < slices[i].etime
  {
    i := |slices| - 1;
    while t < slices[i].stime
      invariant i < |slices| && t < slices[i].etime
    {
      i := i - 1;
    }
  }

  /** So does a plan, in whatever order its slices are taken, and its slices stay inside the window. */
  lemma PlanReaches(plan: seq<Slice>, sort: SortBy, s: int, e: int, t: int) returns (i: nat)
    requires TilesWindow(InTimeOrder(plan, sort), s, e) && s <= t < e
    ensures i < |plan| && plan[i].stime <= t < plan[i].etime
  {
    var k := TilingReaches(InTimeOrder(plan, sort), s, e, t);
    i := if sort == Latest then |plan| - 1 - k else k;
  }

  lemma SliceInside(slices: seq<Slice>, s: int, e: int, i: nat)
    requires TilesWindow(slices, s, e) && i < |slices|
    ensures s <= slices[i].stime < slices[i].etime <= e
  {
    var k := i;
    while k > 0
      invariant 0 <= k <= i && slices[k].stime <= slices[i].stime
    {
      assert slices[k - 1].etime == slices[k].stime;
      k := k - 1;
    }
    k := i;
    while k < |slices| - 1
      invariant i <= k < |slices| && slices[i].etime <= slices[k].etime
    {
      assert slices[k].etime == slices[k + 1].stime;
      k := k + 1;
    }
  }

  lemma PlanInside(plan: seq<Slice>, sort: SortBy, s: int, e: int, i: nat)
    requires TilesWindow(InTimeOrder(plan, sort), s, e) && i < |plan|
    ensures s <= plan[i].stime < plan[i].etime <= e
  {
    SliceInside(InTimeOrder(plan, sort), s, e, if sort == Latest then |plan| - 1 - i else i);
  }

  /** The slices of the days for which there are objects to ask for. */
  function Kept(plan: seq<Slice>, byDate: map<Date, seq<int>>): seq<Slice> {
    if plan == [] then []
    else
      var n := |plan| - 1;
      Kept(plan[..n], byDate) + if plan[n].date in byDate then [plan[n]] else []
  }

  lemma {:induction false} KeptExact(plan: seq<Slice>, byDate: map<Date, seq<int>>, sl: Slice)
    ensures sl in Kept(plan, byDate) <==> sl in plan && sl.date in byDate
  {
    if plan == [] {
    } else {
      var n := |plan| - 1;
      assert plan == plan[..n] + [plan[n]];
      KeptExact(plan[..n], byDate, sl);
    }
  }

  lemma KeyInside(sl: Slice, tz: int, t: int)
    requires InItsDay(sl, tz) && sl.stime <= t < sl.etime
    ensures DateKey(t, tz) == sl.date
  {
    assert LocalDay(sl.stime, tz) <= LocalDay(t, tz) <= LocalDay(sl.etime - 1, tz);
  }

  /** The range of the slices not scanned to the end. */
  function UnscannedRange(slices: seq<Slice>, done: seq<bool>): Option<(int, int)> {
    var n := Min(|slices|, |done|);
    if n == 0 then None
    else
      var front := UnscannedRange(slices[..n - 1], done[..n - 1]);
      var sl := slices[n - 1];
      if done[n - 1] then front
      else match front
        case None => Some((sl.stime, sl.etime))
        case Some((a, b)) => Some((Min(a, sl.stime), Max(b, sl.etime)))
  }

  /** It is the hull of the slices that are not done, and there is none exactly when all are. */
  lemma {:induction false} UnscannedIsHull(slices: seq<Slice>, done: seq<bool>)
    requires |slices| == |done|
    ensures UnscannedRange(slices, done).None? <==> forall i :: 0 <= i < |done| ==> done[i]
    ensures UnscannedRange(slices, done).Some? ==>
              var (a, b) := UnscannedRange(slices, done).value;
              && (forall i :: 0 <= i < |done| && !done[i] ==> a <= slices[i].stime && slices[i].etime <= b)
              && (exists i :: 0 <= i < |done| && !done[i] && slices[i].stime == a)
              && (exists i :: 0 <= i < |done| && !done[i] && slices[i].etime == b)
  {
    var n := |done|;
    if n == 0 {
    } else {
      UnscannedIsHull(slices[..n - 1], done[..n - 1]);
      var front := UnscannedRange(slices[..n - 1], done[..n - 1]);
      assert forall i :: 0 <= i < n - 1 ==> done[..n - 1][i] == done[i] && slices[..n - 1][i] == slices[i];
      if front.Some? {
        var (a, b) := front.value;
        var i :| 0 <= i < n - 1 && !done[..n - 1][i] && slices[..n - 1][i].stime == a;
        var j :| 0 <= j < n - 1 && !done[..n - 1][j] && slices[..n - 1][j].etime == b;
        assert !done[i] && slices[i].stime == a && !done[j] && slices[j].etime == b;
      }
    }
  }
}
