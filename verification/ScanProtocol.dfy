/** Several workers scanning the slices of one window over the shared cache.

    Each access to what the workers share (the slice counter, the set of seen txids, the counter of
    scanned rows, the collector, the flags) is one atomic step, and so is each call of the cache; the
    steps of the workers, of other users of the cache, of the clock and of the collector interleave
    freely. The slice number is the number of its reader in `CacheProtocol`. */
module ScanProtocol {
  import opened Wrappers
  import opened Rows
  import opened PastPage
  import opened StableSort
  import opened Calendar
  import CP = CacheProtocol
  import Slices
  import Digest

  const MAX_PAGES := 200

  /** What a scan is about: what the collector holds when the scan begins and all that it comes to hold,
      the slices, the objects asked for in each slice, the page size, the row condition, and the limit on
      scanned rows. */
  datatype Job = Job(first: set<Row>, coll: set<Row>, slices: seq<Slices.Slice>, hashes: seq<seq<int>>,
                     pageCount: int, matches: Row -> bool, maxRows: nat)

  ghost predicate ValidJob(job: Job) {
    UniqueTxids(job.coll) && job.first <= job.coll && |job.hashes| == |job.slices|
  }

  /** The rows a slice is about. Both ends count, so neighbours share their boundary. */
  ghost function Want(job: Job, i: nat): set<Row>
    requires ValidJob(job) && i < |job.slices|
  {
    Wanted(job.coll, job.hashes[i], job.slices[i].stime, job.slices[i].etime)
  }

  ghost predicate InWindow(job: Job, r: Row)
    requires ValidJob(job)
  {
    exists i :: 0 <= i < |job.slices| && r in Want(job, i)
  }

  datatype Phase =
    | Top                                                   // about to look at the stop flag
    | Claiming                                              // about to take the next slice number
    | Opening(i: nat)                                       // about to read the seal for slice i
    | Reading(i: nat, k: nat)                               // in the calls of page k of slice i
    | Deduping(i: nat, k: nat, page: Page)                  // has the page
    | Counting(i: nat, k: nat, page: Page, unseen: seq<Row>)  // has the rows nobody saw before
    | Matching(i: nat, k: nat, page: Page, unseen: seq<Row>)  // has counted them
    | Judging(i: nat, k: nat, page: Page)                   // has handed the matches over
    | Closing(i: nat)                                       // slice finished, about to say so
    | Bailing                                               // slice left because of the limit
    | Checking                                              // about to compare with the limit
    | Exited

  /** `counted` and `gaveUp` are history: the rows counted so far, and whether the page guard ever
      ended a slice. */
  datatype Scan = Scan(cache: CP.Sys, next: nat, stop: bool, failed: bool, seen: set<int>, scanned: nat,
                       collected: seq<Row>, done: seq<bool>, workers: map<nat, Phase>, counted: set<Row>, gaveUp: bool)

  /** A call of the cache is a step of `CacheProtocol`: `Call` within a page, `Fetch` when it turns the page,
      `Others` by anyone but the workers. */
  datatype Step =
    | Look(w: nat) | Claim(w: nat) | Open(w: nat) | Call(w: nat, c: CP.Step) | Fetch(w: nat, c: CP.Step) | Dedup(w: nat)
    | Count(w: nat) | Collect(w: nat) | Judge(w: nat) | Close(w: nat) | Check(w: nat) | Fail(w: nat) | Others(c: CP.Step)

  function Filter(p: Row -> bool, rows: seq<Row>): seq<Row> {
    if rows == [] then []
    else Filter(p, rows[..|rows| - 1]) + if p(rows[|rows| - 1]) then [rows[|rows| - 1]] else []
  }

  ghost predicate Init(job: Job, s: Scan) {
    && ValidJob(job) && s.workers != map[]
    && (forall w :: w in s.workers ==> s.workers[w] == Top)
    && s == Scan(s.cache, 0, false, false, {}, 0, [], seq(|job.slices|, _ => false), s.workers, {}, false)
    && CP.Inv(s.cache) && s.cache.coll == job.first
    && forall i :: i in s.cache.runs ==> i >= |job.slices|
  }

  function Put(s: Scan, w: nat, p: Phase): Scan {
    s.(workers := s.workers[w := p])
  }

  ghost predicate OfScan(job: Job, c: CP.Step) {
    exists i: nat :: i < |job.slices| && CP.OwnedBy(c, i)
  }

  /** Reading the seal of slice `i`: the run of its reader begins. */
  function Begins(job: Job, i: nat): CP.Step
    requires i < |job.slices| == |job.hashes|
  {
    CP.Begin(i, job.hashes[i], job.slices[i].stime, job.slices[i].etime, job.pageCount)
  }

  ghost predicate Enabled(job: Job, s: Scan, step: Step)
    requires ValidJob(job)
  {
    if step.Others? then
      !OfScan(job, step.c) && CP.Enabled(s.cache, step.c) && CP.Apply(s.cache, step.c).coll <= job.coll
    else
      && step.w in s.workers
      && var p := s.workers[step.w];
         match step
         case Look(_) => p == Top
         case Claim(_) => p == Claiming
         case Open(_) => p.Opening? && p.i < |job.slices| && CP.Enabled(s.cache, Begins(job, p.i))
         case Call(_, c) => p.Reading? && CP.OwnedBy(c, p.i) && CP.WithinPage(c) && CP.Enabled(s.cache, c)
         case Fetch(_, c) => p.Reading? && CP.OwnedBy(c, p.i) && (c.ReadCached? || c.Mark?) && CP.Enabled(s.cache, c)
         case Dedup(_) => p.Deduping?
         case Count(_) => p.Counting?
         case Collect(_) => p.Matching?
         case Judge(_) => p.Judging?
         case Close(_) => p.Closing? && p.i < |s.done|
         case Check(_) => p == Checking || p == Bailing
         case Fail(_) => p.Reading? || p.Matching?
  }

  ghost function Apply(job: Job, s: Scan, step: Step): Scan
    requires ValidJob(job) && Enabled(job, s, step)
  {
    if step.Others? then s.(cache := CP.Apply(s.cache, step.c))
    else
      var w, p := step.w, s.workers[step.w];
      match step
      case Look(_) => Put(s, w, if s.stop then Exited else Claiming)
      case Claim(_) => Put(s, w, if s.next < |job.slices| then Opening(s.next) else Exited).(next := s.next + 1)
      case Open(_) => Put(s, w, Reading(p.i, 0)).(cache := CP.Apply(s.cache, Begins(job, p.i)))
      case Call(_, c) => s.(cache := CP.Apply(s.cache, c))
      case Fetch(_, c) => Put(s, w, Deduping(p.i, p.k, CP.TurnedPage(s.cache, c))).(cache := CP.Apply(s.cache, c))
      case Dedup(_) =>
        Put(s, w, Counting(p.i, p.k, p.page, FreshRows(s.seen, p.page.rows))).(seen := s.seen + Txids(p.page.rows))
      case Count(_) =>
        Put(s, w, Matching(p.i, p.k, p.page, p.unseen))
          .(scanned := s.scanned + |p.unseen|, counted := s.counted + Elements(p.unseen))
      case Collect(_) => Put(s, w, Judging(p.i, p.k, p.page)).(collected := s.collected + Filter(job.matches, p.unseen))
      case Judge(_) =>
        if p.page.done then Put(s, w, Closing(p.i))
        else if s.scanned >= job.maxRows then Put(s, w, Bailing)
        else if p.k + 1 < MAX_PAGES then Put(s, w, Reading(p.i, p.k + 1))
        else Put(s, w, Checking).(gaveUp := true)
      case Close(_) => Put(s, w, Checking).(done := s.done[p.i := true])
      case Check(_) => Put(s, w, Top).(stop := s.stop || s.scanned >= job.maxRows)
      case Fail(_) => Put(s, w, Checking).(failed := true, stop := true)
  }

  ghost predicate Next(job: Job, s: Scan, step: Step, s': Scan)
    requires ValidJob(job)
  {
    Enabled(job, s, step) && s' == Apply(job, s, step)
  }

  /** What the step does to the cache. */
  function CacheStep(job: Job, s: Scan, step: Step): Option<CP.Step>
    requires |job.slices| == |job.hashes|
  {
    match step
    case Call(_, c) => Some(c)
    case Fetch(_, c) => Some(c)
    case Others(c) => Some(c)
    case Open(w) =>
      if w in s.workers && s.workers[w].Opening? && s.workers[w].i < |job.slices| then Some(Begins(job, s.workers[w].i)) else None
    case _ => None
  }

  // The slice a worker holds, and the rows it carries

  predicate HoldsSlice(p: Phase, i: nat) {
    match p
    case Opening(j) => i == j
    case Reading(j, _) => i == j
    case Deduping(j, _, _) => i == j
    case Counting(j, _, _, _) => i == j
    case Matching(j, _, _, _) => i == j
    case Judging(j, _, _) => i == j
    case Closing(j) => i == j
    case _ => false
  }

  function Pending(p: Phase): seq<Row> {
    if p.Counting? || p.Matching? then p.unseen else []
  }

  function Uncounted(p: Phase): set<Row> {
    if p.Counting? then Elements(p.unseen) else {}
  }

  // The invariant, in parts

  /** The readers of the slices are what the job says, and read what the collector held at the beginning. */
  ghost predicate CacheOk(job: Job, s: Scan)
    requires ValidJob(job)
  {
    && CP.Inv(s.cache) && job.first <= s.cache.coll <= job.coll
    && forall i :: i in s.cache.runs && i < |job.slices| ==> ReaderOf(job, i, s.cache.runs[i])
  }

  ghost predicate ReaderOf(job: Job, i: nat, r: CP.Run)
    requires ValidJob(job) && i < |job.slices|
  {
    && r.hashes == job.hashes[i] && r.stime == job.slices[i].stime && r.etime == job.slices[i].etime
    && r.pageCount == job.pageCount && job.first <= r.base
  }

  /** What the reader of the slice was given has been seen, but for the rows of a page not looked at yet; the
      reader has finished or not. */
  ghost predicate GotSeen(cache: CP.Sys, i: nat, seen: set<int>, rows: seq<Row>, finished: bool) {
    && i in cache.runs && (finished <==> cache.runs[i].phase == CP.Finished)
    && forall x :: x in cache.runs[i].got ==> x.txid in seen || x in rows
  }

  /** How far the slice a worker holds has been seen. */
  ghost predicate PhaseSeen(job: Job, cache: CP.Sys, seen: set<int>, p: Phase)
    requires ValidJob(job)
  {
    match p
    case Opening(i) => i < |job.slices|
    case Reading(i, _) => i < |job.slices| && GotSeen(cache, i, seen, [], false)
    case Deduping(i, _, page) =>
      && i < |job.slices| && GotSeen(cache, i, seen, page.rows, page.done)
      && forall x :: x in page.rows ==> x in Want(job, i)
    case Counting(i, _, page, _) => i < |job.slices| && GotSeen(cache, i, seen, [], page.done)
    case Matching(i, _, page, _) => i < |job.slices| && GotSeen(cache, i, seen, [], page.done)
    case Judging(i, _, page) => i < |job.slices| && GotSeen(cache, i, seen, [], page.done)
    case Closing(i) => i < |job.slices| && GotSeen(cache, i, seen, [], true)
    case _ => true
  }

  ghost predicate SeenInv(job: Job, s: Scan)
    requires ValidJob(job)
  {
    && |s.done| == |job.slices|
    && (forall w :: w in s.workers ==> PhaseSeen(job, s.cache, s.seen, s.workers[w]))
    && (forall i :: 0 <= i < |s.done| && s.done[i] ==> GotSeen(s.cache, i, s.seen, [], true))
  }

  ghost predicate DistinctTxids(rows: seq<Row>) {
    forall a, b :: 0 <= a < b < |rows| ==> rows[a].txid != rows[b].txid
  }

  /** A row lies in the collector or is carried by some worker. */
  ghost predicate Accounted(s: Scan, r: Row) {
    r in s.collected || exists w :: w in s.workers && r in Pending(s.workers[w])
  }

  ghost predicate CollectedOk(job: Job, s: Scan)
    requires ValidJob(job)
  {
    && DistinctTxids(s.collected)
    && forall r :: r in s.collected ==> InWindow(job, r) && job.matches(r) && r.txid in s.seen
  }

  /** Every row nobody saw before is carried by one worker or lies in the collector, once. */
  ghost predicate RowInv(job: Job, s: Scan)
    requires ValidJob(job)
  {
    && CollectedOk(job, s)
    && (forall w :: w in s.workers ==> Carries(job, s.seen, s.collected, s.workers[w]))
    && (forall v, w :: v in s.workers && w in s.workers && v != w ==>
                         Txids(Pending(s.workers[v])) !! Txids(Pending(s.workers[w])))
    && (!s.failed ==> forall r :: InWindow(job, r) && r.txid in s.seen && job.matches(r) ==> Accounted(s, r))
  }

  ghost predicate Carries(job: Job, seen: set<int>, collected: seq<Row>, p: Phase)
    requires ValidJob(job)
  {
    && DistinctTxids(Pending(p)) && Txids(Pending(p)) !! Txids(collected)
    && (forall r :: r in Pending(p) ==> InWindow(job, r) && r.txid in seen)
    && (p.Deduping? ==> forall r :: r in p.page.rows ==> InWindow(job, r))
  }

  /** Every row of the window that has been seen is counted or about to be. */
  ghost predicate CountInv(job: Job, s: Scan)
    requires ValidJob(job)
  {
    && s.scanned == |s.counted|
    && (forall r :: r in s.counted ==> InWindow(job, r) && r.txid in s.seen)
    && (forall w :: w in s.workers ==> Uncounted(s.workers[w]) !! s.counted)
    && (forall r :: InWindow(job, r) && r.txid in s.seen && r !in s.counted ==> AboutToCount(s, r))
  }

  ghost predicate AboutToCount(s: Scan, r: Row) {
    exists w :: w in s.workers && r in Uncounted(s.workers[w])
  }

  /** A slice is held by at most one worker, only after its number was given out and before it is done. */
  ghost predicate HeldInv(job: Job, s: Scan) {
    && |s.done| == |job.slices|
    && (forall w :: w in s.workers ==> HoldsOpen(s.next, s.done, s.workers[w]))
    && (forall v, w :: v in s.workers && w in s.workers && v != w ==> HoldApart(s.workers[v], s.workers[w]))
    && (forall i: nat :: i < |s.done| && s.done[i] ==> i < s.next)
  }

  ghost predicate HoldsOpen(next: nat, done: seq<bool>, p: Phase) {
    forall i: nat :: HoldsSlice(p, i) ==> i < next && i < |done| && !done[i]
  }

  ghost predicate HoldApart(p: Phase, q: Phase) {
    forall i: nat :: HoldsSlice(p, i) ==> !HoldsSlice(q, i)
  }

  /** A slice whose number was given out is held, or done, or was left for a reason that shows: the
      limit, a failure or the page guard. */
  ghost predicate LeftInv(job: Job, s: Scan) {
    && |s.done| == |job.slices| && s.workers != map[]
    && (forall i: nat :: i < s.next && i < |job.slices| && !s.stop && !s.gaveUp ==> Tended(s, i))
    && (forall w :: w in s.workers && s.workers[w] == Bailing ==> s.scanned >= job.maxRows)
    && (forall w :: w in s.workers && s.workers[w] == Exited && !s.stop ==> s.next >= |job.slices|)
    && (s.failed ==> s.stop)
  }

  ghost predicate Tended(s: Scan, i: nat) {
    || (i < |s.done| && s.done[i])
    || (exists w :: w in s.workers && HoldsSlice(s.workers[w], i))
    || (exists w :: w in s.workers && s.workers[w] == Bailing)
  }

  // Each step keeps each part

  lemma CacheStepOk(job: Job, s: Scan, step: Step, s': Scan)
    requires ValidJob(job) && Next(job, s, step, s')
    ensures match CacheStep(job, s, step)
            case Some(c) => CP.Next(s.cache, c, s'.cache)
            case None => s'.cache == s.cache
  {
  }

  lemma StepCache(job: Job, s: Scan, step: Step, s': Scan)
    requires ValidJob(job) && CacheOk(job, s) && Next(job, s, step, s')
    ensures CacheOk(job, s')
  {
    hide CP.Apply, CP.Enabled, CP.Inv;
    CacheStepOk(job, s, step, s');
    CollBound(job, s, step, s');
    match CacheStep(job, s, step)
    case Some(c) =>
      CP.NextKeeps(s.cache, c, s'.cache);
      forall i | i in s'.cache.runs && i < |job.slices|
        ensures ReaderOf(job, i, s'.cache.runs[i])
      {
        if i in s.cache.runs {
          CP.RunKeepsItsRange(s.cache, c, s'.cache, i);
        } else {
          NewReader(job, s, step, s', i);
        }
      }
    case None =>
  }

  lemma CollBound(job: Job, s: Scan, step: Step, s': Scan)
    requires ValidJob(job) && CacheOk(job, s) && Next(job, s, step, s')
    ensures job.first <= s'.cache.coll <= job.coll
  {
    CacheStepOk(job, s, step, s');
    if step.Open? || step.Call? || step.Fetch? {
      CP.OwnStepsKeepColl(s.cache, CacheStep(job, s, step).value, s'.cache, s.workers[step.w].i);
    } else if step.Others? {
      CP.CollGrows(s.cache, step.c, s'.cache);
    }
  }

  lemma NewReader(job: Job, s: Scan, step: Step, s': Scan, i: nat)
    requires ValidJob(job) && CacheOk(job, s) && Next(job, s, step, s') && i < |job.slices|
    requires i !in s.cache.runs && i in s'.cache.runs && CacheStep(job, s, step).Some?
    ensures ReaderOf(job, i, s'.cache.runs[i])
  {
    var c := CacheStep(job, s, step).value;
    CacheStepOk(job, s, step, s');
    CP.NewRunIsBegun(s.cache, c, s'.cache, i);
    OwnStepIsScans(job, s, step, i);
  }

  /** A slice whose reader does not move stays as far seen as it was. */
  lemma GotSeenStays(cache: CP.Sys, cache': CP.Sys, i: nat, seen: set<int>, seen': set<int>, rows: seq<Row>, finished: bool)
    requires GotSeen(cache, i, seen, rows, finished) && seen <= seen'
    requires i in cache'.runs && cache'.runs[i].got == cache.runs[i].got && cache'.runs[i].phase == cache.runs[i].phase
    ensures GotSeen(cache', i, seen', rows, finished)
  {
  }

  /** The readers that do not move. */
  ghost predicate Unmoved(cache: CP.Sys, cache': CP.Sys, i: nat) {
    i in cache.runs ==>
      i in cache'.runs && cache'.runs[i].got == cache.runs[i].got && cache'.runs[i].phase == cache.runs[i].phase
  }

  lemma SeenElsewhere(job: Job, s: Scan, w: nat, s': Scan)
    requires ValidJob(job) && SeenInv(job, s) && HeldInv(job, s) && w in s.workers && w in s'.workers
    requires s.seen <= s'.seen && |s'.done| == |s.done|
    requires s'.workers == s.workers[w := s'.workers[w]] && PhaseSeen(job, s'.cache, s'.seen, s'.workers[w])
    requires forall i: nat :: i in s.cache.runs && !HoldsSlice(s.workers[w], i) ==> Unmoved(s.cache, s'.cache, i)
    requires forall i: nat :: i < |s.done| && s'.done[i] && !s.done[i] ==>
               HoldsSlice(s.workers[w], i) && GotSeen(s'.cache, i, s'.seen, [], true)
    ensures SeenInv(job, s')
  {
    forall v | v in s'.workers
      ensures PhaseSeen(job, s'.cache, s'.seen, s'.workers[v])
    {
      if v != w {
        assert HoldApart(s.workers[v], s.workers[w]);
        PhaseSeenStays(job, s, s', s.workers[v]);
      }
    }
    forall i | 0 <= i < |s'.done| && s'.done[i]
      ensures GotSeen(s'.cache, i, s'.seen, [], true)
    {
      if s.done[i] {
        assert HoldsOpen(s.next, s.done, s.workers[w]);
        GotSeenStays(s.cache, s'.cache, i, s.seen, s'.seen, [], true);
      }
    }
  }

  lemma PhaseSeenStays(job: Job, s: Scan, s': Scan, p: Phase)
    requires ValidJob(job) && PhaseSeen(job, s.cache, s.seen, p) && s.seen <= s'.seen
    requires forall i: nat :: HoldsSlice(p, i) ==> Unmoved(s.cache, s'.cache, i)
    ensures PhaseSeen(job, s'.cache, s'.seen, p)
  {
    match p
    case Opening(_) =>
    case Reading(i, _) => assert HoldsSlice(p, i);
    case Deduping(i, _, _) => assert HoldsSlice(p, i);
    case Counting(i, _, _, _) => assert HoldsSlice(p, i);
    case Matching(i, _, _, _) => assert HoldsSlice(p, i);
    case Judging(i, _, _) => assert HoldsSlice(p, i);
    case Closing(i) => assert HoldsSlice(p, i);
    case _ =>
  }

  lemma OthersUnmoved(job: Job, s: Scan, step: Step, s': Scan, i: nat)
    requires ValidJob(job) && Next(job, s, step, s') && CacheStep(job, s, step).Some?
    requires !CP.OwnedBy(CacheStep(job, s, step).value, i)
    ensures Unmoved(s.cache, s'.cache, i)
  {
    CacheStepOk(job, s, step, s');
    if i in s.cache.runs {
      CP.OtherRunAged(s.cache, CacheStep(job, s, step).value, s'.cache, i);
    }
  }

  lemma OneOwner(c: CP.Step, i: nat, j: nat)
    requires CP.OwnedBy(c, i) && CP.OwnedBy(c, j)
    ensures i == j
  {
  }

  /** A step of a worker in its own reader. */
  lemma OwnCallSeen(job: Job, s: Scan, step: Step, s': Scan)
    requires ValidJob(job) && CacheOk(job, s) && SeenInv(job, s) && Next(job, s, step, s')
    requires step.Open? || step.Call? || step.Fetch?
    ensures PhaseSeen(job, s'.cache, s'.seen, s'.workers[step.w])
  {
    if step.Open? {
      OpenSeen(job, s, step, s');
    } else if step.Call? {
      CallSeen(job, s, step, s');
    } else {
      FetchSeen(job, s, step, s');
    }
  }

  lemma OpenSeen(job: Job, s: Scan, step: Step, s': Scan)
    requires ValidJob(job) && Next(job, s, step, s') && step.Open?
    ensures PhaseSeen(job, s'.cache, s'.seen, s'.workers[step.w])
  {
  }

  lemma CallSeen(job: Job, s: Scan, step: Step, s': Scan)
    requires ValidJob(job) && SeenInv(job, s) && Next(job, s, step, s') && step.Call?
    ensures PhaseSeen(job, s'.cache, s'.seen, s'.workers[step.w])
  {
    hide CP.Apply, CP.Enabled;
    assert PhaseSeen(job, s.cache, s.seen, s.workers[step.w]);
    CacheStepOk(job, s, step, s');
    CP.CallKeepsGot(s.cache, step.c, s'.cache, s.workers[step.w].i);
  }

  lemma FetchSeen(job: Job, s: Scan, step: Step, s': Scan)
    requires ValidJob(job) && CacheOk(job, s) && SeenInv(job, s) && Next(job, s, step, s') && step.Fetch?
    ensures PhaseSeen(job, s'.cache, s'.seen, s'.workers[step.w])
  {
    hide CP.Apply, CP.Enabled, CP.Inv, CP.TurnedPage;
    var p := s.workers[step.w];
    assert PhaseSeen(job, s.cache, s.seen, p);
    CacheStepOk(job, s, step, s');
    CP.TurnGives(s.cache, step.c, s'.cache, p.i);
    assert ReaderOf(job, p.i, s.cache.runs[p.i]);
    assert s'.workers[step.w] == Deduping(p.i, p.k, CP.TurnedPage(s.cache, step.c));
  }

  lemma OthersStepSeen(job: Job, s: Scan, step: Step, s': Scan)
    requires ValidJob(job) && SeenInv(job, s) && Next(job, s, step, s') && step.Others?
    ensures SeenInv(job, s')
  {
    hide CP.Apply, CP.Enabled, CP.Inv, CP.TurnedPage;
    forall i: nat | i < |job.slices|
      ensures Unmoved(s.cache, s'.cache, i)
    {
      OthersUnmoved(job, s, step, s', i);
    }
    OthersSeen(job, s, s');
  }

  /** A worker's call of the cache moves no reader but its own. */
  lemma OwnStepUnmoved(job: Job, s: Scan, step: Step, s': Scan, i: nat)
    requires ValidJob(job) && Next(job, s, step, s') && (step.Open? || step.Call? || step.Fetch?)
    requires !HoldsSlice(s.workers[step.w], i)
    ensures Unmoved(s.cache, s'.cache, i)
  {
    hide CP.Apply, CP.Enabled, CP.Inv, CP.TurnedPage;
    if !CP.OwnedBy(CacheStep(job, s, step).value, i) {
      OthersUnmoved(job, s, step, s', i);
    } else {
      OneOwner(CacheStep(job, s, step).value, i, s.workers[step.w].i);
      assert false;
    }
  }

  lemma OwnStepFrame(job: Job, s: Scan, step: Step, s': Scan)
    requires ValidJob(job) && Next(job, s, step, s') && (step.Open? || step.Call? || step.Fetch?)
    ensures step.w in s.workers && step.w in s'.workers && s'.workers == s.workers[step.w := s'.workers[step.w]]
    ensures s'.seen == s.seen && s'.done == s.done
  {
    hide CP.Apply, CP.Enabled, CP.Inv, CP.TurnedPage;
    assert step.Call? ==> s.workers == s.workers[step.w := s.workers[step.w]];
  }

  lemma OwnMoveFrame(job: Job, s: Scan, step: Step, s': Scan)
    requires ValidJob(job) && SeenInv(job, s) && Next(job, s, step, s') && CacheStep(job, s, step).None? && !step.Others?
    ensures step.w in s.workers && step.w in s'.workers && s'.workers == s.workers[step.w := s'.workers[step.w]]
    ensures |s'.done| == |s.done|
    ensures forall i: nat :: i < |s.done| && s'.done[i] && !s.done[i] ==>
              HoldsSlice(s.workers[step.w], i) && GotSeen(s'.cache, i, s'.seen, [], true)
  {
    hide CP.Apply, CP.Enabled, CP.Inv, CP.TurnedPage;
    hide OfScan, Filter, FreshRows, Elements, Txids, SeenInv, GotSeen;
    SeenOf(job, s, step.w);
    if step.Close? {
      CloseFrame(job, s, step, s');
    }
  }

  lemma CloseFrame(job: Job, s: Scan, step: Step, s': Scan)
    requires ValidJob(job) && Next(job, s, step, s') && step.Close? && PhaseSeen(job, s.cache, s.seen, s.workers[step.w])
    ensures |s'.done| == |s.done|
    ensures forall i: nat :: i < |s.done| && s'.done[i] && !s.done[i] ==>
              HoldsSlice(s.workers[step.w], i) && GotSeen(s'.cache, i, s'.seen, [], true)
  {
    hide GotSeen;
  }

  lemma StepSeen(job: Job, s: Scan, step: Step, s': Scan)
    requires ValidJob(job) && CacheOk(job, s) && SeenInv(job, s) && HeldInv(job, s) && Next(job, s, step, s')
    ensures SeenInv(job, s')
  {
    hide Enabled, Apply, CacheOk, SeenInv, HeldInv, PhaseSeen, HoldsSlice, GotSeen;
    if step.Others? {
      OthersStepSeen(job, s, step, s');
    } else if step.Open? || step.Call? || step.Fetch? {
      OwnStepFrame(job, s, step, s');
      OwnCallSeen(job, s, step, s');
      forall i: nat | i in s.cache.runs && !HoldsSlice(s.workers[step.w], i)
        ensures Unmoved(s.cache, s'.cache, i)
      {
        OwnStepUnmoved(job, s, step, s', i);
      }
      SeenElsewhere(job, s, step.w, s');
    } else {
      OwnMoveFrame(job, s, step, s');
      OwnMoveSeen(job, s, step, s');
      SeenElsewhere(job, s, step.w, s');
    }
  }

  lemma OthersSeen(job: Job, s: Scan, s': Scan)
    requires ValidJob(job) && SeenInv(job, s) && s' == s.(cache := s'.cache)
    requires forall i: nat :: i < |job.slices| ==> Unmoved(s.cache, s'.cache, i)
    ensures SeenInv(job, s')
  {
    forall w | w in s'.workers
      ensures PhaseSeen(job, s'.cache, s'.seen, s'.workers[w])
    {
      assert PhaseSeen(job, s.cache, s.seen, s.workers[w]);
      PhaseSeenStays(job, s, s', s.workers[w]);
    }
    forall i | 0 <= i < |s'.done| && s'.done[i]
      ensures GotSeen(s'.cache, i, s'.seen, [], true)
    {
      assert Unmoved(s.cache, s'.cache, i);
      GotSeenStays(s.cache, s'.cache, i, s.seen, s'.seen, [], true);
    }
  }

  /** A step of a worker that does not touch the cache. */
  lemma OwnMoveSeen(job: Job, s: Scan, step: Step, s': Scan)
    requires ValidJob(job) && SeenInv(job, s) && Next(job, s, step, s') && CacheStep(job, s, step).None? && !step.Others?
    ensures s'.cache == s.cache && s.seen <= s'.seen && PhaseSeen(job, s'.cache, s'.seen, s'.workers[step.w])
  {
    hide CP.Apply, CP.Enabled, CP.Inv, CP.TurnedPage;
    hide OfScan, Filter, FreshRows, Elements, GotSeen, SeenInv;
    SeenOf(job, s, step.w);
    if step.Dedup? {
      DedupSeen(job, s, step, s');
    }
  }

  lemma SeenOf(job: Job, s: Scan, w: nat)
    requires ValidJob(job) && SeenInv(job, s) && w in s.workers
    ensures PhaseSeen(job, s.cache, s.seen, s.workers[w])
  {
  }

  lemma DedupSeen(job: Job, s: Scan, step: Step, s': Scan)
    requires ValidJob(job) && Next(job, s, step, s') && step.Dedup?
    requires PhaseSeen(job, s.cache, s.seen, s.workers[step.w])
    ensures PhaseSeen(job, s'.cache, s'.seen, s'.workers[step.w])
  {
    hide FreshRows;
    var rows := s.workers[step.w].page.rows;
    assert forall x :: x in rows ==> x.txid in Txids(rows);
  }

  lemma {:induction false} FilterExact(p: Row -> bool, rows: seq<Row>)
    requires DistinctTxids(rows)
    ensures forall r :: r in Filter(p, rows) <==> r in rows && p(r)
    ensures DistinctTxids(Filter(p, rows))
  {
    if rows == [] {
    } else {
      var n := |rows| - 1;
      assert rows == rows[..n] + [rows[n]];
      FilterExact(p, rows[..n]);
      var front := Filter(p, rows[..n]);
      forall a | 0 <= a < |front|
        ensures front[a].txid != rows[n].txid
      {
        assert front[a] in rows[..n];
      }
    }
  }

  lemma SameTxidSameRow(job: Job, a: Row, b: Row)
    requires ValidJob(job) && InWindow(job, a) && InWindow(job, b) && a.txid == b.txid
    ensures a == b
  {
    var i :| 0 <= i < |job.slices| && a in Want(job, i);
    var j :| 0 <= j < |job.slices| && b in Want(job, j);
  }

  lemma StillAccounted(s: Scan, w: nat, s': Scan, r: Row)
    requires Accounted(s, r) && w in s.workers && w in s'.workers
    requires s'.workers == s.workers[w := s'.workers[w]] && s.collected <= s'.collected
    requires r in Pending(s.workers[w]) ==> r in Pending(s'.workers[w]) || r in s'.collected
    ensures Accounted(s', r)
  {
    if r !in s.collected {
      var v :| v in s.workers && r in Pending(s.workers[v]);
      assert v != w ==> r in Pending(s'.workers[v]);
      assert v == w ==> r in Pending(s'.workers[w]) || r in s'.collected;
    }
  }

  /** The rows a deduplication hands out are new to everyone. */
  lemma DedupRows(job: Job, s: Scan, w: nat, p': Phase, rows: seq<Row>, s': Scan)
    requires ValidJob(job) && RowInv(job, s) && w in s.workers && Pending(s.workers[w]) == []
    requires p'.Counting? && DistinctTxids(p'.unseen) && Txids(p'.unseen) == Txids(rows) - s.seen
    requires forall r :: r in p'.unseen ==> InWindow(job, r)
    requires s' == Put(s, w, p').(seen := s.seen + Txids(rows))
    ensures RowInv(job, s')
  {
    var unseen := p'.unseen;
    assert Carries(job, s'.seen, s'.collected, p') by {
      assert forall r :: r in unseen ==> r.txid in Txids(unseen);
      assert Txids(s.collected) <= s.seen;
    }
    forall v | v in s.workers && v != w
      ensures Txids(Pending(s.workers[v])) !! Txids(unseen) && Carries(job, s'.seen, s'.collected, s'.workers[v])
    {
      CarriesOnlySeen(job, s.seen, s'.seen, s.collected, s.workers[v]);
    }
    forall r | !s'.failed && InWindow(job, r) && r.txid in s'.seen && job.matches(r)
      ensures Accounted(s', r)
    {
      if r.txid in s.seen {
        StillAccounted(s, w, s', r);
      } else {
        UnseenAccounted(job, s', w, r);
      }
    }
  }

  lemma CarriesOnlySeen(job: Job, seen: set<int>, seen': set<int>, collected: seq<Row>, p: Phase)
    requires ValidJob(job) && Carries(job, seen, collected, p) && seen <= seen'
    ensures Txids(Pending(p)) <= seen && Carries(job, seen', collected, p)
  {
  }

  lemma UnseenAccounted(job: Job, s: Scan, w: nat, r: Row)
    requires ValidJob(job) && w in s.workers && InWindow(job, r) && r.txid in Txids(Pending(s.workers[w]))
    requires forall x :: x in Pending(s.workers[w]) ==> InWindow(job, x)
    ensures Accounted(s, r)
  {
    var x :| x in Pending(s.workers[w]) && x.txid == r.txid;
    SameTxidSameRow(job, x, r);
  }

  lemma CollectRows(job: Job, s: Scan, w: nat, p': Phase, s': Scan)
    requires ValidJob(job) && RowInv(job, s) && w in s.workers && Pending(p') == [] && !p'.Deduping?
    requires s' == Put(s, w, p').(collected := s.collected + Filter(job.matches, Pending(s.workers[w])))
    ensures RowInv(job, s')
  {
    var unseen := Pending(s.workers[w]);
    var mine := Filter(job.matches, unseen);
    assert Carries(job, s.seen, s.collected, s.workers[w]);
    FilterExact(job.matches, unseen);
    CollectedApart(s.collected, unseen, mine);
    assert Txids(mine) <= Txids(unseen);
    assert Txids(s'.collected) == Txids(s.collected) + Txids(mine);
    forall v | v in s'.workers
      ensures Carries(job, s'.seen, s'.collected, s'.workers[v])
    {
      if v != w {
        assert Carries(job, s.seen, s.collected, s.workers[v]);
      }
    }
    forall r | !s'.failed && InWindow(job, r) && r.txid in s'.seen && job.matches(r)
      ensures Accounted(s', r)
    {
      StillAccounted(s, w, s', r);
    }
  }

  lemma CollectedApart(had: seq<Row>, unseen: seq<Row>, mine: seq<Row>)
    requires DistinctTxids(had) && DistinctTxids(mine)
    requires Txids(unseen) !! Txids(had) && forall r :: r in mine ==> r in unseen
    ensures DistinctTxids(had + mine)
  {
    forall a, b | 0 <= a < b < |had + mine|
      ensures (had + mine)[a].txid != (had + mine)[b].txid
    {
      if a < |had| <= b {
        assert had[a].txid in Txids(had) && mine[b - |had|] in unseen;
      }
    }
  }

  /** A move of one worker that neither deduplicates nor collects leaves the rows where they are,
      unless the scan fails. */
  lemma OtherRows(job: Job, s: Scan, w: nat, s': Scan)
    requires ValidJob(job) && RowInv(job, s) && w in s.workers && w in s'.workers
    requires s'.workers == s.workers[w := s'.workers[w]] && s'.collected == s.collected && s'.seen == s.seen
    requires Pending(s'.workers[w]) == Pending(s.workers[w]) || (s'.failed && Pending(s'.workers[w]) == [])
    requires s.failed ==> s'.failed
    requires s'.workers[w].Deduping? ==> forall r :: r in s'.workers[w].page.rows ==> InWindow(job, r)
    ensures RowInv(job, s')
  {
    forall v | v in s'.workers
      ensures Carries(job, s'.seen, s'.collected, s'.workers[v])
    {
      assert Carries(job, s.seen, s.collected, s.workers[v]);
    }
    forall r | !s'.failed && InWindow(job, r) && r.txid in s'.seen && job.matches(r)
      ensures Accounted(s', r)
    {
      StillAccounted(s, w, s', r);
    }
  }

  lemma PageInWindow(job: Job, s: Scan, step: Step, s': Scan)
    requires ValidJob(job) && CacheOk(job, s) && SeenInv(job, s) && Next(job, s, step, s') && step.Fetch?
    ensures forall r :: r in s'.workers[step.w].page.rows ==> InWindow(job, r)
  {
    OwnCallSeen(job, s, step, s');
    var p := s'.workers[step.w];
    forall r | r in p.page.rows
      ensures InWindow(job, r)
    {
      assert r in Want(job, p.i);
    }
  }

  lemma InWindowInColl(job: Job)
    requires ValidJob(job)
    ensures forall r :: InWindow(job, r) ==> r in job.coll
  {
  }

  lemma SameRows(job: Job, s: Scan, s': Scan)
    requires ValidJob(job) && RowInv(job, s) && s' == s.(cache := s'.cache)
    ensures RowInv(job, s')
  {
    forall r | !s'.failed && InWindow(job, r) && r.txid in s'.seen && job.matches(r)
      ensures Accounted(s', r)
    {
      assert Accounted(s, r);
    }
  }

  lemma DedupStepRows(job: Job, s: Scan, w: nat, s': Scan)
    requires ValidJob(job) && RowInv(job, s) && Next(job, s, Dedup(w), s')
    ensures RowInv(job, s')
  {
    hide CP.Apply, CP.Enabled, CP.Inv, CP.TurnedPage;
    assert Carries(job, s.seen, s.collected, s.workers[w]);
    FreshRowsExact(s.seen, s.workers[w].page.rows);
    DedupRows(job, s, w, s'.workers[w], s.workers[w].page.rows, s');
  }

  lemma MoveRows(job: Job, s: Scan, step: Step, s': Scan)
    requires ValidJob(job) && CacheOk(job, s) && SeenInv(job, s) && RowInv(job, s) && Next(job, s, step, s')
    requires !step.Others? && !step.Dedup? && !step.Collect?
    ensures RowInv(job, s')
  {
    hide CP.Apply, CP.Enabled, CP.Inv, CP.TurnedPage;
    hide RowInv, SeenInv, CacheOk, FreshRows, Filter, Txids, Elements, OfScan;
    if step.Fetch? {
      PageInWindow(job, s, step, s');
    }
    OtherRows(job, s, step.w, s');
  }

  lemma StepRows(job: Job, s: Scan, step: Step, s': Scan)
    requires ValidJob(job) && CacheOk(job, s) && SeenInv(job, s) && RowInv(job, s) && Next(job, s, step, s')
    ensures RowInv(job, s')
  {
    hide CP.Apply, CP.Enabled, CP.Inv, CP.TurnedPage;
    if step.Others? {
      SameRows(job, s, s');
    } else if step.Dedup? {
      DedupStepRows(job, s, step.w, s');
    } else if step.Collect? {
      CollectRows(job, s, step.w, s'.workers[step.w], s');
    } else {
      MoveRows(job, s, step, s');
    }
  }

  lemma StillAboutToCount(s: Scan, w: nat, p': Phase, s': Scan, r: Row)
    requires AboutToCount(s, r) && w in s.workers && s'.workers == s.workers[w := p']
    requires r in Uncounted(s.workers[w]) ==> r in Uncounted(p')
    ensures AboutToCount(s', r)
  {
    var v :| v in s.workers && r in Uncounted(s.workers[v]);
    assert v in s'.workers && r in Uncounted(s'.workers[v]);
  }

  lemma DedupCounts(job: Job, s: Scan, w: nat, p': Phase, rows: seq<Row>, s': Scan)
    requires ValidJob(job) && CountInv(job, s) && w in s.workers && Uncounted(s.workers[w]) == {}
    requires p'.Counting? && Txids(p'.unseen) == Txids(rows) - s.seen
    requires forall r :: r in p'.unseen ==> InWindow(job, r)
    requires s' == Put(s, w, p').(seen := s.seen + Txids(rows))
    ensures CountInv(job, s')
  {
    assert forall r :: r in p'.unseen ==> r.txid in Txids(p'.unseen);
    forall r | InWindow(job, r) && r.txid in s'.seen && r !in s'.counted
      ensures AboutToCount(s', r)
    {
      if r.txid in s.seen {
        StillAboutToCount(s, w, p', s', r);
      } else {
        assert r.txid in Txids(p'.unseen);
        var x :| x in p'.unseen && x.txid == r.txid;
        SameTxidSameRow(job, x, r);
        assert r in Uncounted(s'.workers[w]);
      }
    }
  }

  lemma CountCounts(job: Job, s: Scan, w: nat, p': Phase, s': Scan)
    requires ValidJob(job) && CountInv(job, s) && w in s.workers && s.workers[w].Counting?
    requires var mine := s.workers[w].unseen;
             && DistinctTxids(mine) && (forall r :: r in mine ==> InWindow(job, r) && r.txid in s.seen)
             && (forall v :: v in s.workers && v != w ==> Uncounted(s.workers[v]) !! Elements(mine))
             && s' == Put(s, w, p').(scanned := s.scanned + |mine|, counted := s.counted + Elements(mine))
    requires Uncounted(p') == {}
    ensures CountInv(job, s')
  {
    var mine := s.workers[w].unseen;
    ElementsSize(mine);
    assert Uncounted(s.workers[w]) == Elements(mine);
    forall r | InWindow(job, r) && r.txid in s'.seen && r !in s'.counted
      ensures AboutToCount(s', r)
    {
      StillAboutToCount(s, w, p', s', r);
    }
  }

  lemma OtherCounts(job: Job, s: Scan, w: nat, p': Phase, s': Scan)
    requires ValidJob(job) && CountInv(job, s) && w in s.workers
    requires s'.workers == s.workers[w := p'] && Uncounted(p') == Uncounted(s.workers[w])
    requires s'.seen == s.seen && s'.scanned == s.scanned && s'.counted == s.counted
    ensures CountInv(job, s')
  {
    forall r | InWindow(job, r) && r.txid in s'.seen && r !in s'.counted
      ensures AboutToCount(s', r)
    {
      StillAboutToCount(s, w, p', s', r);
    }
  }

  lemma DedupStepCounts(job: Job, s: Scan, w: nat, s': Scan)
    requires ValidJob(job) && RowInv(job, s) && CountInv(job, s) && Next(job, s, Dedup(w), s')
    ensures CountInv(job, s')
  {
    hide CP.Apply, CP.Enabled, CP.Inv, CP.TurnedPage;
    var rows := s.workers[w].page.rows;
    assert Carries(job, s.seen, s.collected, s.workers[w]);
    FreshRowsExact(s.seen, rows);
    DedupCounts(job, s, w, s'.workers[w], rows, s');
  }

  lemma CountStepCounts(job: Job, s: Scan, w: nat, s': Scan)
    requires ValidJob(job) && RowInv(job, s) && CountInv(job, s) && Next(job, s, Count(w), s')
    ensures CountInv(job, s')
  {
    hide CP.Apply, CP.Enabled, CP.Inv, CP.TurnedPage;
    var mine := s.workers[w].unseen;
    assert Carries(job, s.seen, s.collected, s.workers[w]);
    forall v | v in s.workers && v != w
      ensures Uncounted(s.workers[v]) !! Elements(mine)
    {
      assert Txids(Pending(s.workers[v])) !! Txids(Pending(s.workers[w]));
      assert forall r :: r in mine ==> r.txid in Txids(mine);
      assert forall r :: r in Uncounted(s.workers[v]) ==> r.txid in Txids(Pending(s.workers[v]));
    }
    CountCounts(job, s, w, s'.workers[w], s');
  }

  lemma SameCounts(job: Job, s: Scan, s': Scan)
    requires ValidJob(job) && CountInv(job, s) && s' == s.(cache := s'.cache)
    ensures CountInv(job, s')
  {
    forall r | InWindow(job, r) && r.txid in s'.seen && r !in s'.counted
      ensures AboutToCount(s', r)
    {
      assert AboutToCount(s, r);
    }
  }

  lemma MoveCounts(job: Job, s: Scan, step: Step, s': Scan)
    requires ValidJob(job) && CountInv(job, s) && Next(job, s, step, s')
    requires !step.Others? && !step.Dedup? && !step.Count?
    ensures CountInv(job, s')
  {
    hide CP.Apply, CP.Enabled, CP.Inv, CP.TurnedPage;
    hide CountInv, FreshRows, Filter, Txids, OfScan, InWindow;
    OtherCounts(job, s, step.w, s'.workers[step.w], s');
  }

  lemma StepCounts(job: Job, s: Scan, step: Step, s': Scan)
    requires ValidJob(job) && RowInv(job, s) && CountInv(job, s) && Next(job, s, step, s')
    ensures CountInv(job, s')
  {
    hide *;
    if step.Others? {
      OthersKeepCounts(job, s, step, s');
    } else if step.Dedup? {
      DedupStepCounts(job, s, step.w, s');
    } else if step.Count? {
      CountStepCounts(job, s, step.w, s');
    } else {
      MoveCounts(job, s, step, s');
    }
  }

  lemma OthersKeepCounts(job: Job, s: Scan, step: Step, s': Scan)
    requires ValidJob(job) && CountInv(job, s) && Next(job, s, step, s') && step.Others?
    ensures CountInv(job, s')
  {
    hide CP.Apply, CP.Enabled, CP.Inv, CP.TurnedPage;
    SameCounts(job, s, s');
  }

  /** A worker that keeps its slice, lets it go, or takes the next number. */
  lemma HeldMoved(job: Job, s: Scan, w: nat, p': Phase, s': Scan)
    requires HeldInv(job, s) && w in s.workers && s'.workers == s.workers[w := p']
    requires s'.next >= s.next && |s'.done| == |s.done|
    requires forall i: nat :: HoldsSlice(p', i) ==>
               HoldsSlice(s.workers[w], i) || (i == s.next && i < s'.next && i < |job.slices|)
    requires forall i: nat :: i < |s.done| && s'.done[i] && !s.done[i] ==> HoldsSlice(s.workers[w], i) && !HoldsSlice(p', i)
    ensures HeldInv(job, s')
  {
    assert HoldsOpen(s.next, s.done, s.workers[w]);
    assert HoldsOpen(s'.next, s'.done, p');
    forall v | v in s.workers && v != w
      ensures HoldsOpen(s'.next, s'.done, s.workers[v])
      ensures HoldApart(s.workers[v], p') && HoldApart(p', s.workers[v])
    {
      assert HoldsOpen(s.next, s.done, s.workers[v]);
      assert HoldApart(s.workers[v], s.workers[w]);
    }
  }

  lemma LeftMoved(job: Job, s: Scan, w: nat, p': Phase, s': Scan)
    requires LeftInv(job, s) && w in s.workers && s'.workers == s.workers[w := p']
    requires s.scanned <= s'.scanned && (s.stop ==> s'.stop) && (s.gaveUp ==> s'.gaveUp) && (s'.failed ==> s'.stop)
    requires s.next <= s'.next && |s'.done| == |s.done| && forall i: nat :: i < |s.done| && s.done[i] ==> s'.done[i]
    requires forall i: nat :: s.next <= i < s'.next && i < |job.slices| ==> HoldsSlice(p', i)
    requires s'.stop || s'.gaveUp || p' == Bailing
             || forall i: nat :: HoldsSlice(s.workers[w], i) ==> HoldsSlice(p', i) || (i < |s'.done| && s'.done[i])
    requires s.workers[w] == Bailing ==> s'.stop
    requires p' == Bailing ==> s'.scanned >= job.maxRows
    requires p' == Exited && !s'.stop ==> s'.next >= |job.slices|
    ensures LeftInv(job, s')
  {
    assert w in s'.workers;
    forall i: nat | i < s'.next && i < |job.slices| && !s'.stop && !s'.gaveUp
      ensures Tended(s', i)
    {
      if i >= s.next {
        assert HoldsSlice(s'.workers[w], i);
      } else if p' == Bailing {
        assert s'.workers[w] == Bailing;
      } else {
        StillTended(s, w, p', s', i);
      }
    }
  }

  lemma StillTended(s: Scan, w: nat, p': Phase, s': Scan, i: nat)
    requires Tended(s, i) && w in s.workers && s'.workers == s.workers[w := p'] && s.workers[w] != Bailing
    requires HoldsSlice(s.workers[w], i) ==> HoldsSlice(p', i) || (i < |s'.done| && s'.done[i])
    requires |s'.done| == |s.done| && (i < |s.done| && s.done[i] ==> s'.done[i])
    ensures Tended(s', i)
  {
    if i < |s.done| && s.done[i] {
    } else if exists v :: v in s.workers && HoldsSlice(s.workers[v], i) {
      var v :| v in s.workers && HoldsSlice(s.workers[v], i);
      assert v in s'.workers && (v != w ==> HoldsSlice(s'.workers[v], i));
      assert v == w ==> HoldsSlice(s'.workers[w], i) || (i < |s'.done| && s'.done[i]);
    } else {
      var v :| v in s.workers && s.workers[v] == Bailing;
      assert v in s'.workers && s'.workers[v] == Bailing;
    }
  }

  lemma StepHeld(job: Job, s: Scan, step: Step, s': Scan)
    requires ValidJob(job) && HeldInv(job, s) && Next(job, s, step, s')
    ensures HeldInv(job, s')
  {
    hide Enabled, Apply, HeldInv, HoldsSlice;
    if step.Others? {
      OthersHeld(job, s, step, s');
    } else if step.Claim? || step.Close? {
      TakeOrCloseHeld(job, s, step, s');
    } else {
      MoveHeld(job, s, step, s');
    }
  }

  lemma OthersHeld(job: Job, s: Scan, step: Step, s': Scan)
    requires ValidJob(job) && HeldInv(job, s) && Next(job, s, step, s') && step.Others?
    ensures HeldInv(job, s')
  {
    hide CP.Apply, CP.Enabled, CP.Inv, CP.TurnedPage;
  }

  lemma TakeOrCloseHeld(job: Job, s: Scan, step: Step, s': Scan)
    requires ValidJob(job) && HeldInv(job, s) && Next(job, s, step, s') && (step.Claim? || step.Close?)
    ensures HeldInv(job, s')
  {
    hide CP.Apply, CP.Enabled, CP.Inv, CP.TurnedPage;
    HeldMoved(job, s, step.w, s'.workers[step.w], s');
  }

  lemma MoveHeld(job: Job, s: Scan, step: Step, s': Scan)
    requires ValidJob(job) && HeldInv(job, s) && Next(job, s, step, s')
    requires !step.Others? && !step.Claim? && !step.Close?
    ensures HeldInv(job, s')
  {
    hide Apply, Enabled, HeldInv, HoldsSlice;
    MoveFrame(job, s, step, s');
    MoveHolds(job, s, step, s');
    HeldMoved(job, s, step.w, s'.workers[step.w], s');
  }

  lemma MoveFrame(job: Job, s: Scan, step: Step, s': Scan)
    requires ValidJob(job) && Next(job, s, step, s') && !step.Others? && !step.Claim? && !step.Close?
    ensures step.w in s.workers && step.w in s'.workers && s'.workers == s.workers[step.w := s'.workers[step.w]]
    ensures s'.next == s.next && s'.done == s.done
  {
    hide CP.Apply, CP.Enabled, CP.Inv, CP.TurnedPage;
    hide FreshRows, Filter, Txids, Elements, OfScan;
  }

  lemma MoveHolds(job: Job, s: Scan, step: Step, s': Scan)
    requires ValidJob(job) && Next(job, s, step, s') && !step.Others? && !step.Claim? && !step.Close?
    requires step.w in s'.workers
    ensures forall i: nat :: HoldsSlice(s'.workers[step.w], i) ==> HoldsSlice(s.workers[step.w], i)
  {
    hide CP.Apply, CP.Enabled, CP.Inv, CP.TurnedPage;
    hide FreshRows, Filter, Txids, Elements, OfScan;
  }

  lemma StepLeft(job: Job, s: Scan, step: Step, s': Scan)
    requires ValidJob(job) && LeftInv(job, s) && Next(job, s, step, s')
    ensures LeftInv(job, s')
  {
    hide Apply, Enabled, LeftInv;
    if step.Others? {
      SameLeft(job, s, step, s');
    } else if step.Call? || step.Fetch? || step.Open? || step.Fail? {
      ReaderLeft(job, s, step, s');
    } else {
      MoveLeft(job, s, step, s');
    }
  }

  lemma ReaderLeft(job: Job, s: Scan, step: Step, s': Scan)
    requires ValidJob(job) && LeftInv(job, s) && Next(job, s, step, s')
    requires step.Call? || step.Fetch? || step.Open? || step.Fail?
    ensures LeftInv(job, s')
  {
    hide CP.Apply, CP.Enabled, CP.Inv, CP.TurnedPage, Tended;
    LeftMoved(job, s, step.w, s'.workers[step.w], s');
  }

  lemma MoveLeft(job: Job, s: Scan, step: Step, s': Scan)
    requires ValidJob(job) && LeftInv(job, s) && Next(job, s, step, s')
    requires !step.Others? && !step.Call? && !step.Fetch? && !step.Open? && !step.Fail?
    ensures LeftInv(job, s')
  {
    hide CP.Apply, CP.Enabled, CP.Inv, CP.TurnedPage;
    hide OfScan, Filter, FreshRows, Elements, Txids, Tended;
    LeftMoved(job, s, step.w, s'.workers[step.w], s');
  }

  lemma SameLeft(job: Job, s: Scan, step: Step, s': Scan)
    requires ValidJob(job) && LeftInv(job, s) && Next(job, s, step, s') && step.Others?
    ensures LeftInv(job, s')
  {
    hide CP.Apply, CP.Enabled;
    forall i: nat | i < s'.next && i < |job.slices| && !s'.stop && !s'.gaveUp
      ensures Tended(s', i)
    {
      assert Tended(s, i);
    }
  }

  // Whole scans

  ghost predicate Inv(job: Job, s: Scan) {
    && ValidJob(job) && CacheOk(job, s) && SeenInv(job, s)
    && RowInv(job, s) && CountInv(job, s) && HeldInv(job, s) && LeftInv(job, s)
  }

  lemma InitInv(job: Job, s: Scan)
    requires Init(job, s)
    ensures Inv(job, s)
  {
  }

  lemma StepInv(job: Job, s: Scan, step: Step, s': Scan)
    requires Inv(job, s) && Next(job, s, step, s')
    ensures Inv(job, s')
  {
    StepCache(job, s, step, s');
    StepSeen(job, s, step, s');
    StepRows(job, s, step, s');
    StepCounts(job, s, step, s');
    StepHeld(job, s, step, s');
    StepLeft(job, s, step, s');
  }

  /** The state after some steps; a step that is not possible changes nothing. */
  ghost function After(job: Job, s: Scan, steps: seq<Step>): Scan
    requires ValidJob(job)
  {
    if steps == [] then s
    else
      var n := |steps| - 1;
      var mid := After(job, s, steps[..n]);
      if Enabled(job, mid, steps[n]) then Apply(job, mid, steps[n]) else mid
  }

  /** All steps are possible where they are taken. */
  ghost predicate Legal(job: Job, s: Scan, steps: seq<Step>)
    requires ValidJob(job)
  {
    if steps == [] then true
    else
      var n := |steps| - 1;
      var mid := After(job, s, steps[..n]);
      Legal(job, s, steps[..n]) && Enabled(job, mid, steps[n])
  }

  /** A scan: any number of workers, any cache, any schedule, from the start to any moment. */
  ghost predicate Schedule(job: Job, s: Scan, steps: seq<Step>) {
    Init(job, s) && Legal(job, s, steps)
  }

  lemma {:induction false} ScheduleInv(job: Job, s: Scan, steps: seq<Step>)
    requires Schedule(job, s, steps)
    ensures Inv(job, After(job, s, steps))
  {
    if steps == [] {
      InitInv(job, s);
    } else {
      var n := |steps| - 1;
      ScheduleInv(job, s, steps[..n]);
      StepInv(job, After(job, s, steps[..n]), steps[n], After(job, s, steps));
    }
  }

  lemma {:induction false} PrefixLegal(job: Job, s: Scan, steps: seq<Step>, n: nat)
    requires ValidJob(job) && Legal(job, s, steps) && n <= |steps|
    ensures Legal(job, s, steps[..n])
    ensures n < |steps| ==> Enabled(job, After(job, s, steps[..n]), steps[n])
  {
    var k := |steps| - 1;
    if n < |steps| {
      assert steps[..k][..n] == steps[..n];
      PrefixLegal(job, s, steps[..k], n);
    } else {
      assert steps[..n] == steps;
    }
  }

  // What the protocol guarantees

  lemma {:induction false} NumbersGrow(job: Job, s: Scan, steps: seq<Step>, m: nat)
    requires ValidJob(job) && Legal(job, s, steps) && m <= |steps|
    ensures After(job, s, steps[..m]).next <= After(job, s, steps).next
  {
    hide Apply, Enabled;
    if m == |steps| {
      assert steps[..m] == steps;
    } else {
      var k := |steps| - 1;
      assert steps[..k][..m] == steps[..m];
      NumbersGrow(job, s, steps[..k], m);
      NumberGrows(job, After(job, s, steps[..k]), steps[k]);
    }
  }

  lemma NumberGrows(job: Job, s: Scan, step: Step)
    requires ValidJob(job) && Enabled(job, s, step)
    ensures s.next <= Apply(job, s, step).next
  {
    hide CP.Apply, CP.Enabled, CP.Inv, CP.TurnedPage;
    hide OfScan, Filter, FreshRows, Elements, Txids;
  }

  /** No slice is taken twice: of two claims in one schedule the later one takes a larger number, and at
      no moment do two workers hold the same slice. */
  lemma NoSliceTwice(job: Job, s: Scan, steps: seq<Step>, m: nat)
    requires Schedule(job, s, steps) && m < |steps| && steps[m].Claim?
    ensures After(job, s, steps[..m]).next < After(job, s, steps).next
    ensures var now := After(job, s, steps);
            forall v, w :: v in now.workers && w in now.workers && v != w ==> HoldApart(now.workers[v], now.workers[w])
  {
    PrefixLegal(job, s, steps, m);
    PrefixLegal(job, s, steps, m + 1);
    assert steps[..m + 1][..m] == steps[..m];
    NumbersGrow(job, s, steps, m + 1);
    ScheduleInv(job, s, steps);
  }

  /** The reader of the slice may not have been given the row: it found it missing in a range declared
      received, the row was taken between a cover test and its read, or the reader was left stuck before
      it had passed the row's time. */
  predicate MayMiss(s: Scan, i: nat, r: Row) {
    i in s.cache.runs
    && var run := s.cache.runs[i];
       r in run.Missed() || (run.stuck && run.Start() <= r.endTime)
  }

  /** A row of the window that the collector held from the beginning. */
  ghost predicate Due(job: Job, r: Row)
    requires ValidJob(job)
  {
    r in job.first && InWindow(job, r)
  }

  lemma DoneIsSeen(job: Job, s: Scan, i: nat, r: Row)
    requires Inv(job, s) && i < |job.slices| && s.done[i] && !MayMiss(s, i, r) && r in Want(job, i) && r in job.first
    ensures r.txid in s.seen
  {
    var run := s.cache.runs[i];
    assert GotSeen(s.cache, i, s.seen, [], true) && ReaderOf(job, i, run);
    assert CP.RunInv(s.cache, run);
    assert r in Wanted(run.base, run.hashes, run.stime, run.etime);
  }

  /** At every moment the collector of matches holds no txid twice and only matching rows of the window. Of a
      slice that is flagged done every row has been seen, and every row of the window not seen yet lies in
      the range that would be reported as not scanned; the only exceptions are rows that the reader of their
      slice may have missed. */
  lemma ScanIsSafe(job: Job, s0: Scan, steps: seq<Step>)
    requires Schedule(job, s0, steps)
    ensures var s := After(job, s0, steps);
            && CollectedOk(job, s) && |s.done| == |job.slices|
            && (forall i, r :: 0 <= i < |job.slices| && s.done[i] && Due(job, r) && r in Want(job, i) ==>
                  r.txid in s.seen || MayMiss(s, i, r))
            && (forall r :: Due(job, r) && r.txid !in s.seen ==> InRange(job, s.done, r) || MissedInSlice(job, s, r))
  {
    var s := After(job, s0, steps);
    ScheduleInv(job, s0, steps);
    forall i, r | 0 <= i < |job.slices| && s.done[i] && !MayMiss(s, i, r) && Due(job, r) && r in Want(job, i)
      ensures r.txid in s.seen
    {
      DoneIsSeen(job, s, i, r);
    }
    forall r | Due(job, r) && r.txid !in s.seen && !MissedInSlice(job, s, r)
      ensures InRange(job, s.done, r)
    {
      var i :| 0 <= i < |job.slices| && r in Want(job, i);
      Slices.UnscannedIsHull(job.slices, s.done);
      assert !s.done[i];
    }
  }

  ghost predicate MissedInSlice(job: Job, s: Scan, r: Row)
    requires ValidJob(job)
  {
    exists i :: 0 <= i < |job.slices| && r in Want(job, i) && MayMiss(s, i, r)
  }

  ghost predicate InRange(job: Job, done: seq<bool>, r: Row) {
    var range := Slices.UnscannedRange(job.slices, done);
    range.Some? && range.value.0 <= r.endTime <= range.value.1
  }

  // With an honest collector rows are lost to crowded instants only

  /** The answers that the scan's readers get are those of an honest collector. */
  ghost predicate HonestStep(job: Job, s: Scan, step: Step)
    requires ValidJob(job)
  {
    step.Call? && step.c.Ask? && step.c.id in s.cache.runs ==>
      var r := s.cache.runs[step.c.id];
      Honest(s.cache.coll, BuildRequest(r.hashes, r.stime, r.etime, r.pageCount, r.cursor), step.c.a)
  }

  ghost predicate AllHonest(job: Job, s: Scan, steps: seq<Step>)
    requires ValidJob(job)
  {
    if steps == [] then true
    else
      var n := |steps| - 1;
      AllHonest(job, s, steps[..n]) && HonestStep(job, After(job, s, steps[..n]), steps[n])
  }

  lemma StepMoves(job: Job, s: Scan, step: Step, s': Scan, i: nat)
    requires Inv(job, s) && Next(job, s, step, s') && i < |job.slices| && HonestStep(job, s, step)
    requires 0 <= job.slices[i].stime
    requires CP.Moving(s.cache, i, 0)
    ensures CP.Moving(s'.cache, i, 0)
  {
    CacheStepOk(job, s, step, s');
    if CacheStep(job, s, step).Some? {
      var c := CacheStep(job, s, step).value;
      if CP.OwnedBy(c, i) {
        OwnStepIsScans(job, s, step, i);
        assert CP.Fair(s.cache, c);
      }
      CP.StepMovesOn(s.cache, c, s'.cache, i, 0);
    }
  }

  lemma OwnStepIsScans(job: Job, s: Scan, step: Step, i: nat)
    requires ValidJob(job) && Enabled(job, s, step) && i < |job.slices|
    requires CacheStep(job, s, step).Some? && CP.OwnedBy(CacheStep(job, s, step).value, i)
    ensures step.Open? || step.Call? || step.Fetch?
    ensures step.Open? ==> s.workers[step.w].i == i
  {
    if step.Others? {
      assert OfScan(job, step.c);
    }
  }

  lemma {:induction false} ReadersMove(job: Job, s0: Scan, steps: seq<Step>, i: nat)
    requires Schedule(job, s0, steps) && AllHonest(job, s0, steps) && i < |job.slices| && 0 <= job.slices[i].stime
    ensures CP.Moving(After(job, s0, steps).cache, i, 0)
  {
    if steps == [] {
    } else {
      var n := |steps| - 1;
      ReadersMove(job, s0, steps[..n], i);
      ScheduleInv(job, s0, steps[..n]);
      StepMoves(job, After(job, s0, steps[..n]), steps[n], After(job, s0, steps), i);
    }
  }

  /** With an honest collector a slice is left stuck only if an instant of it holds a whole page of rows of its
      objects. */
  lemma NeverStuck(job: Job, s0: Scan, steps: seq<Step>, i: nat)
    requires Schedule(job, s0, steps) && AllHonest(job, s0, steps) && i < |job.slices| && 0 <= job.slices[i].stime
    requires Uncrowded(job.coll, job.hashes[i], job.slices[i].stime, job.slices[i].etime, job.pageCount)
    ensures i in After(job, s0, steps).cache.runs ==> !After(job, s0, steps).cache.runs[i].stuck
  {
    var s := After(job, s0, steps);
    ReadersMove(job, s0, steps, i);
    ScheduleInv(job, s0, steps);
    if i in s.cache.runs && s.cache.runs[i].stuck {
      assert ReaderOf(job, i, s.cache.runs[i]) && CP.RunInv(s.cache, s.cache.runs[i]);
      CP.StuckOnCrowd(s.cache, s.cache.runs[i], 0);
      MoreRowsCrowd(s.cache.coll, job.coll, job.hashes[i], job.slices[i].stime, job.slices[i].etime, job.pageCount);
    }
  }

  /** With an honest collector a row of a slice that is flagged done has been seen, unless the cache misled the
      reader about it, or a page could be filled without it at an instant of the slice no later than it. */
  lemma OnlyCrowdedOut(job: Job, s0: Scan, steps: seq<Step>, i: nat, r: Row)
    requires Schedule(job, s0, steps) && AllHonest(job, s0, steps) && i < |job.slices| && 0 <= job.slices[i].stime
    requires r in job.first && r in Want(job, i)
    ensures var s := After(job, s0, steps);
            |s.done| == |job.slices| && (s.done[i] && r.txid !in s.seen ==>
              i in s.cache.runs && (r in s.cache.runs[i].Missed() ||
                                    CrowdedOut(job.coll, job.hashes[i], job.slices[i].stime, job.pageCount, r)))
  {
    var s := After(job, s0, steps);
    ReadersMove(job, s0, steps, i);
    ScheduleInv(job, s0, steps);
    if s.done[i] && r.txid !in s.seen {
      assert GotSeen(s.cache, i, s.seen, [], true);
      var run := s.cache.runs[i];
      assert ReaderOf(job, i, run) && CP.RunInv(s.cache, run);
      assert r in Wanted(run.base, run.hashes, run.stime, run.etime) && r !in run.got;
      if r !in run.Missed() {
        CP.StuckOnCrowd(s.cache, run, 0);
        MoreRowsCrowd(s.cache.coll, job.coll, job.hashes[i], job.slices[i].stime, job.slices[i].etime, job.pageCount);
      }
    }
  }

  /** The job asks, over the plan of a window, for the objects of each day; days without objects are
      left out. */
  ghost predicate AsksByDate(job: Job, plan: seq<Slices.Slice>, byDate: map<Date, seq<int>>) {
    && ValidJob(job) && job.slices == Slices.Kept(plan, byDate)
    && forall i :: 0 <= i < |job.slices| ==> job.slices[i].date in byDate && job.hashes[i] == byDate[job.slices[i].date]
  }

  /** The rows a scan is about are then exactly the rows of the window whose object is asked for on the day
      of their end time, or, as both ends of a slice count, on the day just before a midnight they end at.
      Nothing is lost between slices or at either end of the window. */
  lemma WindowIsWanted(job: Job, plan: seq<Slices.Slice>, byDate: map<Date, seq<int>>, sort: Slices.SortBy,
                       s: int, e: int, tz: int, r: Row)
    requires AsksByDate(job, plan, byDate)
    requires Slices.TilesWindow(Slices.InTimeOrder(plan, sort), s, e) && Slices.Dated(plan, tz) && s < e
    ensures InWindow(job, r) <==>
              r in job.coll && (AskedAt(byDate, s, e, tz, r, r.endTime) || AskedAt(byDate, s, e, tz, r, r.endTime - 1))
  {
    hide InWindow, AskedAt, Slices.TilesWindow;
    forall t | r.endTime - 1 <= t <= r.endTime && r in job.coll && AskedAt(byDate, s, e, tz, r, t)
      ensures InWindow(job, r)
    {
      ReachesRow(job, plan, byDate, sort, s, e, tz, t, r);
    }
    if InWindow(job, r) {
      RowIsAsked(job, plan, byDate, sort, s, e, tz, r);
    }
  }

  /** The instant lies in the window, and the row's object is asked for on its day. */
  ghost predicate AskedAt(byDate: map<Date, seq<int>>, s: int, e: int, tz: int, r: Row, t: int) {
    s <= t < e && Slices.DateKey(t, tz) in byDate && r.objHash in byDate[Slices.DateKey(t, tz)]
  }

  lemma RowIsAsked(job: Job, plan: seq<Slices.Slice>, byDate: map<Date, seq<int>>, sort: Slices.SortBy,
                   s: int, e: int, tz: int, r: Row)
    requires AsksByDate(job, plan, byDate)
    requires Slices.TilesWindow(Slices.InTimeOrder(plan, sort), s, e) && Slices.Dated(plan, tz)
    requires InWindow(job, r)
    ensures r in job.coll && (AskedAt(byDate, s, e, tz, r, r.endTime) || AskedAt(byDate, s, e, tz, r, r.endTime - 1))
  {
    hide Slices.TilesWindow;
    var i :| 0 <= i < |job.slices| && r in Want(job, i);
    var sl := job.slices[i];
    Slices.KeptExact(plan, byDate, sl);
    var k :| 0 <= k < |plan| && plan[k] == sl;
    Slices.PlanInside(plan, sort, s, e, k);
    Slices.KeyInside(sl, tz, if r.endTime < sl.etime then r.endTime else r.endTime - 1);
  }

  lemma ReachesRow(job: Job, plan: seq<Slices.Slice>, byDate: map<Date, seq<int>>, sort: Slices.SortBy,
                   s: int, e: int, tz: int, t: int, r: Row)
    requires AsksByDate(job, plan, byDate)
    requires Slices.TilesWindow(Slices.InTimeOrder(plan, sort), s, e) && Slices.Dated(plan, tz)
    requires t <= r.endTime <= t + 1 && r in job.coll && AskedAt(byDate, s, e, tz, r, t)
    ensures InWindow(job, r)
  {
    hide Slices.TilesWindow;
    var k := Slices.PlanReaches(plan, sort, s, e, t);
    Slices.KeyInside(plan[k], tz, t);
    Slices.KeptExact(plan, byDate, plan[k]);
    var i :| 0 <= i < |job.slices| && job.slices[i] == plan[k];
    assert r in Want(job, i);
  }

  /** All workers have left, none was stopped by the limit or an error, no page guard was hit, and no reader
      missed a row in the cache or was left stuck. */
  ghost predicate Completed(job: Job, s: Scan) {
    && (forall w :: w in s.workers ==> s.workers[w] == Exited) && !s.stop && !s.gaveUp
    && forall i :: i in s.cache.runs && i < |job.slices| ==> s.cache.runs[i].Missed() == {} && !s.cache.runs[i].stuck
  }

  ghost function WindowRows(job: Job): set<Row>
    requires ValidJob(job)
  {
    set r | r in job.coll && InWindow(job, r)
  }

  /** A scan that was not cut short, over a collector that did not grow, has scanned each row of the window
      once, has collected exactly the matching ones, and reports nothing as not scanned. */
  lemma CompletedScan(job: Job, s0: Scan, steps: seq<Step>)
    requires Schedule(job, s0, steps) && Completed(job, After(job, s0, steps)) && job.first == job.coll
    ensures var s := After(job, s0, steps);
            && s.scanned == |WindowRows(job)|
            && DistinctTxids(s.collected)
            && (forall r :: r in s.collected <==> InWindow(job, r) && job.matches(r))
            && Slices.UnscannedRange(job.slices, s.done) == None
  {
    hide Inv, Completed, After, InWindow, WindowRows, DistinctTxids;
    var s := After(job, s0, steps);
    ScheduleInv(job, s0, steps);
    AllDone(job, s);
    AllSeen(job, s);
    AllCounted(job, s);
    AllCollected(job, s);
  }

  lemma AllSeen(job: Job, s: Scan)
    requires Inv(job, s) && Completed(job, s) && job.first == job.coll && forall i :: 0 <= i < |s.done| ==> s.done[i]
    ensures forall r :: InWindow(job, r) ==> r.txid in s.seen
  {
    hide CacheOk, RowInv, CountInv, LeftInv;
    InWindowInColl(job);
    forall r | InWindow(job, r)
      ensures r.txid in s.seen
    {
      var i :| 0 <= i < |job.slices| && r in Want(job, i);
      assert GotSeen(s.cache, i, s.seen, [], true);
      DoneIsSeen(job, s, i, r);
    }
  }

  lemma AllCounted(job: Job, s: Scan)
    requires Inv(job, s) && Completed(job, s) && forall r :: InWindow(job, r) ==> r.txid in s.seen
    ensures s.scanned == |WindowRows(job)|
  {
    hide CacheOk, SeenInv, RowInv, HeldInv, LeftInv;
    InWindowInColl(job);
    assert s.counted == WindowRows(job);
  }

  lemma AllCollected(job: Job, s: Scan)
    requires Inv(job, s) && Completed(job, s) && forall r :: InWindow(job, r) ==> r.txid in s.seen
    ensures DistinctTxids(s.collected) && forall r :: r in s.collected <==> InWindow(job, r) && job.matches(r)
  {
    hide CacheOk, SeenInv, CountInv, HeldInv, InWindow;
    forall r | InWindow(job, r) && job.matches(r)
      ensures r in s.collected
    {
      assert Accounted(s, r);
    }
  }

  lemma AllDone(job: Job, s: Scan)
    requires Inv(job, s) && Completed(job, s)
    ensures |s.done| == |job.slices| && (forall i :: 0 <= i < |s.done| ==> s.done[i])
    ensures Slices.UnscannedRange(job.slices, s.done) == None
  {
    hide CacheOk, RowInv, CountInv, HeldInv;
    Slices.UnscannedIsHull(job.slices, s.done);
    var w :| w in s.workers;
    assert s.workers[w] == Exited;
    forall i: nat | i < |s.done|
      ensures s.done[i]
    {
      assert Tended(s, i);
    }
  }

  lemma {:induction false} AtMostOnce(rows: seq<Row>, r: Row)
    requires DistinctTxids(rows)
    ensures multiset(rows)[r] == if r in rows then 1 else 0
  {
    if rows == [] {
    } else {
      var n := |rows| - 1;
      assert rows == rows[..n] + [rows[n]];
      AtMostOnce(rows[..n], r);
    }
  }

  /** The schedule does not matter. Two scans of the same job that were not cut short, with whatever
      numbers of workers and whatever the cache held, count the same rows, match the same rows, and give
      the same totals, the same totals per service and top lists with the same sort keys. With one worker
      and an empty cache this says that splitting the work and caching change nothing. */
  lemma ScheduleDoesNotMatter(job: Job, s: Scan, steps: seq<Step>, s': Scan, steps': seq<Step>,
                              sort: Slices.SortBy, limit: nat)
    requires Schedule(job, s, steps) && Completed(job, After(job, s, steps))
    requires Schedule(job, s', steps') && Completed(job, After(job, s', steps'))
    requires job.first == job.coll
    ensures After(job, s, steps).scanned == After(job, s', steps').scanned
    ensures var a, b := After(job, s, steps).collected, After(job, s', steps').collected;
            && multiset(a) == multiset(b) && |a| == |b|
            && Digest.CountErrors(a) == Digest.CountErrors(b) && Digest.Aggregate(a) == Digest.Aggregate(b)
            && Keys(Digest.RowKey(sort), Digest.TopRows(sort, limit, a)) ==
               Keys(Digest.RowKey(sort), Digest.TopRows(sort, limit, b))
  {
    CompletedScan(job, s, steps);
    CompletedScan(job, s', steps');
    var a, b := After(job, s, steps).collected, After(job, s', steps').collected;
    forall r
      ensures multiset(a)[r] == multiset(b)[r]
    {
      AtMostOnce(a, r);
      AtMostOnce(b, r);
    }
    Digest.ResultIgnoresOrder(sort, limit, a, b);
  }
}
