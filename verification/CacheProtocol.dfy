/** Many readers sharing one cache in front of a growing collector.

    Each call of the cache is one atomic step, so the steps of one page (test the cover, read the page,
    or ask, insert, evict, mark) interleave with the steps of every other reader, with evictions and
    clears, with the clock and with rows that arrive late at the collector. A reader reads its seal
    once, before its first page. */
module CacheProtocol {
  import opened Wrappers
  import opened Rows
  import opened Cover
  import opened CacheDb
  import opened PastPage

  const SEAL_MS := 5 * 60_000

  datatype Phase =
    | Ready                        // about to test whether the front is covered
    | Hit                          // covered: about to read a page from the cache
    | Miss                         // about to ask the collector
    | Answered(a: Answer)          // has the answer, about to insert its rows
    | Inserted(a: Answer)          // about to let the cache evict
    | Trimmed(a: Answer)           // about to mark, if the collector said "no more"
    | Finished

  /** `got` is what the reader has been given. The rest is history: `base` is what the collector held
      when the seal was read, `lost` the largest cut of an eviction since and `wiped` whether the cache was
      cleared since. `holes` are the rows of the front that were not stored when the reader found it covered,
      `raced` those of the front that an eviction or a clear took between a cover test and its read.
      `stuck` says that the last page stopped although more was announced. */
  datatype Run = Run(hashes: seq<int>, stime: int, etime: int, pageCount: int, seal: int,
                     cursor: PastCursor, phase: Phase, got: set<Row>,
                     base: set<Row>, lost: int, wiped: bool, holes: set<Row>, raced: set<Row>, stuck: bool)
  {
    function To(): int {
      Min(etime, seal)
    }

    function Start(): int {
      StartOf(cursor, stime)
    }

    /** The rows that a page from the cache should bring. */
    ghost function Front(coll: set<Row>): set<Row> {
      Wanted(coll, hashes, Start(), To())
    }

    function TurnPage(page: Page): Run {
      this.(cursor := page.next,
            phase := if page.done then Finished else Ready,
            got := got + (set r | r in page.rows),
            stuck := page.done && page.next.hasMore)
    }

    ghost function Evicted(cut: int, coll: set<Row>): Run {
      this.(lost := Max(lost, cut),
            raced := if phase == Hit then raced + (set x | x in Front(coll) && x.endTime < cut) else raced)
    }

    ghost function Wiped(coll: set<Row>): Run {
      this.(wiped := true, raced := if phase == Hit then raced + Front(coll) else raced)
    }

    /** Nothing since the reader began has removed rows of this time. */
    predicate Keeps(x: Row) {
      !wiped && lost <= x.endTime
    }

    /** The rows that the reader may have missed because the cache did not hold what it had promised. */
    function Missed(): set<Row> {
      holes + raced
    }
  }

  datatype Sys = Sys(now: int, coll: set<Row>, store: map<int, Row>, cover: set<Interval>, runs: map<nat, Run>)

  datatype Step =
    | Tick(now: int)
    | Arrive(row: Row)
    | Begin(id: nat, hashes: seq<int>, stime: int, etime: int, pageCount: int)
    | Test(id: nat)
    | ReadCached(id: nat, rows: seq<Row>)
    | Ask(id: nat, a: Answer)
    | Insert(id: nat)
    | Evict(id: nat, cut: Option<int>)
    | Mark(id: nat, after: set<Interval>)
    | EvictByOther(upto: int)
    | Clear

  function NewRun(s: Sys, hashes: seq<int>, stime: int, etime: int, pageCount: int): Run {
    Run(hashes, stime, etime, pageCount, s.now - SEAL_MS, START, Ready, {}, s.coll, stime, false, {}, {}, false)
  }

  predicate Marks(r: Run) {
    r.phase.Trimmed? && !r.phase.a.next.hasMore && r.stime <= r.To()
  }

  ghost function CutAt(s: Sys, cut: int): Sys {
    Sys(s.now, s.coll, DropBefore(s.store, cut), Trim(s.cover, cut), map i | i in s.runs :: s.runs[i].Evicted(cut, s.coll))
  }

  /** The reader after its cover test. */
  ghost function Tested(s: Sys, r: Run): Run {
    if FrontCovered(s.cover, r.hashes, r.stime, r.To(), r.cursor) then r.(phase := Hit, holes := r.holes + Unheld(s.store, r.Front(s.coll)))
    else r.(phase := Miss)
  }

  /** A step is possible. A row arrives less than SEAL_MS after its end time. */
  ghost predicate Enabled(s: Sys, step: Step) {
    match step
    case Tick(now) => s.now <= now
    case Arrive(row) => (forall r :: r in s.coll ==> r.txid != row.txid) && s.now < row.endTime + SEAL_MS
    case Begin(id, _, _, _, _) => id !in s.runs
    case Test(id) => id in s.runs && s.runs[id].phase == Ready
    case ReadCached(id, rows) =>
      && id in s.runs && s.runs[id].phase == Hit
      && var r := s.runs[id];
         FirstRows(Stored(s.store, r.hashes, r.Start(), r.To()), Max(r.pageCount, 1), rows)
    case Ask(id, a) =>
      && id in s.runs && s.runs[id].phase == Miss
      && var r := s.runs[id];
         Truthful(s.coll, BuildRequest(r.hashes, r.stime, r.etime, r.pageCount, r.cursor), a)
    case Insert(id) => id in s.runs && s.runs[id].phase.Answered?
    case Evict(id, _) => id in s.runs && s.runs[id].phase.Inserted?
    case Mark(id, after) =>
      && id in s.runs && s.runs[id].phase.Trimmed?
      && var r := s.runs[id];
         if Marks(r) then Marked(s.cover, r.hashes, r.stime, r.To(), after) else after == s.cover
    case EvictByOther(_) => true
    case Clear => true
  }

  /** The state after a step. */
  ghost function Apply(s: Sys, step: Step): Sys
    requires Enabled(s, step)
  {
    match step
    case Tick(now) => s.(now := now)
    case Arrive(row) => s.(coll := s.coll + {row})
    case Begin(id, hashes, stime, etime, pageCount) => Move(s, id, NewRun(s, hashes, stime, etime, pageCount))
    case Test(id) => Move(s, id, Tested(s, s.runs[id]))
    case ReadCached(id, rows) => Move(s, id, s.runs[id].TurnPage(TurnedPage(s, step)))
    case Ask(id, a) => Move(s, id, s.runs[id].(phase := Answered(a)))
    case Insert(id) =>
      Move(s, id, s.runs[id].(phase := Inserted(s.runs[id].phase.a))).(store := InsertAll(s.store, s.runs[id].phase.a.rows))
    case Evict(id, cut) =>
      var s1 := Move(s, id, s.runs[id].(phase := Trimmed(s.runs[id].phase.a)));
      if cut.None? then s1 else CutAt(s1, cut.value)
    case Mark(id, after) => Move(s, id, s.runs[id].TurnPage(TurnedPage(s, step))).(cover := after)
    case EvictByOther(upto) => CutAt(s, upto)
    case Clear => Sys(s.now, s.coll, map[], {}, map i | i in s.runs :: s.runs[i].Wiped(s.coll))
  }

  function Move(s: Sys, id: nat, r: Run): Sys {
    s.(runs := s.runs[id := r])
  }

  /** The page that a page-turning step reports. */
  ghost function TurnedPage(s: Sys, step: Step): Page
    requires Enabled(s, step) && (step.ReadCached? || step.Mark?)
  {
    var r := s.runs[step.id];
    if step.ReadCached? then CachedPage(step.rows, Max(r.pageCount, 1), r.To(), r.etime, r.cursor)
    else FetchedPage(r.phase.a, r.cursor)
  }

  ghost predicate Next(s: Sys, step: Step, s': Sys) {
    Enabled(s, step) && s' == Apply(s, step)
  }

  // The invariant

  ghost predicate CacheInv(s: Sys) {
    && UniqueTxids(s.coll) && Genuine(s.store, s.coll) && Separated(s.cover)
    && forall h, t :: CoveredAt(s.cover, h, t) ==> t <= s.now - SEAL_MS
  }

  ghost predicate Inv(s: Sys) {
    CacheInv(s) && forall i :: i in s.runs ==> RunInv(s, s.runs[i])
  }

  ghost predicate RunInv(s: Sys, r: Run) {
    && SealInv(s, r) && PhaseInv(s, r) && MissedInv(s, r)
    && (forall x :: x in r.got ==> x in Wanted(s.coll, r.hashes, r.stime, r.etime))
    && (r.phase != Finished ==>
          && r.stime <= r.Start() && !r.stuck
          && forall x :: x in Wanted(r.base, r.hashes, r.stime, r.To()) && x.endTime < r.Start() && r.Keeps(x) && x !in r.holes ==>
                           Holds(s.store, x))
    && forall x :: x in Wanted(r.base, r.hashes, r.stime, r.etime) && PageReached(r, x) && x !in r.Missed() ==> x in r.got
  }

  /** The pages so far went past the row. */
  predicate PageReached(r: Run, x: Row) {
    x.endTime < r.Start() || (r.phase == Finished && !r.stuck)
  }

  /** What came to the collector after the seal was read lies after the seal. */
  ghost predicate SealInv(s: Sys, r: Run) {
    && r.base <= s.coll && r.seal <= s.now - SEAL_MS
    && forall x :: x in s.coll && x !in r.base ==> r.seal < x.endTime
  }

  /** Rows taken in a race are gone for what the reader knows; a hole stays covered until it is cut away. */
  ghost predicate MissedInv(s: Sys, r: Run) {
    && (forall x :: x in r.raced ==> !r.Keeps(x))
    && (forall x :: x in r.holes && r.Keeps(x) ==> CoveredAt(s.cover, x.objHash, x.endTime))
  }

  ghost predicate PhaseInv(s: Sys, r: Run) {
    match r.phase
    case Hit => r.Start() < r.To() && forall x :: x in r.Front(s.coll) ==> Holds(s.store, x) || x in r.Missed()
    case Answered(a) => AnswerInv(s, r, a)
    case Inserted(a) => AnswerInv(s, r, a) && forall x :: x in a.rows && r.Keeps(x) ==> Holds(s.store, x)
    case Trimmed(a) => AnswerInv(s, r, a) && forall x :: x in a.rows && r.Keeps(x) ==> Holds(s.store, x)
    case _ => true
  }

  /** An answer stays complete with respect to what the collector held when the seal was read. */
  ghost predicate AnswerInv(s: Sys, r: Run, a: Answer) {
    && (forall x :: x in a.rows ==> x in Wanted(s.coll, r.hashes, r.Start(), r.etime))
    && (a.next.hasMore ==> r.Start() <= a.next.lastXlogTime)
    && forall x :: x in Wanted(r.base, r.hashes, r.Start(), r.etime) && x !in a.rows ==>
                     a.next.hasMore && a.next.lastXlogTime <= x.endTime
  }

  // Each step keeps the invariant

  /** A run that does not move itself, after evictions and clears by others. */
  ghost predicate Aged(r: Run, r': Run) {
    && r' == r.(lost := r'.lost, wiped := r'.wiped, raced := r'.raced)
    && r.lost <= r'.lost && (r.wiped ==> r'.wiped) && r.raced <= r'.raced
  }

  /** Whatever the store or the cover lost meanwhile is written in the history of the run. */
  ghost predicate Tolerates(s: Sys, r: Run, s': Sys, r': Run) {
    && Aged(r, r')
    && (forall x :: x in r'.raced ==> x in r.raced || !r'.Keeps(x))
    && (forall x :: x in s.coll && Holds(s.store, x) && !Holds(s'.store, x) ==>
          !r'.Keeps(x) && (r.phase == Hit && x in r.Front(s.coll) ==> x in r'.raced))
    && (forall x: Row :: CoveredAt(s.cover, x.objHash, x.endTime) && r'.Keeps(x) ==> CoveredAt(s'.cover, x.objHash, x.endTime))
  }

  /** It keeps its invariant when the collector only grows by rows later than the seal. */
  lemma RunKept(s: Sys, r: Run, s': Sys, r': Run)
    requires RunInv(s, r) && Tolerates(s, r, s', r')
    requires s.coll <= s'.coll && s.now <= s'.now
    requires forall x :: x in s'.coll && x !in s.coll ==> r.seal < x.endTime
    ensures RunInv(s', r')
  {
    assert forall x :: x in r.Front(s'.coll) ==> x in r.Front(s.coll);
    assert forall x :: r'.Keeps(x) ==> r.Keeps(x);
    assert r'.Start() == r.Start() && r'.To() == r.To() && r'.phase == r.phase;
    assert forall x :: x in r.Missed() ==> x in r'.Missed();
  }

  lemma OthersKept(s: Sys, s': Sys)
    requires Inv(s)
    requires s.coll <= s'.coll && s.now <= s'.now
    requires forall x :: x in s'.coll && x !in s.coll ==> s.now - SEAL_MS < x.endTime
    requires s'.runs.Keys == s.runs.Keys
    requires forall i :: i in s.runs ==> Tolerates(s, s.runs[i], s', s'.runs[i])
    ensures forall i :: i in s'.runs ==> RunInv(s', s'.runs[i])
  {
    forall i | i in s'.runs
      ensures RunInv(s', s'.runs[i])
    {
      RunKept(s, s.runs[i], s', s'.runs[i]);
    }
  }

  /** Replacing one run by a run that satisfies the invariant. */
  lemma RunMoved(s: Sys, id: nat, r': Run)
    requires Inv(s)
    requires RunInv(s, r')
    ensures Inv(Move(s, id, r'))
  {
    var s' := Move(s, id, r');
    forall i | i in s'.runs
      ensures RunInv(s', s'.runs[i])
    {
      RunKept(s, s'.runs[i], s', s'.runs[i]);
    }
  }

  /** Turning a page. The rows that were not missed are in the page or behind its cursor. */
  lemma PageTurned(s: Sys, r: Run, page: Page)
    requires RunInv(s, r) && r.phase != Finished
    requires forall x :: x in page.rows ==> x in Wanted(s.coll, r.hashes, r.Start(), r.etime)
    requires page.next.hasMore ==> r.Start() <= page.next.lastXlogTime
    requires !page.next.hasMore ==> page.done
    requires forall x :: x in page.rows && x.endTime <= r.To() && r.Keeps(x) ==> Holds(s.store, x)
    requires forall x :: x in Wanted(r.base, r.hashes, r.Start(), r.etime) && x !in page.rows && x !in r.Missed() ==>
               page.next.hasMore && page.next.lastXlogTime <= x.endTime
    ensures RunInv(s, r.TurnPage(page))
  {
    var r' := r.TurnPage(page);
    forall x | x in Wanted(r.base, r.hashes, r.stime, r.etime) && PageReached(r', x) && x !in r'.Missed()
      ensures x in r'.got
    {
      assert x.endTime < r.Start() || x in Wanted(r.base, r.hashes, r.Start(), r.etime);
    }
    if r'.phase != Finished {
      forall x | x in Wanted(r.base, r.hashes, r.stime, r.To()) && x.endTime < r'.Start() && r'.Keeps(x) && x !in r'.holes
        ensures Holds(s.store, x)
      {
        assert x.endTime < r.Start() || x in Wanted(r.base, r.hashes, r.Start(), r.etime);
      }
    }
  }

  lemma ReadCachedKeeps(s: Sys, id: nat, rows: seq<Row>, s': Sys)
    requires Inv(s) && Next(s, ReadCached(id, rows), s')
    ensures Inv(s')
  {
    var r := s.runs[id];
    var page := TurnedPage(s, ReadCached(id, rows));
    var need := s.coll - r.Missed();
    assert RunInv(s, r);
    StoredPageOk(s.coll, need, s.store, r.hashes, r.stime, r.etime, r.pageCount, r.cursor, r.To(), rows);
    forall x | x in Wanted(r.base, r.hashes, r.Start(), r.etime) && x !in page.rows && x !in r.Missed()
      ensures page.next.hasMore && page.next.lastXlogTime <= x.endTime
    {
      assert x in Wanted(need, r.hashes, r.Start(), r.etime);
    }
    PageTurned(s, r, page);
    RunMoved(s, id, r.TurnPage(page));
  }

  lemma InsertKeeps(s: Sys, id: nat, s': Sys)
    requires Inv(s) && Next(s, Insert(id), s')
    ensures Inv(s')
  {
    hide Tolerates, CacheInv;
    var r := s.runs[id];
    var a := r.phase.a;
    var s1 := s.(store := InsertAll(s.store, a.rows));
    assert RunInv(s, r);
    StoreGrows(s, a.rows);
    RunMoved(s1, id, r.(phase := Inserted(a)));
  }

  lemma StoreGrows(s: Sys, rows: seq<Row>)
    requires Inv(s) && forall x :: x in rows ==> x in s.coll
    ensures Inv(s.(store := InsertAll(s.store, rows)))
    ensures forall x :: x in rows ==> Holds(InsertAll(s.store, rows), x)
  {
    InsertAllHolds(s.store, rows, s.coll);
    OthersKept(s, s.(store := InsertAll(s.store, rows)));
  }

  lemma CutKeeps(s: Sys, cut: int)
    requires Inv(s)
    ensures Inv(CutAt(s, cut))
  {
    hide Tolerates, RunInv;
    TrimExact(s.cover, cut);
    forall i | i in s.runs
      ensures Tolerates(s, s.runs[i], CutAt(s, cut), s.runs[i].Evicted(cut, s.coll))
    {
      CutTolerated(s, s.runs[i], cut);
    }
    OthersKept(s, CutAt(s, cut));
  }

  lemma CutTolerated(s: Sys, r: Run, cut: int)
    requires CacheInv(s)
    ensures Tolerates(s, r, CutAt(s, cut), r.Evicted(cut, s.coll))
  {
    TrimExact(s.cover, cut);
  }

  lemma MarkKeeps(s: Sys, id: nat, after: set<Interval>, s': Sys)
    requires Inv(s) && Next(s, Mark(id, after), s')
    ensures Inv(s')
  {
    var r := s.runs[id];
    var s1 := s.(cover := after);
    OthersKept(s, s1);
    PageTurned(s1, r, FetchedPage(r.phase.a, r.cursor));
    RunMoved(s1, id, r.TurnPage(FetchedPage(r.phase.a, r.cursor)));
  }

  lemma TestKeeps(s: Sys, id: nat, s': Sys)
    requires Inv(s) && Next(s, Test(id), s')
    ensures Inv(s')
  {
    RunMoved(s, id, Tested(s, s.runs[id]));
  }

  lemma TickKeeps(s: Sys, now: int, s': Sys)
    requires Inv(s) && Next(s, Tick(now), s')
    ensures Inv(s')
  {
    OthersKept(s, s');
  }

  /** A row that comes in time lies after every seal read so far, hence outside every covered range. */
  lemma ArriveKeeps(s: Sys, row: Row, s': Sys)
    requires Inv(s) && Next(s, Arrive(row), s')
    ensures Inv(s') && !CoveredAt(s.cover, row.objHash, row.endTime)
  {
    OthersKept(s, s');
  }

  lemma BeginKeeps(s: Sys, id: nat, hashes: seq<int>, stime: int, etime: int, pageCount: int, s': Sys)
    requires Inv(s) && Next(s, Begin(id, hashes, stime, etime, pageCount), s')
    ensures Inv(s')
  {
    forall i | i in s'.runs
      ensures RunInv(s', s'.runs[i])
    {
      if i != id {
        RunKept(s, s.runs[i], s', s'.runs[i]);
      }
    }
  }

  lemma AskKeeps(s: Sys, id: nat, a: Answer, s': Sys)
    requires Inv(s) && Next(s, Ask(id, a), s')
    ensures Inv(s')
  {
    RunMoved(s, id, s.runs[id].(phase := Answered(a)));
  }

  lemma EvictStepKeeps(s: Sys, id: nat, cut: Option<int>, s': Sys)
    requires Inv(s) && Next(s, Evict(id, cut), s')
    ensures Inv(s')
  {
    var r := s.runs[id];
    RunMoved(s, id, r.(phase := Trimmed(r.phase.a)));
    if cut.Some? {
      CutKeeps(Move(s, id, r.(phase := Trimmed(r.phase.a))), cut.value);
    }
  }

  lemma ClearKeeps(s: Sys, s': Sys)
    requires Inv(s) && Next(s, Clear, s')
    ensures Inv(s')
  {
    OthersKept(s, s');
  }

  /** The heart of the matter: every step keeps the invariant. */
  lemma NextKeeps(s: Sys, step: Step, s': Sys)
    requires Inv(s) && Next(s, step, s')
    ensures Inv(s')
  {
    match step
    case Tick(now) => TickKeeps(s, now, s');
    case Arrive(row) => ArriveKeeps(s, row, s');
    case Begin(id, hashes, stime, etime, pageCount) => BeginKeeps(s, id, hashes, stime, etime, pageCount, s');
    case Test(id) => TestKeeps(s, id, s');
    case ReadCached(id, rows) => ReadCachedKeeps(s, id, rows, s');
    case Ask(id, a) => AskKeeps(s, id, a, s');
    case Insert(id) => InsertKeeps(s, id, s');
    case Evict(id, cut) => EvictStepKeeps(s, id, cut, s');
    case Mark(id, after) => MarkKeeps(s, id, after, s');
    case EvictByOther(upto) => CutKeeps(s, upto);
    case Clear => ClearKeeps(s, s');
  }

  // What a step does to the runs

  /** The step is a call of this reader. */
  predicate OwnedBy(step: Step, id: nat) {
    match step
    case Begin(i, _, _, _, _) => i == id
    case Test(i) => i == id
    case ReadCached(i, _) => i == id
    case Ask(i, _) => i == id
    case Insert(i) => i == id
    case Evict(i, _) => i == id
    case Mark(i, _) => i == id
    case _ => false
  }

  /** A call that belongs to a page but does not turn it. */
  predicate WithinPage(step: Step) {
    step.Test? || step.Ask? || step.Insert? || step.Evict?
  }

  lemma OtherRunAged(s: Sys, step: Step, s': Sys, id: nat)
    requires Next(s, step, s') && id in s.runs && !OwnedBy(step, id)
    ensures id in s'.runs && Aged(s.runs[id], s'.runs[id])
  {
  }

  lemma CallKeepsGot(s: Sys, step: Step, s': Sys, id: nat)
    requires Next(s, step, s') && id in s.runs && OwnedBy(step, id) && WithinPage(step)
    ensures id in s'.runs && s'.runs[id].got == s.runs[id].got && s'.runs[id].phase != Finished
  {
  }

  /** Turning a page gives the reader the rows of the page, and finishes it exactly if the page says so. */
  lemma TurnGives(s: Sys, step: Step, s': Sys, id: nat)
    requires Inv(s) && Next(s, step, s') && id in s.runs && OwnedBy(step, id) && (step.ReadCached? || step.Mark?)
    ensures id in s'.runs
    ensures var r, page := s.runs[id], TurnedPage(s, step);
            && s'.runs[id] == r.TurnPage(page)
            && forall x :: x in page.rows ==> x in Wanted(s.coll, r.hashes, r.stime, r.etime)
  {
    var r := s.runs[id];
    assert RunInv(s, r);
  }

  lemma CollGrows(s: Sys, step: Step, s': Sys)
    requires Next(s, step, s')
    ensures s.coll <= s'.coll && s' == Apply(s, step)
  {
  }

  lemma OwnStepsKeepColl(s: Sys, step: Step, s': Sys, id: nat)
    requires Next(s, step, s') && OwnedBy(step, id)
    ensures s'.coll == s.coll
  {
  }

  lemma NewRunIsBegun(s: Sys, step: Step, s': Sys, id: nat)
    requires Next(s, step, s') && id !in s.runs && id in s'.runs
    ensures step.Begin? && step.id == id && s'.coll == s.coll
    ensures s'.runs[id] == NewRun(s, step.hashes, step.stime, step.etime, step.pageCount)
  {
  }

  lemma RunKeepsItsRange(s: Sys, step: Step, s': Sys, id: nat)
    requires Next(s, step, s') && id in s.runs
    ensures id in s'.runs
    ensures var r, r' := s.runs[id], s'.runs[id];
            && r'.hashes == r.hashes && r'.stime == r.stime && r'.etime == r.etime && r'.pageCount == r.pageCount
            && r'.base == r.base
  {
  }

  // What the cache lacks

  ghost function HolesOf(s: Sys): set<Row> {
    Holes(s.store, s.cover, s.coll)
  }

  /** The rows that a mark declares received although they are not stored. */
  ghost function Frozen(s: Sys, step: Step): set<Row> {
    if step.Mark? && step.id in s.runs && Marks(s.runs[step.id]) then
      var r := s.runs[step.id];
      Unheld(s.store, Wanted(s.coll, r.hashes, r.stime, r.To()))
    else {}
  }

  /** A step that stores the row, or uncovers its time: an insertion, a cut above it, a clear. */
  predicate Heals(s: Sys, step: Step, x: Row) {
    match step
    case Insert(id) => id in s.runs && s.runs[id].phase.Answered? && x in s.runs[id].phase.a.rows
    case Evict(_, cut) => cut.Some? && x.endTime < cut.value
    case EvictByOther(upto) => x.endTime < upto
    case Clear => true
    case _ => false
  }

  /** A row is a hole after a step exactly if the step froze it, or it was one before and the step did not
      heal it. */
  lemma StepHoles(s: Sys, step: Step, s': Sys, x: Row)
    requires Inv(s) && Next(s, step, s')
    ensures x in HolesOf(s') <==> x in Frozen(s, step) || (x in HolesOf(s) && !Heals(s, step, x))
  {
    hide RunInv;
    match step
    case Insert(id) => InsertHoles(s, id, x);
    case Evict(_, cut) =>
      if cut.Some? {
        CutHoles(s, cut.value, x);
      }
    case EvictByOther(upto) => CutHoles(s, upto, x);
    case Arrive(row) => ArriveKeeps(s, row, s');
    case Mark(id, after) => MarkHoles(s, id, after, x);
    case _ =>
  }

  lemma MarkHoles(s: Sys, id: nat, after: set<Interval>, x: Row)
    requires CacheInv(s) && Enabled(s, Mark(id, after))
    ensures x in Holes(s.store, after, s.coll) <==> x in Frozen(s, Mark(id, after)) || x in HolesOf(s)
  {
  }

  lemma InsertHoles(s: Sys, id: nat, x: Row)
    requires Inv(s) && Enabled(s, Insert(id))
    ensures var rows := s.runs[id].phase.a.rows;
            x in Holes(InsertAll(s.store, rows), s.cover, s.coll) <==> x in HolesOf(s) && x !in rows
  {
    assert RunInv(s, s.runs[id]);
    InsertAllHolds(s.store, s.runs[id].phase.a.rows, s.coll);
  }

  lemma CutHoles(s: Sys, cut: int, x: Row)
    requires CacheInv(s)
    ensures x in Holes(DropBefore(s.store, cut), Trim(s.cover, cut), s.coll) <==> x in HolesOf(s) && cut <= x.endTime
  {
    TrimExact(s.cover, cut);
  }

  /** A reader makes a hasty mark when, since it began, a clear or an eviction has reached above the end of
      some wanted row of the marked range. */
  ghost predicate HastyMark(s: Sys, step: Step) {
    && step.Mark? && step.id in s.runs && Marks(s.runs[step.id])
    && var r := s.runs[step.id];
       exists x :: x in Wanted(s.coll, r.hashes, r.stime, r.To()) && !r.Keeps(x)
  }

  /** What a mark freezes was a hole before, or the reader's history does not vouch for it. */
  lemma FrozenWereLost(s: Sys, step: Step, s': Sys)
    requires Inv(s) && Next(s, step, s')
    ensures forall x :: x in Frozen(s, step) && x !in HolesOf(s) ==> !s.runs[step.id].Keeps(x)
    ensures !HastyMark(s, step) ==> Frozen(s, step) <= HolesOf(s)
  {
    if step.Mark? && Marks(s.runs[step.id]) {
      var r := s.runs[step.id];
      assert RunInv(s, r);
      forall x | x in Frozen(s, step) && r.Keeps(x)
        ensures x in HolesOf(s)
      {
        assert x in r.base;
        assert x.endTime < r.Start() || x in Wanted(r.base, r.hashes, r.Start(), r.etime);
      }
    }
  }

  // Whole runs of the system

  /** Any cache may be found at the start, holes included. */
  ghost predicate Init(s: Sys) {
    CacheInv(s) && s.runs == map[]
  }

  ghost predicate Behaviour(states: seq<Sys>, steps: seq<Step>) {
    && |states| == |steps| + 1
    && Init(states[0])
    && forall i :: 0 <= i < |steps| ==> Next(states[i], steps[i], states[i + 1])
  }

  lemma {:induction false} BehaviourInv(states: seq<Sys>, steps: seq<Step>, n: nat)
    requires Behaviour(states, steps) && n <= |steps|
    ensures Inv(states[n])
  {
    if n == 0 {
    } else {
      BehaviourInv(states, steps, n - 1);
      NextKeeps(states[n - 1], steps[n - 1], states[n]);
    }
  }

  /** Seal safety. In every behaviour of any number of readers, whatever is covered lies before the seal and,
      but for the holes, is stored, and a row that arrives late never falls inside a covered range. */
  lemma SealSafety(states: seq<Sys>, steps: seq<Step>, n: nat)
    requires Behaviour(states, steps) && n <= |steps|
    ensures var s := states[n];
            && Separated(s.cover) && Genuine(s.store, s.coll) && Sound(s.store, s.cover, s.coll - HolesOf(s))
            && forall h, t :: CoveredAt(s.cover, h, t) ==> t <= s.now - SEAL_MS
    ensures n < |steps| && steps[n].Arrive? ==> !CoveredAt(states[n].cover, steps[n].row.objHash, steps[n].row.endTime)
  {
    BehaviourInv(states, steps, n);
    if n < |steps| && steps[n].Arrive? {
      ArriveKeeps(states[n], steps[n].row, states[n + 1]);
    }
  }

  /** Nothing healed the row between step `m` and state `n`. */
  ghost predicate Unhealed(states: seq<Sys>, steps: seq<Step>, m: nat, n: nat, x: Row)
    requires |states| == |steps| + 1 && n <= |steps|
  {
    forall k :: m <= k < n ==> !Heals(states[k], steps[k], x)
  }

  /** Some mark before state `n` froze the row, and nothing has healed it since. */
  ghost predicate FrozenSince(states: seq<Sys>, steps: seq<Step>, n: nat, x: Row)
    requires |states| == |steps| + 1 && n <= |steps|
  {
    exists m :: 0 <= m < n && x in Frozen(states[m], steps[m]) && Unhealed(states, steps, m + 1, n, x)
  }

  lemma FrozenSinceStep(states: seq<Sys>, steps: seq<Step>, n: nat, x: Row)
    requires |states| == |steps| + 1 && n < |steps|
    ensures FrozenSince(states, steps, n + 1, x) <==>
              x in Frozen(states[n], steps[n]) || (FrozenSince(states, steps, n, x) && !Heals(states[n], steps[n], x))
    ensures Unhealed(states, steps, 0, n + 1, x) <==> Unhealed(states, steps, 0, n, x) && !Heals(states[n], steps[n], x)
  {
    hide Frozen, Heals;
    if FrozenSince(states, steps, n + 1, x) && x !in Frozen(states[n], steps[n]) {
      var m :| 0 <= m < n + 1 && x in Frozen(states[m], steps[m]) && Unhealed(states, steps, m + 1, n + 1, x);
      assert Unhealed(states, steps, m + 1, n, x);
    }
    if FrozenSince(states, steps, n, x) && !Heals(states[n], steps[n], x) {
      var m :| 0 <= m < n && x in Frozen(states[m], steps[m]) && Unhealed(states, steps, m + 1, n, x);
      assert Unhealed(states, steps, m + 1, n + 1, x);
    }
    assert Unhealed(states, steps, n + 1, n + 1, x);
  }

  /** Where holes come from. In every behaviour a row is a hole exactly if it was one at the start or some mark
      froze it, and nothing has healed it since. */
  lemma {:induction false} HolesAreHistory(states: seq<Sys>, steps: seq<Step>, n: nat, x: Row)
    requires Behaviour(states, steps) && n <= |steps|
    ensures x in HolesOf(states[n]) <==>
              (x in HolesOf(states[0]) && Unhealed(states, steps, 0, n, x)) || FrozenSince(states, steps, n, x)
  {
    if n == 0 {
    } else {
      hide Inv, HolesOf, Frozen, Heals, FrozenSince, Unhealed, Next;
      BehaviourInv(states, steps, n - 1);
      HolesAreHistory(states, steps, n - 1, x);
      StepHoles(states[n - 1], steps[n - 1], states[n], x);
      FrozenSinceStep(states, steps, n - 1, x);
    }
  }

  /** A sound cache stays sound, and no reader finds a hole, as long as no reader makes a hasty mark. */
  lemma {:induction false} SoundWithoutHaste(states: seq<Sys>, steps: seq<Step>, n: nat)
    requires Behaviour(states, steps) && n <= |steps| && HolesOf(states[0]) == {}
    requires forall i :: 0 <= i < n ==> !HastyMark(states[i], steps[i])
    ensures HolesOf(states[n]) == {} && Sound(states[n].store, states[n].cover, states[n].coll)
    ensures forall i :: i in states[n].runs ==> states[n].runs[i].holes == {}
  {
    if n == 0 {
      HolesAreNone(states[0]);
    } else {
      SoundWithoutHaste(states, steps, n - 1);
      BehaviourInv(states, steps, n - 1);
      FrozenWereLost(states[n - 1], steps[n - 1], states[n]);
      forall x
        ensures x !in HolesOf(states[n])
      {
        StepHoles(states[n - 1], steps[n - 1], states[n], x);
      }
      HolesAreNone(states[n]);
      NoHoleFound(states[n - 1], steps[n - 1], states[n]);
    }
  }

  lemma HolesAreNone(s: Sys)
    ensures HolesOf(s) == {} <==> Sound(s.store, s.cover, s.coll)
  {
    forall x | x in s.coll && CoveredAt(s.cover, x.objHash, x.endTime)
      ensures x in HolesOf(s) <==> !Holds(s.store, x)
    {
    }
  }

  lemma NoHoleFound(s: Sys, step: Step, s': Sys)
    requires Inv(s) && Next(s, step, s') && Sound(s.store, s.cover, s.coll)
    requires forall i :: i in s.runs ==> s.runs[i].holes == {}
    ensures forall i :: i in s'.runs ==> s'.runs[i].holes == {}
  {
    if step.Test? {
      var r := s.runs[step.id];
      assert RunInv(s, r);
      if FrontCovered(s.cover, r.hashes, r.stime, r.To(), r.cursor) {
        forall x | x in r.Front(s.coll)
          ensures Holds(s.store, x)
        {
          assert CoveredAt(s.cover, x.objHash, x.endTime);
        }
        assert Unheld(s.store, r.Front(s.coll)) == {};
      }
    }
  }

  /** Draining in company. A reader that finished and was not left stuck has been given every row of its range
      that the collector held when it began, but for those it found missing in a range declared received
      and those taken between a cover test and its read, and nothing foreign; a reader that was left stuck,
      every such row up to the instant it stopped at. */
  lemma FinishedRunIsComplete(states: seq<Sys>, steps: seq<Step>, n: nat, id: nat)
    requires Behaviour(states, steps) && n <= |steps| && id in states[n].runs && states[n].runs[id].phase == Finished
    ensures var r := states[n].runs[id];
            && r.got <= Wanted(states[n].coll, r.hashes, r.stime, r.etime)
            && (forall x :: x in Wanted(r.base, r.hashes, r.stime, r.etime) ==>
                  x in r.got || x in r.Missed() || (r.stuck && r.Start() <= x.endTime))
            && (states[n].coll == r.base && r.Missed() == {} && !r.stuck ==>
                  r.got == Wanted(r.base, r.hashes, r.stime, r.etime))
  {
    BehaviourInv(states, steps, n);
    assert RunInv(states[n], states[n].runs[id]);
  }

  // Progress: an honest collector

  /** The reader's answers are honest, and its range starts at or after the epoch: a cursor time of zero means
      "no cursor". */
  ghost predicate Fair(s: Sys, step: Step) {
    match step
    case Begin(_, _, stime, _, _) => 0 <= stime
    case Ask(id, a) =>
      id in s.runs ==>
        var r := s.runs[id];
        Honest(s.coll, BuildRequest(r.hashes, r.stime, r.etime, r.pageCount, r.cursor), a)
    case _ => true
  }

  predicate TurnsPage(step: Step, id: nat) {
    (step.ReadCached? && step.id == id) || (step.Mark? && step.id == id)
  }

  /** How many pages reader `id` has turned. */
  function Turns(steps: seq<Step>, id: nat): nat {
    if steps == [] then 0
    else Turns(steps[..|steps| - 1], id) + if TurnsPage(steps[|steps| - 1], id) then 1 else 0
  }

  /** The reader was given a whole page of rows of the instant it stands on. */
  ghost predicate StandsOnPage(r: Run) {
    |set x | x in r.got && x.endTime == r.Start()| >= Max(r.pageCount, 1)
  }

  ghost predicate MovesOn(r: Run, turns: nat) {
    && 0 <= r.stime && (r.stuck ==> StandsOnPage(r))
    && (if r.phase == Finished then turns <= Max(r.etime, 0) + 1 else turns <= r.cursor.lastXlogTime <= Max(r.etime, 0))
    && (r.phase.Answered? || r.phase.Inserted? || r.phase.Trimmed? ==>
          Advances(r.pageCount, r.stime, r.etime, r.cursor, FetchedPage(r.phase.a, r.cursor)))
  }

  lemma AskMovesOn(s: Sys, id: nat, a: Answer, turns: nat)
    requires Inv(s) && id in s.runs && s.runs[id].phase == Miss && MovesOn(s.runs[id], turns)
    requires Fair(s, Ask(id, a))
    ensures MovesOn(s.runs[id].(phase := Answered(a)), turns)
  {
    var r := s.runs[id];
    AnswerAdvances(s.coll, r.hashes, r.stime, r.etime, r.pageCount, r.cursor, a);
  }

  lemma TurnMovesOn(r: Run, page: Page, turns: nat)
    requires MovesOn(r, turns) && r.phase != Finished && Advances(r.pageCount, r.stime, r.etime, r.cursor, page)
    ensures MovesOn(r.TurnPage(page), turns + 1)
  {
    var r' := r.TurnPage(page);
    if r'.stuck {
      DistinctFits(page.rows, set x | x in r'.got && x.endTime == r'.Start());
    }
  }

  lemma ReadCachedMovesOn(s: Sys, id: nat, rows: seq<Row>, s': Sys, turns: nat)
    requires Inv(s) && Next(s, ReadCached(id, rows), s') && MovesOn(s.runs[id], turns)
    ensures MovesOn(s'.runs[id], turns + 1)
  {
    var r := s.runs[id];
    assert RunInv(s, r);
    StoredPageOk(s.coll, {}, s.store, r.hashes, r.stime, r.etime, r.pageCount, r.cursor, r.To(), rows);
    TurnMovesOn(r, TurnedPage(s, ReadCached(id, rows)), turns);
  }

  lemma MarkMovesOn(s: Sys, id: nat, after: set<Interval>, s': Sys, turns: nat)
    requires Next(s, Mark(id, after), s') && MovesOn(s.runs[id], turns)
    ensures MovesOn(s'.runs[id], turns + 1)
  {
    TurnMovesOn(s.runs[id], TurnedPage(s, Mark(id, after)), turns);
  }

  ghost predicate Moving(s: Sys, id: nat, turns: nat) {
    if id in s.runs then MovesOn(s.runs[id], turns) else turns == 0
  }

  lemma OtherStepsMoveNothing(s: Sys, step: Step, s': Sys, id: nat, turns: nat)
    requires Next(s, step, s') && (OwnedBy(step, id) ==> Fair(s, step)) && Moving(s, id, turns)
    requires !TurnsPage(step, id) && !(step.Ask? && step.id == id)
    ensures Moving(s', id, turns)
  {
    hide StandsOnPage, Advances;
    if id in s.runs && id in s'.runs {
      SameStand(s.runs[id], s'.runs[id]);
    }
  }

  lemma SameStand(r: Run, r': Run)
    requires r'.got == r.got && r'.cursor == r.cursor && r'.stime == r.stime && r'.pageCount == r.pageCount
    ensures StandsOnPage(r') == StandsOnPage(r)
  {
    assert (set x | x in r'.got && x.endTime == r'.Start()) == (set x | x in r.got && x.endTime == r.Start());
  }

  lemma StepMovesOn(s: Sys, step: Step, s': Sys, id: nat, turns: nat)
    requires Inv(s) && Next(s, step, s') && (OwnedBy(step, id) ==> Fair(s, step)) && Moving(s, id, turns)
    ensures Moving(s', id, if TurnsPage(step, id) then turns + 1 else turns)
  {
    if step.ReadCached? && step.id == id {
      ReadCachedMovesOn(s, id, step.rows, s', turns);
    } else if step.Mark? && step.id == id {
      MarkMovesOn(s, id, step.after, s', turns);
    } else if step.Ask? && step.id == id {
      AskMovesOn(s, id, step.a, turns);
    } else {
      OtherStepsMoveNothing(s, step, s', id, turns);
    }
  }

  lemma {:induction false} BehaviourMovesOn(states: seq<Sys>, steps: seq<Step>, n: nat, id: nat)
    requires Behaviour(states, steps) && n <= |steps|
    requires forall i :: 0 <= i < |steps| && OwnedBy(steps[i], id) ==> Fair(states[i], steps[i])
    ensures Moving(states[n], id, Turns(steps[..n], id))
  {
    if n == 0 {
    } else {
      BehaviourMovesOn(states, steps, n - 1, id);
      BehaviourInv(states, steps, n - 1);
      assert steps[..n][..n - 1] == steps[..n - 1];
      StepMovesOn(states[n - 1], steps[n - 1], states[n], id, Turns(steps[..n - 1], id));
    }
  }

  /** Where a reader was left stuck, an instant of its range is crowded, and a row that it was not given and
      did not miss is crowded out. */
  lemma StuckOnCrowd(s: Sys, r: Run, turns: nat)
    requires RunInv(s, r) && MovesOn(r, turns) && r.stuck
    ensures !Uncrowded(s.coll, r.hashes, r.stime, r.etime, r.pageCount)
    ensures forall x :: x in Wanted(r.base, r.hashes, r.stime, r.etime) && x !in r.got && x !in r.Missed() ==>
              CrowdedOut(s.coll, r.hashes, r.stime, r.pageCount, x)
  {
    var t := r.Start();
    var here := set x | x in r.got && x.endTime == t;
    SubsetSize(here, Wanted(s.coll, r.hashes, t, t));
    var y :| y in here;
    assert r.stime <= t <= r.etime;
    forall x | x in Wanted(r.base, r.hashes, r.stime, r.etime) && x !in r.got && x !in r.Missed()
      ensures CrowdedOut(s.coll, r.hashes, r.stime, r.pageCount, x)
    {
      SubsetSize(here, Wanted(s.coll, r.hashes, t, t) - {x});
    }
  }

  /** A reader with an honest collector turns no more pages than its range has instants, plus one, whatever
      the others do. It is left stuck only at a crowded instant of its range; a row that it was not given in
      the end was missed in the cache or is crowded out. */
  lemma ReadersTerminate(states: seq<Sys>, steps: seq<Step>, n: nat, id: nat)
    requires Behaviour(states, steps) && n <= |steps|
    requires forall i :: 0 <= i < |steps| && OwnedBy(steps[i], id) ==> Fair(states[i], steps[i])
    requires id in states[n].runs
    ensures Turns(steps[..n], id) <= Max(states[n].runs[id].etime, 0) + 1
    ensures var s, r := states[n], states[n].runs[id];
            && (Uncrowded(s.coll, r.hashes, r.stime, r.etime, r.pageCount) ==> !r.stuck)
            && (r.phase == Finished ==>
                  forall x :: x in Wanted(r.base, r.hashes, r.stime, r.etime) ==>
                    x in r.got || x in r.Missed() || CrowdedOut(s.coll, r.hashes, r.stime, r.pageCount, x))
  {
    BehaviourMovesOn(states, steps, n, id);
    BehaviourInv(states, steps, n);
    assert RunInv(states[n], states[n].runs[id]);
    if states[n].runs[id].stuck {
      StuckOnCrowd(states[n], states[n].runs[id], Turns(steps[..n], id));
    }
  }

  // Where the guarantees end

  /** The seal allows exactly the delays below SEAL_MS: a row may come in at `now` without ever opening
      a hole in a sound cache that keeps the invariant if and only if it ended after `now - SEAL_MS`. A row that
      is late by SEAL_MS to the millisecond can already be too late. */
  lemma LatenessIsExact(now: int, row: Row)
    ensures (forall s: Sys :: CacheInv(s) && HolesOf(s) == {} && s.now == now && (forall r :: r in s.coll ==> r.txid != row.txid) ==>
               Sound(s.store, s.cover, s.coll + {row}))
            <==> now < row.endTime + SEAL_MS
  {
    if now >= row.endTime + SEAL_MS {
      var s := Sys(now, {}, map[], {Interval(row.objHash, row.endTime, row.endTime)}, map[]);
      assert CacheInv(s);
      assert HolesOf(s) == {};
      assert Interval(row.objHash, row.endTime, row.endTime) in s.cover;
      assert CoveredAt(s.cover, row.objHash, row.endTime);
      assert row in s.coll + {row};
      assert !Sound(s.store, s.cover, s.coll + {row});
    } else {
      forall s: Sys | CacheInv(s) && HolesOf(s) == {} && s.now == now && (forall r :: r in s.coll ==> r.txid != row.txid)
        ensures Sound(s.store, s.cover, s.coll + {row})
      {
        HolesAreNone(s);
      }
    }
  }

  /** A run of one reader over the instant of one row: begin, test, ask, insert, evict, mark. The eviction
      inside the put removes the hour the row lies in. Then a second reader comes and trusts the cover. */
  function HoleStates(row: Row): seq<Sys> {
    var t := row.endTime;
    var a := Answer([row], PastCursor(false, row.txid, t));
    var s0 := Sys(t + 1 + SEAL_MS, {row}, map[], {}, map[]);
    var r0 := NewRun(s0, [row.objHash], t, t + 1, 100);
    var r4 := r0.(phase := Trimmed(a), lost := t + EVICT_STEP_MS);
    var r6 := r4.TurnPage(FetchedPage(a, r4.cursor));
    var s6 := s0.(cover := {Interval(row.objHash, t, t + 1)}, runs := map[0 := r6]);
    var q := r0.(phase := Hit, holes := {row});
    [s0,
     s0.(runs := map[0 := r0]),
     s0.(runs := map[0 := r0.(phase := Miss)]),
     s0.(runs := map[0 := r0.(phase := Answered(a))]),
     s0.(store := map[row.txid := row], runs := map[0 := r0.(phase := Inserted(a))]),
     s0.(runs := map[0 := r4]),
     s6,
     s6.(runs := map[0 := r6, 1 := r0]),
     s6.(runs := map[0 := r6, 1 := q]),
     s6.(runs := map[0 := r6, 1 := q.TurnPage(CachedPage([], 100, t + 1, t + 1, START))])]
  }

  function HoleSteps(row: Row): seq<Step> {
    var t := row.endTime;
    [Begin(0, [row.objHash], t, t + 1, 100),
     Test(0),
     Ask(0, Answer([row], PastCursor(false, row.txid, t))),
     Insert(0),
     Evict(0, Some(t + EVICT_STEP_MS)),
     Mark(0, {Interval(row.objHash, t, t + 1)}),
     Begin(1, [row.objHash], t, t + 1, 100),
     Test(1),
     ReadCached(1, [])]
  }

  /** A put evicts before the page marks. For every row there is a run, the one above, in which the first
      reader is given the row and leaves it as a hole, and a second reader, neither raced nor stuck, then
      finishes without it. */
  lemma EvictionBeforeMarkFreezesAHole(row: Row)
    ensures Behaviour(HoleStates(row), HoleSteps(row)) && HolesOf(HoleStates(row)[0]) == {}
    ensures HastyMark(HoleStates(row)[5], HoleSteps(row)[5])
    ensures var s := HoleStates(row)[6];
            && row in HolesOf(s) && !Sound(s.store, s.cover, s.coll)
            && s.runs[0].phase == Finished && row in s.runs[0].got
    ensures var s := HoleStates(row)[9];
            && row in Wanted(s.runs[1].base, s.runs[1].hashes, s.runs[1].stime, s.runs[1].etime)
            && s.runs[1].phase == Finished && !s.runs[1].stuck && s.runs[1].raced == {} && row !in s.runs[1].got
  {
    HoleBegin(row);
    HoleTest(row);
    HoleAsk(row);
    HoleInsert(row);
    HoleEvict(row);
    HoleMark(row);
    HoleIsFound(row);
    HoleIsRead(row);
    forall i | 0 <= i < |HoleSteps(row)|
      ensures Next(HoleStates(row)[i], HoleSteps(row)[i], HoleStates(row)[i + 1])
    {
      assert i in {0, 1, 2, 3, 4, 5, 6, 7, 8};
    }
  }

  lemma HoleBegin(row: Row)
    ensures Next(HoleStates(row)[0], HoleSteps(row)[0], HoleStates(row)[1])
    ensures Init(HoleStates(row)[0]) && HolesOf(HoleStates(row)[0]) == {}
  {
  }

  lemma HoleTest(row: Row)
    ensures Next(HoleStates(row)[1], HoleSteps(row)[1], HoleStates(row)[2])
  {
    assert !CoveredAt({}, row.objHash, row.endTime);
  }

  lemma HoleAsk(row: Row)
    ensures Next(HoleStates(row)[2], HoleSteps(row)[2], HoleStates(row)[3])
  {
  }

  lemma HoleInsert(row: Row)
    ensures Next(HoleStates(row)[3], HoleSteps(row)[3], HoleStates(row)[4])
  {
    assert InsertAll(HoleStates(row)[3].store, [row]) == HoleStates(row)[4].store by {
      assert InsertAll(map[], [row][..0]) == map[];
    }
  }

  lemma HoleEvict(row: Row)
    ensures Next(HoleStates(row)[4], HoleSteps(row)[4], HoleStates(row)[5])
  {
    var s := HoleStates(row);
    var cut := row.endTime + EVICT_STEP_MS;
    assert DropBefore(s[4].store, cut) == map[];
    assert Trim(s[4].cover, cut) == {};
  }

  lemma HoleCover(row: Row)
    ensures forall h, x :: CoveredAt(HoleStates(row)[6].cover, h, x) <==>
                             h == row.objHash && row.endTime <= x <= row.endTime + 1
  {
    assert Interval(row.objHash, row.endTime, row.endTime + 1) in HoleStates(row)[6].cover;
  }

  lemma HoleMark(row: Row)
    ensures Next(HoleStates(row)[5], HoleSteps(row)[5], HoleStates(row)[6]) && HastyMark(HoleStates(row)[5], HoleSteps(row)[5])
    ensures row in HolesOf(HoleStates(row)[6]) && row in HoleStates(row)[6].runs[0].got
  {
    HoleCover(row);
    var r := HoleStates(row)[5].runs[0];
    assert row in Wanted(HoleStates(row)[5].coll, r.hashes, r.stime, r.To()) && !r.Keeps(row);
  }

  lemma HoleIsFound(row: Row)
    ensures Next(HoleStates(row)[6], HoleSteps(row)[6], HoleStates(row)[7])
    ensures Next(HoleStates(row)[7], HoleSteps(row)[7], HoleStates(row)[8])
  {
    HoleCover(row);
    var s := HoleStates(row);
    var r := s[7].runs[1];
    assert row in r.Front(s[7].coll) && Unheld(s[7].store, r.Front(s[7].coll)) == {row};
    assert r.holes + {row} == s[8].runs[1].holes;
    assert FrontCovered(s[7].cover, r.hashes, r.stime, r.To(), r.cursor);
    assert Tested(s[7], r) == s[8].runs[1];
    assert s[7].runs[1 := s[8].runs[1]] == s[8].runs;
  }

  lemma HoleIsRead(row: Row)
    ensures Next(HoleStates(row)[8], HoleSteps(row)[8], HoleStates(row)[9])
  {
    var s := HoleStates(row);
    assert Stored(s[8].store, [row.objHash], row.endTime, row.endTime + 1) == {};
    assert s[8].runs[1 := s[9].runs[1]] == s[9].runs;
  }

  /** The cover test and the read are two calls: whenever a reader has found its front covered up to the end of
      its range, an eviction above that end and then the read finish it, not stuck, with nothing of what
      was left to read. */
  lemma RaceLosesTheRest(s: Sys, id: nat, cut: int, s1: Sys)
    requires Inv(s) && id in s.runs && s.runs[id].phase == Hit && s.runs[id].To() == s.runs[id].etime < cut
    requires Next(s, EvictByOther(cut), s1)
    ensures Enabled(s1, ReadCached(id, []))
    ensures var r := Apply(s1, ReadCached(id, [])).runs[id];
            && r.phase == Finished && !r.stuck && r.got == s.runs[id].got
            && r.raced == s.runs[id].raced + s.runs[id].Front(s.coll)
  {
    var r := s.runs[id];
    assert Stored(s1.store, r.hashes, r.Start(), r.To()) == {};
    assert r.got + (set x | x in []) == r.got;
    assert (set x | x in r.Front(s.coll) && x.endTime < cut) == r.Front(s.coll);
  }
}
