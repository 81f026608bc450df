/** Where scans flag a slice as done and have not seen a row of it: schedules that show each way in which
    that happens, and the exact condition under which it happens without a fault of the cache. */
module ScanLosses {
  import opened Wrappers
  import opened Rows
  import opened Cover
  import opened CacheDb
  import opened PastPage
  import opened ScanProtocol
  import CP = CacheProtocol
  import Slices

  /** Legal steps with honest answers that lead from one state to another. */
  ghost predicate Leads(job: Job, s: Scan, steps: seq<Step>, s': Scan) {
    ValidJob(job) && Legal(job, s, steps) && AllHonest(job, s, steps) && After(job, s, steps) == s'
  }

  lemma LeadsOne(job: Job, s: Scan, step: Step)
    requires ValidJob(job) && Enabled(job, s, step) && HonestStep(job, s, step)
    ensures Leads(job, s, [step], Apply(job, s, step))
  {
    assert [step][..0] == [];
    assert After(job, s, []) == s && Legal(job, s, []) && AllHonest(job, s, []);
  }

  lemma {:induction false} LeadsThen(job: Job, s: Scan, a: seq<Step>, mid: Scan, b: seq<Step>, s': Scan)
    requires Leads(job, s, a, mid) && Leads(job, mid, b, s')
    ensures Leads(job, s, a + b, s')
  {
    if b == [] {
      assert a + b == a;
    } else {
      var n := |b| - 1;
      LeadsThen(job, s, a, mid, b[..n], After(job, mid, b[..n]));
      assert (a + b)[..|a + b| - 1] == a + b[..n];
    }
  }

  lemma LeadsIs(job: Job, s: Scan, steps: seq<Step>, s': Scan)
    requires Init(job, s) && Leads(job, s, steps, s')
    ensures Schedule(job, s, steps) && AllHonest(job, s, steps) && After(job, s, steps) == s'
  {
  }

  /** The only worker, the only slice. */
  function Alone(p: Phase): map<nat, Phase> {
    map[0 := p]
  }

  function Started(job: Job, s: Scan): Scan
    requires |job.slices| == |job.hashes| == 1
  {
    s.(workers := Alone(Reading(0, 0)), next := 1,
       cache := CP.Move(s.cache, 0, CP.NewRun(s.cache, job.hashes[0], job.slices[0].stime, job.slices[0].etime, job.pageCount)))
  }

  lemma StartSlice(job: Job, s: Scan)
    requires ValidJob(job) && |job.slices| == 1 && s.workers == Alone(Top) && !s.stop && s.next == 0 && 0 !in s.cache.runs
    ensures Leads(job, s, [Look(0)] + [Claim(0)] + [Open(0)], Started(job, s))
  {
    var s1 := Put(s, 0, Claiming);
    var s2 := Put(s1, 0, Opening(0)).(next := 1);
    LeadsOne(job, s, Look(0));
    assert Apply(job, s, Look(0)) == s1;
    LeadsOne(job, s1, Claim(0));
    assert Apply(job, s1, Claim(0)) == s2;
    LeadsOne(job, s2, Open(0));
    assert Apply(job, s2, Open(0)) == Started(job, s) by {
      assert s2.workers[0 := Reading(0, 0)] == Alone(Reading(0, 0));
    }
    LeadsThen(job, s, [Look(0)], s1, [Claim(0)], s2);
    LeadsThen(job, s, [Look(0)] + [Claim(0)], s2, [Open(0)], Started(job, s));
  }

  /** A page has been looked at. */
  function Looked(job: Job, s: Scan, k: nat, page: Page): Scan {
    var unseen := FreshRows(s.seen, page.rows);
    s.(workers := Alone(if page.done then Closing(0) else Reading(0, k + 1)),
       seen := s.seen + Txids(page.rows), scanned := s.scanned + |unseen|, counted := s.counted + Elements(unseen),
       collected := s.collected + Filter(job.matches, unseen))
  }

  lemma LookAtPage(job: Job, s: Scan, k: nat, page: Page)
    requires ValidJob(job) && s.workers == Alone(Deduping(0, k, page)) && k + 1 < MAX_PAGES
    requires page.done || s.scanned + |FreshRows(s.seen, page.rows)| < job.maxRows
    ensures Leads(job, s, [Dedup(0)] + [Count(0)] + [Collect(0)] + [Judge(0)], Looked(job, s, k, page))
  {
    hide Leads, FreshRows, Filter, Elements;
    hide CP.Apply, CP.Enabled, CP.TurnedPage;
    var unseen := FreshRows(s.seen, page.rows);
    var s1 := Put(s, 0, Counting(0, k, page, unseen)).(seen := s.seen + Txids(page.rows));
    var s2 := Put(s1, 0, Matching(0, k, page, unseen)).(scanned := s.scanned + |unseen|, counted := s.counted + Elements(unseen));
    var s3 := Put(s2, 0, Judging(0, k, page)).(collected := s.collected + Filter(job.matches, unseen));
    LeadsOne(job, s, Dedup(0));
    LeadsOne(job, s1, Count(0));
    LeadsOne(job, s2, Collect(0));
    LeadsOne(job, s3, Judge(0));
    assert Apply(job, s3, Judge(0)) == Looked(job, s, k, page) by {
      assert forall p :: s3.workers[0 := p] == Alone(p);
    }
    LeadsThen(job, s, [Dedup(0)], s1, [Count(0)], s2);
    LeadsThen(job, s, [Dedup(0)] + [Count(0)], s2, [Collect(0)], s3);
    LeadsThen(job, s, [Dedup(0)] + [Count(0)] + [Collect(0)], s3, [Judge(0)], Looked(job, s, k, page));
  }

  lemma CloseSlice(job: Job, s: Scan)
    requires ValidJob(job) && s.workers == Alone(Closing(0)) && |s.done| == 1
    ensures Leads(job, s, [Close(0)], s.(workers := Alone(Checking), done := [true]))
  {
    LeadsOne(job, s, Close(0));
    assert s.workers[0 := Checking] == Alone(Checking) && s.done[0 := true] == [true];
  }

  // Crowded instants

  /** A page of a range that lies behind the seal: asked, put, nothing evicted, nothing marked. */
  function Fetched(s: Scan, k: nat, a: Answer): Scan
    requires 0 in s.cache.runs
  {
    var r := s.cache.runs[0];
    s.(workers := Alone(Deduping(0, k, FetchedPage(a, r.cursor))),
       cache := CP.Move(s.cache, 0, r.TurnPage(FetchedPage(a, r.cursor))).(store := InsertAll(s.cache.store, a.rows)))
  }

  lemma CallStep(job: Job, s: Scan, k: nat, c: CP.Step, cache': CP.Sys)
    requires ValidJob(job) && s.workers == Alone(Reading(0, k)) && CP.OwnedBy(c, 0) && CP.WithinPage(c)
    requires CP.Next(s.cache, c, cache') && (c.Ask? ==> HonestStep(job, s, Call(0, c)))
    ensures Leads(job, s, [Call(0, c)], s.(cache := cache'))
  {
    LeadsOne(job, s, Call(0, c));
  }

  ghost predicate AnswerReady(job: Job, s: Scan, k: nat, a: Answer) {
    && ValidJob(job) && s.workers == Alone(Reading(0, k)) && 0 in s.cache.runs && s.cache.runs[0].phase == CP.Ready
    && var r := s.cache.runs[0];
       && r.To() < r.stime <= r.Start()
       && Honest(s.cache.coll, BuildRequest(r.hashes, r.stime, r.etime, r.pageCount, r.cursor), a)
  }

  function Asked(s: Scan, phase: CP.Phase): Scan
    requires 0 in s.cache.runs
  {
    s.(cache := CP.Move(s.cache, 0, s.cache.runs[0].(phase := phase)))
  }

  lemma AskPage(job: Job, s: Scan, k: nat, a: Answer)
    requires AnswerReady(job, s, k, a)
    ensures Leads(job, s, [Call(0, CP.Test(0))] + [Call(0, CP.Ask(0, a))], Asked(s, CP.Answered(a)))
  {
    hide Leads, Apply, Enabled;
    var s1 := Asked(s, CP.Miss);
    assert CP.Next(s.cache, CP.Test(0), s1.cache);
    CallStep(job, s, k, CP.Test(0), s1.cache);
    assert CP.Next(s1.cache, CP.Ask(0, a), Asked(s, CP.Answered(a)).cache);
    CallStep(job, s1, k, CP.Ask(0, a), Asked(s, CP.Answered(a)).cache);
    LeadsThen(job, s, [Call(0, CP.Test(0))], s1, [Call(0, CP.Ask(0, a))], Asked(s, CP.Answered(a)));
  }

  function Stocked(s: Scan, a: Answer, phase: CP.Phase): Scan
    requires 0 in s.cache.runs
  {
    s.(cache := CP.Move(s.cache, 0, s.cache.runs[0].(phase := phase)).(store := InsertAll(s.cache.store, a.rows)))
  }

  lemma StockPage(job: Job, s: Scan, k: nat, a: Answer)
    requires AnswerReady(job, s, k, a)
    ensures Leads(job, Asked(s, CP.Answered(a)), [Call(0, CP.Insert(0))] + [Call(0, CP.Evict(0, None))],
                  Stocked(s, a, CP.Trimmed(a)))
  {
    hide Leads, Apply, Enabled;
    var s2, s3, s4 := Asked(s, CP.Answered(a)), Stocked(s, a, CP.Inserted(a)), Stocked(s, a, CP.Trimmed(a));
    assert CP.Next(s2.cache, CP.Insert(0), s3.cache);
    CallStep(job, s2, k, CP.Insert(0), s3.cache);
    assert CP.Next(s3.cache, CP.Evict(0, None), s4.cache);
    CallStep(job, s3, k, CP.Evict(0, None), s4.cache);
    LeadsThen(job, s2, [Call(0, CP.Insert(0))], s3, [Call(0, CP.Evict(0, None))], s4);
  }

  lemma FetchPage(job: Job, s: Scan, k: nat, a: Answer) returns (steps: seq<Step>)
    requires AnswerReady(job, s, k, a)
    ensures Leads(job, s, steps, Fetched(s, k, a))
  {
    hide Leads;
    AskPage(job, s, k, a);
    StockPage(job, s, k, a);
    MarkNothing(job, s, k, a, Stocked(s, a, CP.Trimmed(a)).cache);
    steps := [Call(0, CP.Test(0))] + [Call(0, CP.Ask(0, a))];
    LeadsThen(job, s, steps, Asked(s, CP.Answered(a)),
              [Call(0, CP.Insert(0))] + [Call(0, CP.Evict(0, None))], Stocked(s, a, CP.Trimmed(a)));
    steps := steps + ([Call(0, CP.Insert(0))] + [Call(0, CP.Evict(0, None))]);
    LeadsThen(job, s, steps, Stocked(s, a, CP.Trimmed(a)), [Fetch(0, CP.Mark(0, s.cache.cover))], Fetched(s, k, a));
    steps := steps + [Fetch(0, CP.Mark(0, s.cache.cover))];
  }

  lemma MarkNothing(job: Job, s: Scan, k: nat, a: Answer, c: CP.Sys)
    requires ValidJob(job) && s.workers == Alone(Reading(0, k)) && 0 in s.cache.runs
    requires var r := s.cache.runs[0];
             && r.To() < r.stime
             && c == s.cache.(store := InsertAll(s.cache.store, a.rows), runs := s.cache.runs[0 := r.(phase := CP.Trimmed(a))])
    ensures Leads(job, s.(cache := c), [Fetch(0, CP.Mark(0, s.cache.cover))], Fetched(s, k, a))
  {
    var s4 := s.(cache := c);
    LeadsOne(job, s4, Fetch(0, CP.Mark(0, s.cache.cover)));
    assert s4.workers[0 := Deduping(0, k, FetchedPage(a, s.cache.runs[0].cursor))] ==
           Alone(Deduping(0, k, FetchedPage(a, s.cache.runs[0].cursor)));
  }

  /** A scan of one slice by one worker, over a collector that does not grow. */
  ghost predicate OneSlice(job: Job, coll: set<Row>, objects: seq<int>, slice: Slices.Slice, pageCount: int) {
    job.first == job.coll == coll && job.slices == [slice] && job.hashes == [objects] && job.pageCount == pageCount
  }

  /** The slice is flagged done, nothing is reported as not scanned, and the row has not been seen, although the
      collector was honest. */
  ghost predicate FlaggedWithout(job: Job, s0: Scan, steps: seq<Step>, r: Row) {
    && Schedule(job, s0, steps) && AllHonest(job, s0, steps)
    && var s := After(job, s0, steps);
       && s.done == [true] && Slices.UnscannedRange(job.slices, s.done) == None
       && Due(job, r) && r.txid !in s.seen && 0 in s.cache.runs
  }

  /** The cache did not mislead the reader about the row. */
  ghost predicate CacheKeptIt(job: Job, s0: Scan, steps: seq<Step>, r: Row)
    requires ValidJob(job)
  {
    var s := After(job, s0, steps);
    0 in s.cache.runs && r !in s.cache.runs[0].Missed()
  }

  /** A scan with an honest collector can flag a slice as done without having seen a row of it, and without any
      fault of the cache, if and only if the row is crowded out: at some instant of the slice, no later than
      the row, a page can be filled without it. */
  lemma LostWithoutCacheIff(coll: set<Row>, objects: seq<int>, slice: Slices.Slice, pageCount: int, r: Row)
    requires UniqueTxids(coll) && 0 <= slice.stime && 0 < pageCount
    requires r in Wanted(coll, objects, slice.stime, slice.etime)
    ensures (exists job, s0, steps :: OneSlice(job, coll, objects, slice, pageCount) && FlaggedWithout(job, s0, steps, r)
                                      && CacheKeptIt(job, s0, steps, r))
            <==> CrowdedOut(coll, objects, slice.stime, pageCount, r)
  {
    if job, s0, steps :| OneSlice(job, coll, objects, slice, pageCount) && FlaggedWithout(job, s0, steps, r)
                         && CacheKeptIt(job, s0, steps, r) {
      assert r in Want(job, 0);
      OnlyCrowdedOut(job, s0, steps, 0, r);
    }
    if CrowdedOut(coll, objects, slice.stime, pageCount, r) {
      var t :| slice.stime <= t <= r.endTime && |Wanted(coll, objects, t, t) - {r}| >= pageCount;
      var job, s0, steps := CrowdedSliceIsFlagged(coll, objects, slice, pageCount, t, r);
    }
  }

  /** The schedule for a crowded instant: a page that goes as far as the instant, and one that stays there. */
  lemma CrowdedSliceIsFlagged(coll: set<Row>, objects: seq<int>, slice: Slices.Slice, pageCount: int, t: int, late: Row)
    returns (job: Job, s0: Scan, steps: seq<Step>)
    requires UniqueTxids(coll) && 0 <= slice.stime <= t <= late.endTime
    requires 0 < pageCount <= |Wanted(coll, objects, t, t) - {late}|
    requires late in Wanted(coll, objects, slice.stime, slice.etime)
    ensures OneSlice(job, coll, objects, slice, pageCount) && FlaggedWithout(job, s0, steps, late)
    ensures CacheKeptIt(job, s0, steps, late)
  {
    hide Leads, After, Legal, AllHonest, Honest, Pending, StandsAt, CacheKeptIt, FlaggedWithout, Txids;
    var crowd := Wanted(coll, objects, t, t) - {late};
    var a := AnswerUpTo(coll, objects, slice.stime, t, slice.etime, pageCount, crowd);
    var b := AnswerUpTo(coll, objects, t, t, slice.etime, pageCount, crowd);
    job := Job(coll, coll, [slice], [objects], pageCount, (r: Row) => false, |a.rows| + 1);
    EmptyCacheOk(slice.stime + CP.SEAL_MS - 1, coll);
    s0 := Fresh(CP.Sys(slice.stime + CP.SEAL_MS - 1, coll, map[], {}, map[]));
    NotAmong(coll, a.rows, late);
    NotAmong(coll, b.rows, late);
    StartSlice(job, s0);
    var s1 := Started(job, s0);
    StartStands(job, s0);
    steps := [Look(0)] + [Claim(0)] + [Open(0)];
    var more, s2 := ReadToCrowd(job, s1, a, t);
    LeadsThen(job, s0, steps, s1, more, s2);
    steps := steps + more;
    var last, s3 := StayAtCrowd(job, s2, if t == 0 then 0 else 1, b, t);
    LeadsThen(job, s0, steps, s2, last, s3);
    steps := steps + last;
    Flagged(job, s0, steps, s3, late);
    KeptIt(job, s0, steps, s3, late);
  }

  lemma KeptIt(job: Job, s0: Scan, steps: seq<Step>, s: Scan, r: Row)
    requires ValidJob(job) && After(job, s0, steps) == s && 0 in s.cache.runs && r !in s.cache.runs[0].Missed()
    ensures CacheKeptIt(job, s0, steps, r)
  {
  }

  lemma NotAmong(coll: set<Row>, rows: seq<Row>, late: Row)
    requires UniqueTxids(coll) && late in coll && late !in rows && forall r :: r in rows ==> r in coll
    ensures late.txid !in Txids(rows)
  {
  }

  lemma StartStands(job: Job, s: Scan)
    requires ValidJob(job) && |job.slices| == |s.done| == 1 && s.cache.coll == job.coll && 0 <= job.slices[0].stime
    requires s.cache.now == job.slices[0].stime + CP.SEAL_MS - 1
    ensures StandsAt(job, Started(job, s), 0, job.slices[0].stime)
  {
  }

  lemma Flagged(job: Job, s0: Scan, steps: seq<Step>, s: Scan, r: Row)
    requires Init(job, s0) && Leads(job, s0, steps, s) && |job.slices| == 1
    requires s.done == [true] && r.txid !in s.seen && 0 in s.cache.runs && r in job.first && r in Want(job, 0)
    ensures FlaggedWithout(job, s0, steps, r) && After(job, s0, steps) == s
  {
    LeadsIs(job, s0, steps, s);
    Slices.UnscannedIsHull(job.slices, s.done);
  }

  /** The reader of the only slice stands at the time, or at the start of its range. */
  ghost predicate StandsAt(job: Job, s: Scan, k: nat, t: int) {
    && ValidJob(job) && |job.slices| == 1 && s.workers == Alone(Reading(0, k)) && |s.done| == 1
    && 0 in s.cache.runs && s.cache.coll == job.coll
    && var r := s.cache.runs[0];
       && r == CP.NewRun(s.cache, job.hashes[0], job.slices[0].stime, job.slices[0].etime, job.pageCount)
               .(cursor := r.cursor, got := r.got)
       && 0 <= r.stime && r.To() < r.stime <= r.Start() && r.Start() == t && (r.cursor == START || r.cursor.lastXlogTime == t)
  }

  /** From the start of the slice to the crowded instant, unless the slice starts with it at time zero. */
  lemma ReadToCrowd(job: Job, s: Scan, a: Answer, t: int) returns (steps: seq<Step>, s': Scan)
    requires |job.slices| == 1 && StandsAt(job, s, 0, job.slices[0].stime) && s.cache.runs[0].cursor == START && s.scanned == 0 && s.seen == {}
    requires job.slices[0].stime <= t && 0 < |a.rows| < job.maxRows
    requires Honest(job.coll, Request(job.hashes[0], job.slices[0].stime, job.slices[0].etime, job.pageCount), a)
    requires a.next.hasMore && a.next.lastXlogTime == t
    ensures Leads(job, s, steps, s') && StandsAt(job, s', if t == 0 then 0 else 1, t)
    ensures s'.cache.runs[0].cursor.lastXlogTime == t && s'.seen <= Txids(a.rows)
  {
    hide Leads, FreshRows, Filter, Honest;
    if t == 0 {
      LeadsNowhere(job, s);
      steps, s' := [], s;
    } else {
      steps := FetchPage(job, s, 0, a);
      var page := FetchedPage(a, START);
      FreshRowsFit({}, page.rows);
      LookAtPage(job, Fetched(s, 0, a), 0, page);
      s' := Looked(job, Fetched(s, 0, a), 0, page);
      var look := [Dedup(0)] + [Count(0)] + [Collect(0)] + [Judge(0)];
      LeadsThen(job, s, steps, Fetched(s, 0, a), look, s');
      steps := steps + look;
    }
  }

  /** A page that stays at the instant ends the slice. */
  lemma StayAtCrowd(job: Job, s: Scan, k: nat, b: Answer, t: int) returns (steps: seq<Step>, s': Scan)
    requires StandsAt(job, s, k, t) && k < 2
    requires Honest(job.coll, Request(job.hashes[0], t, job.slices[0].etime, job.pageCount), b)
    requires b.next.hasMore && b.next.lastXlogTime == t
    requires s.cache.runs[0].cursor.lastXlogTime == t
    ensures Leads(job, s, steps, s') && s'.done == [true] && s'.seen == s.seen + Txids(b.rows)
    ensures 0 in s'.cache.runs && s'.cache.runs[0].Missed() == {}
  {
    hide Leads;
    steps := FetchPage(job, s, k, b);
    var page := FetchedPage(b, s.cache.runs[0].cursor);
    LookAtPage(job, Fetched(s, k, b), k, page);
    var s2 := Looked(job, Fetched(s, k, b), k, page);
    CloseSlice(job, s2);
    s' := s2.(workers := Alone(Checking), done := [true]);
    var look := [Dedup(0)] + [Count(0)] + [Collect(0)] + [Judge(0)];
    LeadsThen(job, s, steps, Fetched(s, k, b), look, s2);
    LeadsThen(job, s, steps + look, s2, [Close(0)], s');
    steps := steps + look + [Close(0)];
  }

  lemma LeadsNowhere(job: Job, s: Scan)
    requires ValidJob(job)
    ensures Leads(job, s, [], s)
  {
  }

  /** A scan of one slice by one worker before its first step. */
  function Fresh(cache: CP.Sys): Scan {
    Scan(cache, 0, false, false, {}, 0, [], seq(1, _ => false), Alone(Top), {}, false)
  }

  lemma EmptyCacheOk(now: int, coll: set<Row>)
    requires UniqueTxids(coll)
    ensures CP.Inv(CP.Sys(now, coll, map[], {}, map[]))
  {
    assert forall h, t :: !CoveredAt({}, h, t);
  }

  lemma {:induction false} FreshRowsFit(seen: set<int>, rows: seq<Row>)
    ensures |FreshRows(seen, rows)| <= |rows|
  {
    if rows == [] {
    } else {
      FreshRowsFit(seen, rows[..|rows| - 1]);
    }
  }

  // What the cache can cost

  /** One row, stored or not, and its time covered. */
  function RowCache(row: Row, store: map<int, Row>): CP.Sys {
    CP.Sys(row.endTime + 1 + CP.SEAL_MS, {row}, store, RowCover(row), map[])
  }

  function RowCover(row: Row): set<Interval> {
    {Interval(row.objHash, row.endTime, row.endTime + 1)}
  }

  lemma RowCovered(row: Row)
    ensures forall h, x :: CoveredAt(RowCover(row), h, x) <==> h == row.objHash && row.endTime <= x <= row.endTime + 1
  {
    assert Interval(row.objHash, row.endTime, row.endTime + 1) in RowCover(row);
  }

  lemma RowCacheOk(row: Row, store: map<int, Row>)
    requires store == map[] || store == map[row.txid := row]
    ensures CP.Inv(RowCache(row, store))
  {
    RowCovered(row);
  }

  function RowJob(row: Row): Job {
    var t := row.endTime;
    Job({row}, {row}, [Slices.Slice(Slices.DateKey(t, 0), t, t + 1)], [[row.objHash]], 100, (r: Row) => true, 1)
  }

  /** The reader of the row's slice. */
  function RowRead(row: Row, phase: CP.Phase, holes: set<Row>): CP.Run {
    CP.Run([row.objHash], row.endTime, row.endTime + 1, 100, row.endTime + 1, START, phase, {},
           {row}, row.endTime, false, holes, {}, false)
  }

  function RowSys(row: Row, store: map<int, Row>, r: CP.Run): CP.Sys {
    RowCache(row, store).(runs := map[0 := r])
  }

  /** The cover test says that the cache can answer, whether the row is stored or a hole. */
  lemma TestHits(row: Row, store: map<int, Row>, holes: set<Row>)
    requires (store == map[] && holes == {row}) || (store == map[row.txid := row] && holes == {})
    ensures CP.Next(RowSys(row, store, RowRead(row, CP.Ready, {})), CP.Test(0), RowSys(row, store, RowRead(row, CP.Hit, holes)))
  {
    var c := RowSys(row, store, RowRead(row, CP.Ready, {}));
    var r := c.runs[0];
    RowCovered(row);
    assert FrontCovered(c.cover, r.hashes, r.stime, r.To(), r.cursor);
    assert row in r.Front(c.coll);
    assert Unheld(c.store, r.Front(c.coll)) == holes;
    assert CP.Tested(c, r) == RowRead(row, CP.Hit, holes);
    assert c.runs[0 := RowRead(row, CP.Hit, holes)] == map[0 := RowRead(row, CP.Hit, holes)];
  }

  /** The empty page that ends the slice. */
  function EmptyPage(row: Row): Page {
    CachedPage([], 100, row.endTime + 1, row.endTime + 1, START)
  }

  lemma NothingToRead(row: Row, c: CP.Sys)
    requires c.store == map[] && 0 in c.runs && c.runs[0].phase == CP.Hit
    requires var r := c.runs[0];
             && r.hashes == [row.objHash] && r.cursor == START && r.stime == row.endTime && r.etime == r.seal == row.endTime + 1
             && r.pageCount == 100
    ensures CP.Next(c, CP.ReadCached(0, []), CP.Move(c, 0, c.runs[0].TurnPage(EmptyPage(row))))
  {
    assert Stored(c.store, [row.objHash], row.endTime, row.endTime + 1) == {};
  }

  /** Reads the empty page, looks at it and closes the slice. */
  lemma EndEmpty(row: Row, s: Scan) returns (steps: seq<Step>, s': Scan)
    requires ValidJob(RowJob(row)) && s.workers == Alone(Reading(0, 0)) && |s.done| == 1 && 0 in s.cache.runs
    requires CP.Next(s.cache, CP.ReadCached(0, []), CP.Move(s.cache, 0, s.cache.runs[0].TurnPage(EmptyPage(row))))
    requires s.cache.runs[0].pageCount == 100 && s.cache.runs[0].To() == s.cache.runs[0].etime == row.endTime + 1
    requires s.cache.runs[0].cursor == START
    ensures Leads(RowJob(row), s, steps, s') && s'.done == [true] && s'.seen == s.seen
    ensures 0 in s'.cache.runs && s'.cache.runs[0] == s.cache.runs[0].TurnPage(EmptyPage(row))
  {
    hide Leads;
    var job, page := RowJob(row), EmptyPage(row);
    ReadStep(job, s, page);
    var s1 := Put(s, 0, Deduping(0, 0, page)).(cache := CP.Move(s.cache, 0, s.cache.runs[0].TurnPage(page)));
    assert s.workers[0 := Deduping(0, 0, page)] == Alone(Deduping(0, 0, page));
    LookAtPage(job, s1, 0, page);
    var s2 := Looked(job, s1, 0, page);
    CloseSlice(job, s2);
    s' := s2.(workers := Alone(Checking), done := [true]);
    var look := [Dedup(0)] + [Count(0)] + [Collect(0)] + [Judge(0)];
    LeadsThen(job, s, [Fetch(0, CP.ReadCached(0, []))], s1, look, s2);
    LeadsThen(job, s, [Fetch(0, CP.ReadCached(0, []))] + look, s2, [Close(0)], s');
    steps := [Fetch(0, CP.ReadCached(0, []))] + look + [Close(0)];
  }

  lemma ReadStep(job: Job, s: Scan, page: Page)
    requires ValidJob(job) && s.workers == Alone(Reading(0, 0)) && 0 in s.cache.runs
    requires page == CachedPage([], Max(s.cache.runs[0].pageCount, 1), s.cache.runs[0].To(), s.cache.runs[0].etime, s.cache.runs[0].cursor)
    requires CP.Next(s.cache, CP.ReadCached(0, []), CP.Move(s.cache, 0, s.cache.runs[0].TurnPage(page)))
    ensures Leads(job, s, [Fetch(0, CP.ReadCached(0, []))],
                  Put(s, 0, Deduping(0, 0, page)).(cache := CP.Move(s.cache, 0, s.cache.runs[0].TurnPage(page))))
  {
    assert CP.TurnedPage(s.cache, CP.ReadCached(0, [])) == page;
    LeadsOne(job, s, Fetch(0, CP.ReadCached(0, [])));
  }

  /** The start of the row's slice up to a successful cover test. */
  lemma BeginRow(row: Row, store: map<int, Row>, holes: set<Row>) returns (steps: seq<Step>, s': Scan)
    requires (store == map[] && holes == {row}) || (store == map[row.txid := row] && holes == {})
    ensures Init(RowJob(row), Fresh(RowCache(row, store))) && Leads(RowJob(row), Fresh(RowCache(row, store)), steps, s')
    ensures s' == Started(RowJob(row), Fresh(RowCache(row, store))).(cache := RowSys(row, store, RowRead(row, CP.Hit, holes)))
  {
    hide Leads;
    var job, s0 := RowJob(row), Fresh(RowCache(row, store));
    RowCacheOk(row, store);
    StartSlice(job, s0);
    var s1 := Started(job, s0);
    assert s1.cache == RowSys(row, store, RowRead(row, CP.Ready, {}));
    TestHits(row, store, holes);
    CallStep(job, s1, 0, CP.Test(0), RowSys(row, store, RowRead(row, CP.Hit, holes)));
    s' := s1.(cache := RowSys(row, store, RowRead(row, CP.Hit, holes)));
    steps := [Look(0)] + [Claim(0)] + [Open(0)];
    LeadsThen(job, s0, steps, s1, [Call(0, CP.Test(0))], s');
    steps := steps + [Call(0, CP.Test(0))];
  }

  /** For every row there is a scan over a cache that declares its time received and does not hold it, in which
      its slice is flagged done without the row, the reader being neither raced nor stuck. */
  lemma HoleIsFlagged(row: Row) returns (job: Job, s0: Scan, steps: seq<Step>)
    ensures job.first == job.coll == {row} && FlaggedWithout(job, s0, steps, row)
    ensures var r := After(job, s0, steps).cache.runs[0]; r.holes == {row} && r.raced == {} && !r.stuck
  {
    hide Leads, After, Legal, AllHonest, Pending;
    job, s0 := RowJob(row), Fresh(RowCache(row, map[]));
    var s1, s2, more;
    steps, s1 := BeginRow(row, map[], {row});
    NothingToRead(row, s1.cache);
    more, s2 := EndEmpty(row, s1);
    LeadsThen(job, s0, steps, s1, more, s2);
    steps := steps + more;
    Flagged(job, s0, steps, s2, row);
  }

  /** For every row there is a scan over a sound cache that holds it, in which its slice is flagged done without
      the row, the reader not being stuck: another user of the cache evicts between the cover test and the
      read, by one step above the oldest row. */
  lemma RacedSliceIsFlagged(row: Row) returns (job: Job, s0: Scan, steps: seq<Step>)
    ensures job.first == job.coll == {row} && CP.HolesOf(s0.cache) == {} && FlaggedWithout(job, s0, steps, row)
    ensures var r := After(job, s0, steps).cache.runs[0]; r.holes == {} && r.raced == {row} && !r.stuck
  {
    hide Leads, After, Legal, AllHonest, Pending, FlaggedWithout, RowCache, RacedCache;
    var store := map[row.txid := row];
    job, s0 := RowJob(row), Fresh(RowCache(row, store));
    StoredIsNoHole(row);
    var s1, s3, more;
    steps, s1 := BeginRow(row, store, {});
    var evict := CP.EvictByOther(row.endTime + EVICT_STEP_MS);
    var s2 := s1.(cache := RacedCache(row));
    RowIsTaken(row);
    EvictStep(job, s1, row.endTime + EVICT_STEP_MS, RacedCache(row));
    LeadsThen(job, s0, steps, s1, [Others(evict)], s2);
    steps := steps + [Others(evict)];
    NothingToRead(row, s2.cache);
    more, s3 := EndEmpty(row, s2);
    LeadsThen(job, s0, steps, s2, more, s3);
    steps := steps + more;
    Flagged(job, s0, steps, s3, row);
  }

  lemma StoredIsNoHole(row: Row)
    ensures CP.HolesOf(RowCache(row, map[row.txid := row])) == {} && RowCache(row, map[row.txid := row]).coll == {row}
  {
  }

  /** What the eviction leaves. */
  function RacedCache(row: Row): CP.Sys {
    var cut := row.endTime + EVICT_STEP_MS;
    RowSys(row, map[], RowRead(row, CP.Hit, {}).(lost := cut, raced := {row})).(cover := Trim(RowCover(row), cut))
  }

  lemma RowIsTaken(row: Row)
    ensures RacedCache(row) == CP.CutAt(RowSys(row, map[row.txid := row], RowRead(row, CP.Hit, {})), row.endTime + EVICT_STEP_MS)
    ensures RacedCache(row).runs == map[0 := RowRead(row, CP.Hit, {}).(lost := row.endTime + EVICT_STEP_MS, raced := {row})]
    ensures RacedCache(row).store == map[]
  {
    var cut := row.endTime + EVICT_STEP_MS;
    var r := RowRead(row, CP.Hit, {});
    assert r.Front({row}) == {row};
    assert (set x | x in r.Front({row}) && x.endTime < cut) == {row};
    assert DropBefore(map[row.txid := row], cut) == map[];
    assert r.raced + {row} == {row};
    assert r.Evicted(cut, {row}) == r.(lost := cut, raced := {row});
    var c := CP.CutAt(RowSys(row, map[row.txid := row], r), cut);
    assert c.store == map[] && c.runs == map[0 := r.Evicted(cut, {row})];
    assert c.now == RacedCache(row).now && c.cover == RacedCache(row).cover;
  }

  lemma EvictStep(job: Job, s: Scan, cut: int, c: CP.Sys)
    requires ValidJob(job) && s.cache.coll <= job.coll && c == CP.CutAt(s.cache, cut)
    ensures Leads(job, s, [Others(CP.EvictByOther(cut))], s.(cache := c))
  {
    assert !OfScan(job, CP.EvictByOther(cut));
    LeadsOne(job, s, Others(CP.EvictByOther(cut)));
  }
}
