/** How long a scan can take: whatever the workers' schedule, the answers of the collector and the other
    users of the cache, the workers together take a bounded number of steps. */
module ScanProgress {
  import opened Rows
  import opened PastPage
  import opened ScanProtocol
  import CP = CacheProtocol

  /** Steps from the opening of a slice to the worker's next claim, at most. */
  const SLICE_STEPS: nat := 10 * MAX_PAGES + 4

  function OwnSteps(steps: seq<Step>): nat {
    if steps == [] then 0
    else OwnSteps(steps[..|steps| - 1]) + if steps[|steps| - 1].Others? then 0 else 1
  }

  /** How many steps of its own a worker may take before it claims a slice again or has left. */
  function Weight(cache: CP.Sys, p: Phase): nat {
    match p
    case Exited => 0
    case Claiming => 1
    case Top => 2
    case Checking => 3
    case Bailing => 3
    case Closing(_) => 4
    case Opening(_) => SLICE_STEPS
    case Reading(i, k) => PagesLeft(k) + 4 + if i in cache.runs then CallsLeft(cache.runs[i].phase) else 0
    case Deduping(_, k, _) => PagesLeft(k) + 8
    case Counting(_, k, _, _) => PagesLeft(k) + 7
    case Matching(_, k, _, _) => PagesLeft(k) + 6
    case Judging(_, k, _) => PagesLeft(k) + 5
  }

  function PagesLeft(k: nat): nat {
    if k < MAX_PAGES then 10 * (MAX_PAGES - 1 - k) else 0
  }

  function CallsLeft(p: CP.Phase): nat {
    match p
    case Ready => 9
    case Miss => 8
    case Answered(_) => 7
    case Inserted(_) => 6
    case Trimmed(_) => 5
    case Hit => 5
    case Finished => 5
  }

  function Unclaimed(job: Job, s: Scan): nat {
    if s.next < |job.slices| then |job.slices| - s.next else 0
  }

  function Weights(s: Scan): map<nat, nat> {
    map w | w in s.workers :: Weight(s.cache, s.workers[w])
  }

  ghost function Total(m: map<nat, nat>): nat
    decreases |m|
  {
    if m == map[] then 0
    else
      var w :| w in m;
      m[w] + Total(m - {w})
  }

  ghost function StepsLeft(job: Job, s: Scan): nat {
    SLICE_STEPS * Unclaimed(job, s) + Total(Weights(s))
  }

  // Sums over workers

  lemma {:induction false} TotalWithout(m: map<nat, nat>, w: nat)
    requires w in m
    ensures Total(m) == m[w] + Total(m - {w})
    decreases |m|
  {
    var v :| v in m && Total(m) == m[v] + Total(m - {v});
    if v != w {
      TotalWithout(m - {v}, w);
      TotalWithout(m - {w}, v);
      assert m - {v} - {w} == m - {w} - {v};
    }
  }

  lemma TotalUpdated(m: map<nat, nat>, w: nat, x: nat)
    requires w in m
    ensures Total(m[w := x]) == Total(m) - m[w] + x
  {
    TotalWithout(m, w);
    TotalWithout(m[w := x], w);
    assert m[w := x] - {w} == m - {w};
  }

  lemma {:induction false} TotalOfTwos(m: map<nat, nat>)
    requires forall w :: w in m ==> m[w] == 2
    ensures Total(m) == 2 * |m|
    decreases |m|
  {
    if m == map[] {
    } else {
      var w :| w in m;
      TotalWithout(m, w);
      TotalOfTwos(m - {w});
      assert |m| == |m - {w}| + 1 by {
        assert m == (m - {w})[w := m[w]];
      }
    }
  }

  // One step

  ghost predicate KeepsWeight(s: Scan, s': Scan, v: nat) {
    v in s.workers && s.workers[v].Reading? ==>
      var i := s.workers[v].i;
      i in s.cache.runs && i in s'.cache.runs && s'.cache.runs[i].phase == s.cache.runs[i].phase
  }

  lemma UnmovedKeepsWeight(job: Job, s: Scan, s': Scan, v: nat)
    requires ValidJob(job) && SeenInv(job, s) && v in s.workers
    requires forall i: nat :: HoldsSlice(s.workers[v], i) ==> Unmoved(s.cache, s'.cache, i)
    ensures KeepsWeight(s, s', v)
  {
    assert PhaseSeen(job, s.cache, s.seen, s.workers[v]);
    if s.workers[v].Reading? {
      assert HoldsSlice(s.workers[v], s.workers[v].i);
    }
  }

  lemma OneMoves(s: Scan, w: nat, s': Scan)
    requires w in s.workers && w in s'.workers && s'.workers == s.workers[w := s'.workers[w]]
    requires forall v :: v in s.workers && v != w ==> KeepsWeight(s, s', v)
    ensures Total(Weights(s')) == Total(Weights(s)) - Weight(s.cache, s.workers[w]) + Weight(s'.cache, s'.workers[w])
  {
    assert Weights(s') == Weights(s)[w := Weight(s'.cache, s'.workers[w])] by {
      forall v | v in s.workers && v != w
        ensures Weight(s'.cache, s.workers[v]) == Weight(s.cache, s.workers[v])
      {
        assert KeepsWeight(s, s', v);
      }
    }
    TotalUpdated(Weights(s), w, Weight(s'.cache, s'.workers[w]));
  }

  /** The steps of other users of the cache, and of the clock and the collector, cost nothing. */
  lemma OthersCostNothing(job: Job, s: Scan, step: Step, s': Scan)
    requires ValidJob(job) && SeenInv(job, s) && Next(job, s, step, s') && step.Others?
    requires forall w :: w in s.workers ==> forall i: nat :: HoldsSlice(s.workers[w], i) ==> i < |job.slices|
    ensures StepsLeft(job, s') == StepsLeft(job, s)
  {
    hide CP.Apply, CP.Enabled, CP.Inv, CP.TurnedPage;
    hide SeenInv, Unmoved, HoldsSlice;
    forall w | w in s.workers
      ensures KeepsWeight(s, s', w)
    {
      forall i: nat | HoldsSlice(s.workers[w], i)
        ensures Unmoved(s.cache, s'.cache, i)
      {
        OthersUnmoved(job, s, step, s', i);
      }
      UnmovedKeepsWeight(job, s, s', w);
    }
    assert Weights(s') == Weights(s) by {
      forall w | w in s.workers
        ensures Weight(s'.cache, s.workers[w]) == Weight(s.cache, s.workers[w])
      {
        assert KeepsWeight(s, s', w);
      }
    }
  }

  /** A step outside the cache makes its worker lighter, or takes a slice number. */
  lemma MoveCosts(job: Job, s: Scan, step: Step, s': Scan)
    requires ValidJob(job) && Next(job, s, step, s') && CacheStep(job, s, step).None? && !step.Others?
    ensures step.w in s.workers && step.w in s'.workers
    ensures SLICE_STEPS * Unclaimed(job, s') + Weight(s'.cache, s'.workers[step.w]) <
            SLICE_STEPS * Unclaimed(job, s) + Weight(s.cache, s.workers[step.w])
  {
    hide CP.Apply, CP.Enabled, CP.Inv, CP.TurnedPage;
    hide OfScan, Filter, FreshRows, Txids, Elements, PagesLeft;
    if step.Judge? {
      JudgeCosts(job, s, step, s');
    } else if step.Claim? {
      ClaimCosts(job, s, step, s');
    }
  }

  lemma JudgeCosts(job: Job, s: Scan, step: Step, s': Scan)
    requires ValidJob(job) && Next(job, s, step, s') && step.Judge?
    ensures step.w in s.workers && step.w in s'.workers && s'.next == s.next
    ensures Weight(s'.cache, s'.workers[step.w]) < Weight(s.cache, s.workers[step.w])
  {
    hide OfScan, PagesLeft;
    NextPageCosts(s.workers[step.w].k);
  }

  lemma ClaimCosts(job: Job, s: Scan, step: Step, s': Scan)
    requires ValidJob(job) && Next(job, s, step, s') && step.Claim?
    ensures step.w in s.workers && step.w in s'.workers
    ensures SLICE_STEPS * Unclaimed(job, s') + Weight(s'.cache, s'.workers[step.w]) <
            SLICE_STEPS * Unclaimed(job, s) + Weight(s.cache, s.workers[step.w])
  {
    hide OfScan, PagesLeft;
  }

  lemma NextPageCosts(k: nat)
    ensures k + 1 < MAX_PAGES ==> PagesLeft(k + 1) + 10 == PagesLeft(k)
  {
  }

  lemma MoveFrame(job: Job, s: Scan, step: Step, s': Scan)
    requires ValidJob(job) && Next(job, s, step, s') && CacheStep(job, s, step).None? && !step.Others?
    ensures s'.cache == s.cache
    ensures step.w in s.workers && step.w in s'.workers && s'.workers == s.workers[step.w := s'.workers[step.w]]
  {
    hide CP.Apply, CP.Enabled, CP.Inv, CP.TurnedPage;
    hide OfScan, Filter, FreshRows, Txids, Elements;
  }

  lemma CallCosts(s: CP.Sys, c: CP.Step, s': CP.Sys, i: nat)
    requires CP.Next(s, c, s') && CP.OwnedBy(c, i) && CP.WithinPage(c)
    ensures i in s.runs && i in s'.runs && CallsLeft(s'.runs[i].phase) < CallsLeft(s.runs[i].phase)
  {
  }

  lemma TurnCosts(s: CP.Sys, c: CP.Step, i: nat)
    requires CP.Enabled(s, c) && CP.OwnedBy(c, i) && (c.ReadCached? || c.Mark?)
    ensures i in s.runs && CallsLeft(s.runs[i].phase) == 5
  {
  }

  lemma OpenCosts(s: CP.Sys, c: CP.Step, s': CP.Sys, i: nat)
    requires CP.Next(s, c, s') && CP.OwnedBy(c, i) && c.Begin?
    ensures i in s'.runs && CallsLeft(s'.runs[i].phase) == 9
  {
  }

  /** So does a step in the cache. */
  lemma CacheMoveCosts(job: Job, s: Scan, step: Step, s': Scan)
    requires ValidJob(job) && Next(job, s, step, s') && (step.Open? || step.Call? || step.Fetch?)
    ensures step.w in s.workers && step.w in s'.workers && s'.next == s.next
    ensures Weight(s'.cache, s'.workers[step.w]) < Weight(s.cache, s.workers[step.w])
  {
    hide CP.Apply, CP.Enabled, CP.Inv, CP.TurnedPage;
    var i := s.workers[step.w].i;
    if step.Open? {
      OpenCosts(s.cache, Begins(job, i), s'.cache, i);
    } else if step.Call? {
      CallCosts(s.cache, step.c, s'.cache, i);
    } else {
      TurnCosts(s.cache, step.c, i);
    }
  }

  lemma SameCacheUnmoved(cache: CP.Sys)
    ensures forall i: nat :: Unmoved(cache, cache, i)
  {
  }

  lemma NoCacheStep(job: Job, s: Scan, step: Step)
    requires ValidJob(job) && !step.Others? && !step.Open? && !step.Call? && !step.Fetch?
    ensures CacheStep(job, s, step).None?
  {
  }

  lemma OwnStepCosts(job: Job, s: Scan, step: Step, s': Scan)
    requires Inv(job, s) && Next(job, s, step, s') && !step.Others?
    ensures StepsLeft(job, s') < StepsLeft(job, s)
  {
    hide CP.Apply, CP.Enabled, CP.Inv, CP.TurnedPage;
    hide Apply, Enabled, CacheOk, RowInv, CountInv, LeftInv, SeenInv, Unmoved, Weight, HoldsSlice;
    if step.Open? || step.Call? || step.Fetch? {
      OwnStepFrame(job, s, step, s');
      CacheMoveCosts(job, s, step, s');
      forall v | v in s.workers && v != step.w
        ensures KeepsWeight(s, s', v)
      {
        assert HoldApart(s.workers[v], s.workers[step.w]);
        forall i: nat | HoldsSlice(s.workers[v], i)
          ensures Unmoved(s.cache, s'.cache, i)
        {
          OwnStepUnmoved(job, s, step, s', i);
        }
        UnmovedKeepsWeight(job, s, s', v);
      }
    } else {
      NoCacheStep(job, s, step);
      MoveFrame(job, s, step, s');
      MoveCosts(job, s, step, s');
      forall v | v in s.workers && v != step.w
        ensures KeepsWeight(s, s', v)
      {
        SameCacheUnmoved(s.cache);
        UnmovedKeepsWeight(job, s, s', v);
      }
    }
    OneMoves(s, step.w, s');
  }

  // Whole scans

  /** Every step of a worker uses up one of the steps left. */
  lemma {:induction false} StepsRunOut(job: Job, s0: Scan, steps: seq<Step>)
    requires Schedule(job, s0, steps)
    ensures OwnSteps(steps) + StepsLeft(job, After(job, s0, steps)) <= StepsLeft(job, s0)
  {
    if steps == [] {
    } else {
      var n := |steps| - 1;
      StepsRunOut(job, s0, steps[..n]);
      ScheduleInv(job, s0, steps[..n]);
      var mid := After(job, s0, steps[..n]);
      if steps[n].Others? {
        OthersCostNothing(job, mid, steps[n], After(job, s0, steps));
      } else {
        OwnStepCosts(job, mid, steps[n], After(job, s0, steps));
      }
    }
  }

  /** However the steps interleave and whatever the collector answers, the workers of a scan together take
      at most some two thousand steps for each slice and two for each worker. */
  lemma ScansEnd(job: Job, s0: Scan, steps: seq<Step>)
    requires Schedule(job, s0, steps)
    ensures OwnSteps(steps) <= SLICE_STEPS * |job.slices| + 2 * |s0.workers|
  {
    StepsRunOut(job, s0, steps);
    TotalOfTwos(Weights(s0));
    assert Weights(s0).Keys == s0.workers.Keys;
    assert |Weights(s0)| == |Weights(s0).Keys| == |s0.workers.Keys|;
  }
}
