/** What every plan satisfies: slots, conservation and maximality of the packing, who may be
    torn down, and progress. */
module PlannerLaws {
  import opened Arithmetic
  import opened Pool
  import opened Planner

  // ---------------------------------------------------------------------------
  // Slots
  // ---------------------------------------------------------------------------

  lemma {:induction false} LowestFreeIsLowest(used: set<nat>, s: nat, max: nat)
    ensures var r := LowestFree(used, s, max);
            && (r.Some? ==> s <= r.value < max && r.value !in used && forall k :: s <= k < r.value ==> k in used)
            && (r.None? ==> forall k :: s <= k < max ==> k in used)
    decreases max - s
  {
    if s < max && s in used {
      LowestFreeIsLowest(used, s + 1, max);
    }
  }

  lemma {:induction false} AllSlotsUsed(used: set<nat>, max: nat)
    requires forall k :: 0 <= k < max ==> k in used
    ensures |used| >= max
  {
    if max > 0 {
      AllSlotsUsed(used - {max - 1}, max - 1);
    }
  }

  /** With fewer slots in use than there are, one is free. */
  lemma FreeSlotExists(used: set<nat>, max: nat)
    requires |used| < max
    ensures LowestFree(used, 0, max).Some?
  {
    LowestFreeIsLowest(used, 0, max);
    if LowestFree(used, 0, max).None? {
      AllSlotsUsed(used, max);
    }
  }

  ghost predicate SlotsFresh(p: Packing, used: set<nat>, max: nat) {
    && used <= p.used && |p.used| == |used| + |p.spawns|
    && (forall k :: 0 <= k < |p.spawns| ==> p.spawns[k].slot < max && p.spawns[k].slot in p.used - used)
    && (forall i, j :: 0 <= i < j < |p.spawns| ==> p.spawns[i].slot != p.spawns[j].slot)
  }

  lemma TakeKeepsSlotsFresh(p: Packing, used: set<nat>, max: nat, got: Size, job: DemandSignal)
    requires SlotsFresh(p, used, max) && LowestFree(p.used, 0, max).Some? && got.mib <= p.freeMib
    ensures SlotsFresh(Take(p, LowestFree(p.used, 0, max).value, got, job), used, max)
  {
    LowestFreeIsLowest(p.used, 0, max);
  }

  /** The loop hands out fresh slots only, and it never stops for want of one: it either looks
      at every job or fills its budget. */
  lemma {:induction false} PackSlots(p: Packing, jobs: seq<DemandSignal>, budget: nat, max: nat, size: Sizing,
                                     used: set<nat>)
    requires SlotsFresh(p, used, max) && |used| + budget <= max && |p.spawns| <= budget
    ensures var q := PackJobs(p, jobs, budget, max, size);
            && SlotsFresh(q, used, max) && |q.spawns| <= budget
            && (|q.spawns| == budget || |q.spawns| + |q.deferred| == |p.spawns| + |p.deferred| + |jobs|)
    decreases |jobs|
  {
    if jobs != [] && |p.spawns| < budget {
      FreeSlotExists(p.used, max);
      var slot := LowestFree(p.used, 0, max).value;
      if SizeFits(p, size(jobs[0])) {
        TakeKeepsSlotsFresh(p, used, max, size(jobs[0]), jobs[0]);
      }
      PackSlots(PlaceJob(p, slot, jobs[0], size), jobs[1..], budget, max, size, used);
    }
  }

  lemma ShrinkSlots(p: Packing, budget: nat, max: nat, size: Sizing, used: set<nat>)
    requires SlotsFresh(p, used, max) && |used| + budget <= max && |p.spawns| <= budget
    ensures var q := ShrinkOne(p, budget, max, size); SlotsFresh(q, used, max) && |q.spawns| <= budget
  {
    if p.spawns == [] && budget > 0 {
      FreeSlotExists(p.used, max);
      if p.deferred != [] {
        var fitted := FitToBudget(size(p.deferred[0]), p.freeCpus, p.freeMib, MIN_CPUS, MIN_MIB);
        if fitted.Some? {
          TakeKeepsSlotsFresh(p, used, max, fitted.value, p.deferred[0]);
        }
      }
    }
  }

  lemma PlacedSlots(input: ScaleInput, size: Sizing)
    ensures SlotsFresh(Placed(input, size), UsedSlots(input.workers), input.maxLocal)
    ensures |Placed(input, size).spawns| <= SpawnBudget(input)
  {
    var start, budget, used := StartPacking(input), SpawnBudget(input), UsedSlots(input.workers);
    if budget == 0 {
      assert Placed(input, size) == start;
    } else {
      PackSlots(start, input.jobs, budget, input.maxLocal, size, used);
      ShrinkSlots(Packed(input, size), budget, input.maxLocal, size, used);
    }
  }

  /** The planned slots are distinct, within range, and nobody's: neither a running worker's nor
      that of a worker that only holds a claim. Host and local worker counts stay in bounds. */
  lemma SlotsAreFresh(input: ScaleInput, size: Sizing)
    ensures var spawns := Plan(input, size).spawns;
            && (forall k :: 0 <= k < |spawns| ==> spawns[k].slot < input.maxLocal)
            && (forall i, j :: 0 <= i < j < |spawns| ==> spawns[i].slot != spawns[j].slot)
            && (forall k, w :: 0 <= k < |spawns| && w in input.workers ==> spawns[k].slot != w.slot)
            && |spawns| <= input.maxSpawn
            && (input.hostClaims <= input.maxHost ==> input.hostClaims + |spawns| <= input.maxHost)
            && (|UsedSlots(input.workers)| <= input.maxLocal ==>
                  |UsedSlots(input.workers)| + |spawns| <= input.maxLocal)
  {
    PlacedSlots(input, size);
    var spawns := Plan(input, size).spawns;
    if spawns != [] {
      forall k, w | 0 <= k < |spawns| && w in input.workers ensures spawns[k].slot != w.slot {
        assert w.slot in UsedSlots(input.workers);
      }
    }
  }

  // ---------------------------------------------------------------------------
  // Conservation and maximality of the packing
  // ---------------------------------------------------------------------------

  function CpusPlanned(spawns: seq<SpawnRequest>): real {
    if spawns == [] then 0.0 else CpusPlanned(spawns[..|spawns| - 1]) + spawns[|spawns| - 1].cpus
  }

  function MibPlanned(spawns: seq<SpawnRequest>): nat {
    if spawns == [] then 0 else MibPlanned(spawns[..|spawns| - 1]) + spawns[|spawns| - 1].mib
  }

  /** Memory is conserved exactly; CPU up to the slack of each comparison. */
  ghost predicate Balanced(spawns: seq<SpawnRequest>, leftCpus: real, leftMib: nat, cpus: real, mib: nat) {
    && leftMib + MibPlanned(spawns) == mib
    && 0.0 <= leftCpus && cpus <= leftCpus + CpusPlanned(spawns) <= cpus + SLACK * |spawns| as real
  }

  lemma TakeKeepsBalanced(p: Packing, slot: nat, got: Size, job: DemandSignal, cpus: real, mib: nat)
    requires Balanced(p.spawns, p.freeCpus, p.freeMib, cpus, mib)
    requires got.mib <= p.freeMib && got.cpus <= p.freeCpus + SLACK
    ensures var q := Take(p, slot, got, job); Balanced(q.spawns, q.freeCpus, q.freeMib, cpus, mib)
  {
    var q := Take(p, slot, got, job);
    assert q.spawns[..|q.spawns| - 1] == p.spawns;
    assert SLACK * |q.spawns| as real == SLACK * |p.spawns| as real + SLACK;
  }

  lemma {:induction false} PackBalanced(p: Packing, jobs: seq<DemandSignal>, budget: nat, max: nat, size: Sizing,
                                        cpus: real, mib: nat)
    requires Balanced(p.spawns, p.freeCpus, p.freeMib, cpus, mib)
    ensures var q := PackJobs(p, jobs, budget, max, size); Balanced(q.spawns, q.freeCpus, q.freeMib, cpus, mib)
    decreases |jobs|
  {
    if jobs != [] && |p.spawns| < budget && LowestFree(p.used, 0, max).Some? {
      var slot := LowestFree(p.used, 0, max).value;
      if SizeFits(p, size(jobs[0])) {
        TakeKeepsBalanced(p, slot, size(jobs[0]), jobs[0], cpus, mib);
      }
      PackBalanced(PlaceJob(p, slot, jobs[0], size), jobs[1..], budget, max, size, cpus, mib);
    }
  }

  lemma ShrinkBalanced(p: Packing, budget: nat, max: nat, size: Sizing, cpus: real, mib: nat)
    requires Balanced(p.spawns, p.freeCpus, p.freeMib, cpus, mib)
    ensures var q := ShrinkOne(p, budget, max, size); Balanced(q.spawns, q.freeCpus, q.freeMib, cpus, mib)
  {
    if p.spawns == [] && budget > 0 && p.deferred != [] && LowestFree(p.used, 0, max).Some? {
      var job := p.deferred[0];
      var fitted := FitToBudget(size(job), p.freeCpus, p.freeMib, MIN_CPUS, MIN_MIB);
      if fitted.Some? {
        TakeKeepsBalanced(p, LowestFree(p.used, 0, max).value, fitted.value, job, cpus, mib);
      }
    }
  }

  /** What a scale-out plans to use and what it says is left add up to what was free. */
  lemma PackingIsConservative(input: ScaleInput, size: Sizing)
    ensures var plan := Plan(input, size);
            if plan.notes.ScaleOut? then
              var notes := plan.notes;
              Balanced(plan.spawns, notes.freeCpus, notes.freeMib, MaxReal(input.freeCpus, 0.0), input.freeMib)
            else plan.spawns == []
  {
    var start, budget := StartPacking(input), SpawnBudget(input);
    PackBalanced(start, input.jobs, budget, input.maxLocal, size, start.freeCpus, start.freeMib);
    ShrinkBalanced(Packed(input, size), budget, input.maxLocal, size, start.freeCpus, start.freeMib);
  }

  ghost predicate Increasing(idx: seq<nat>, bound: nat) {
    && (forall k :: 0 <= k < |idx| ==> idx[k] < bound)
    && (forall i, j :: 0 <= i < j < |idx| ==> idx[i] < idx[j])
  }

  /** Of the first `n` jobs of the queue, `idx` were placed at their preferred size; no other
      one of them fits into what is left. */
  ghost predicate Accounted(p: Packing, queue: seq<DemandSignal>, n: nat, size: Sizing, idx: seq<nat>) {
    && n <= |queue| && |idx| == |p.spawns| && Increasing(idx, n) && p.freeCpus >= 0.0
    && (forall k :: 0 <= k < |idx| ==> p.spawns[k].job == queue[idx[k]] && AtSize(p.spawns[k], size(queue[idx[k]])))
    && (forall i :: 0 <= i < n && i !in idx ==> !SizeFits(p, size(queue[i])))
    && (p.spawns == [] ==> p.deferred == queue[..n])
  }

  predicate AtSize(s: SpawnRequest, want: Size) {
    s.cpus == want.cpus && s.mib == want.mib && s.tier == want.tier
  }

  lemma TakeAccounted(p: Packing, queue: seq<DemandSignal>, n: nat, size: Sizing, idx: seq<nat>, slot: nat)
    requires Accounted(p, queue, n, size, idx) && n < |queue| && SizeFits(p, size(queue[n]))
    ensures Accounted(Take(p, slot, size(queue[n]), queue[n]), queue, n + 1, size, idx + [n])
  {
    var q, more := Take(p, slot, size(queue[n]), queue[n]), idx + [n];
    forall i | 0 <= i < n + 1 && i !in more ensures !SizeFits(q, size(queue[i])) {
      assert i != n by {
        assert more[|idx|] == n;
      }
      assert i !in idx by {
        assert forall k :: 0 <= k < |idx| ==> more[k] == idx[k];
      }
      assert !SizeFits(p, size(queue[i]));
    }
  }

  lemma DeferAccounted(p: Packing, queue: seq<DemandSignal>, n: nat, size: Sizing, idx: seq<nat>, slot: nat)
    requires Accounted(p, queue, n, size, idx) && n < |queue| && !SizeFits(p, size(queue[n]))
    ensures Accounted(PlaceJob(p, slot, queue[n], size), queue, n + 1, size, idx)
  {
    assert queue[..n + 1] == queue[..n] + [queue[n]];
  }

  /** The loop stops before the end of the queue only when the budget is used up. */
  lemma {:induction false} PackAccounted(p: Packing, queue: seq<DemandSignal>, n: nat, budget: nat, max: nat,
                                         size: Sizing, idx: seq<nat>, used: set<nat>)
    returns (m: nat, all: seq<nat>)
    requires Accounted(p, queue, n, size, idx) && SlotsFresh(p, used, max) && |used| + budget <= max
    requires |p.spawns| <= budget
    ensures var q := PackJobs(p, queue[n..], budget, max, size);
            Accounted(q, queue, m, size, all) && (m == |queue| || |q.spawns| == budget)
    decreases |queue| - n
  {
    m, all := n, idx;
    if n < |queue| && |p.spawns| < budget {
      FreeSlotExists(p.used, max);
      var slot := LowestFree(p.used, 0, max).value;
      var next := PlaceJob(p, slot, queue[n], size);
      var more := idx;
      if SizeFits(p, size(queue[n])) {
        TakeKeepsSlotsFresh(p, used, max, size(queue[n]), queue[n]);
        TakeAccounted(p, queue, n, size, idx, slot);
        more := idx + [n];
      } else {
        DeferAccounted(p, queue, n, size, idx, slot);
      }
      m, all := PackAccounted(next, queue, n + 1, budget, max, size, more, used);
      PackNext(p, slot, queue, n, budget, max, size);
    }
  }

  /** `q` holds one worker for the first job, at a size between the floor and the preferred one. */
  predicate OneShrunk(q: Packing, queue: seq<DemandSignal>, size: Sizing) {
    && queue != [] && |q.spawns| == 1 && q.spawns[0].job == queue[0] && q.spawns[0].tier == size(queue[0]).tier
    && MIN_CPUS <= q.spawns[0].cpus <= MaxReal(size(queue[0]).cpus, MIN_CPUS)
    && MIN_MIB <= q.spawns[0].mib && (q.spawns[0].mib <= size(queue[0]).mib || q.spawns[0].mib == MIN_MIB)
  }

  ghost predicate NoneFits(p: Packing, queue: seq<DemandSignal>, size: Sizing) {
    forall i :: 0 <= i < |queue| ==> !SizeFits(p, size(queue[i]))
  }

  lemma ShrinkAccounted(p: Packing, queue: seq<DemandSignal>, budget: nat, max: nat, size: Sizing)
    requires Accounted(p, queue, |queue|, size, [])
    ensures NoneFits(p, queue, size)
    ensures var q := ShrinkOne(p, budget, max, size); q == p || (OneShrunk(q, queue, size) && NoneFits(q, queue, size))
  {
    assert forall i: nat :: i !in [];
    assert queue[..|queue|] == queue;
    var q := ShrinkOne(p, budget, max, size);
    if q != p {
      assert q.freeCpus <= p.freeCpus && q.freeMib <= p.freeMib;
      forall i | 0 <= i < |queue| ensures !SizeFits(q, size(queue[i])) {
        assert !SizeFits(p, size(queue[i]));
      }
    }
  }

  /** The planned jobs are a subsequence of the queue. Each has its preferred size, unless no
      job of the queue fits whole: then the first one alone is planned, no smaller than the
      floor. When the budget is not used up, no job left out fits into the remainder. */
  lemma PackingIsMaximal(input: ScaleInput, size: Sizing) returns (idx: seq<nat>)
    requires Plan(input, size).notes.ScaleOut?
    ensures var p, queue := Placed(input, size), input.jobs;
            && Plan(input, size).spawns == p.spawns
            && |idx| == |p.spawns| && Increasing(idx, |queue|)
            && (forall k :: 0 <= k < |idx| ==> p.spawns[k].job == queue[idx[k]])
            && ((forall k :: 0 <= k < |idx| ==> AtSize(p.spawns[k], size(queue[idx[k]])))
                || (OneShrunk(p, queue, size) && NoneFits(StartPacking(input), queue, size)))
            && (|idx| < SpawnBudget(input) ==>
                  forall i :: 0 <= i < |queue| && i !in idx ==> !SizeFits(p, size(queue[i])))
  {
    if SpawnBudget(input) == 0 {
      return [];
    }
    idx := PlacedAccounted(StartPacking(input), input.jobs, SpawnBudget(input), input.maxLocal, size);
  }

  lemma PlacedAccounted(start: Packing, queue: seq<DemandSignal>, budget: nat, max: nat, size: Sizing)
    returns (idx: seq<nat>)
    requires start.spawns == [] && start.deferred == [] && start.freeCpus >= 0.0 && |start.used| + budget <= max
    requires budget > 0
    ensures var p := ShrinkOne(PackJobs(start, queue, budget, max, size), budget, max, size);
            && |idx| == |p.spawns| && Increasing(idx, |queue|)
            && (forall k :: 0 <= k < |idx| ==> p.spawns[k].job == queue[idx[k]])
            && ((forall k :: 0 <= k < |idx| ==> AtSize(p.spawns[k], size(queue[idx[k]])))
                || (OneShrunk(p, queue, size) && NoneFits(start, queue, size)))
            && (|idx| < budget ==> forall i :: 0 <= i < |queue| && i !in idx ==> !SizeFits(p, size(queue[i])))
  {
    var m: nat;
    assert queue[0..] == queue;
    m, idx := PackAccounted(start, queue, 0, budget, max, size, [], start.used);
    PackBalanced(start, queue, budget, max, size, start.freeCpus, start.freeMib);
    var p := PackJobs(start, queue, budget, max, size);
    if p.spawns == [] {
      ShrinkAccounted(p, queue, budget, max, size);
      if ShrinkOne(p, budget, max, size) != p {
        assert NoneFits(start, queue, size);
        idx := [0];
      }
    }
  }

  // ---------------------------------------------------------------------------
  // Who may be torn down
  // ---------------------------------------------------------------------------

  ghost predicate UniqueIds(ws: seq<WorkerSnapshot>) {
    forall v, w :: v in ws && w in ws && v.workerId == w.workerId ==> v == w
  }

  lemma {:induction false} IdsWhereMeans(ws: seq<WorkerSnapshot>, p: WorkerSnapshot -> bool, id: string)
    ensures id in IdsWhere(ws, p) <==> exists w :: w in ws && p(w) && w.workerId == id
  {
    if ws != [] {
      IdsWhereMeans(ws[1..], p, id);
      assert ws == [ws[0]] + ws[1..];
    }
  }

  /** When an idle worker may be torn down: without demand, at once or after the idle time; with
      demand, at once or, as a fallback, when it is bound to a repository nobody asks for. */
  predicate MayReclaim(input: ScaleInput, w: WorkerSnapshot) {
    if input.jobs == [] then input.postJobExit || input.idleExpired
    else input.postJobExit || (Need(input) > 0 && WrongRepo(w, DemandRepos(input.jobs)))
  }

  lemma {:induction false} CountsSome(ws: seq<WorkerSnapshot>, p: WorkerSnapshot -> bool, w: WorkerSnapshot)
    requires w in ws && p(w)
    ensures Count(ws, p) > 0
  {
    if ws[0] != w {
      CountsSome(ws[1..], p, w);
    }
  }

  /** Exactly the running workers that are not busy and are past their grace window, or have
      signalled completion, are torn down, each time the mode and the demand allow it. */
  lemma ReclaimedExactly(input: ScaleInput, size: Sizing, id: string)
    ensures id in Plan(input, size).scaleIn <==>
            exists w :: w in input.workers && w.workerId == id && Idle(w, input.grace) && MayReclaim(input, w)
  {
    var repos := DemandRepos(input.jobs);
    IdsWhereMeans(input.workers, w => Idle(w, input.grace), id);
    IdsWhereMeans(input.workers, w => Idle(w, input.grace) && WrongRepo(w, repos), id);
    if input.jobs == [] {
      assert id in IdleIds(input) <==> exists w :: w in input.workers && w.workerId == id && Idle(w, input.grace);
      if id in IdleIds(input) {
        var w :| w in input.workers && w.workerId == id && Idle(w, input.grace);
        CountsSome(input.workers, (v: WorkerSnapshot) => v.running, w);
        assert RunningCount(input) > 0;
      }
    } else {
      assert Plan(input, size).scaleIn == Reclaim(input);
    }
  }

  /** Covering, for workers with ids of their own. */
  predicate CoversAlone(w: WorkerSnapshot, postJobExit: bool, repos: set<string>, grace: nat) {
    Serves(w, repos) && (!postJobExit || w.busy || !w.running || !PostJobExitEligible(w, grace))
  }

  lemma CoversIsCoversAlone(input: ScaleInput, w: WorkerSnapshot)
    requires UniqueIds(input.workers) && w in input.workers
    ensures var repos := DemandRepos(input.jobs);
            Covers(w, input.postJobExit, repos, Protected(input)) <==>
            CoversAlone(w, input.postJobExit, repos, input.grace)
  {
    if w.workerId in Protected(input) {
      var v :| v in input.workers && InGrace(v, input.grace) && v.workerId == w.workerId;
      assert v == w;
    }
  }

  /** Busy workers, workers in their grace window or of unknown age, workers that do not run
      yet, and all workers that cover demand are safe from the plan. */
  lemma ReclaimIsSafe(input: ScaleInput, size: Sizing, w: WorkerSnapshot)
    requires UniqueIds(input.workers) && w in input.workers && w.workerId in Plan(input, size).scaleIn
    ensures w.running && !w.busy && (w.jobCompleted || (w.age.Some? && w.age.value >= input.grace))
    ensures input.jobs != [] ==> !Covers(w, input.postJobExit, DemandRepos(input.jobs), Protected(input))
    ensures input.jobs == [] && !input.postJobExit ==> input.idleExpired
  {
    ReclaimedExactly(input, size, w.workerId);
    CoversIsCoversAlone(input, w);
  }

  // ---------------------------------------------------------------------------
  // No over-spawning, and progress
  // ---------------------------------------------------------------------------

  lemma NeverOverSpawns(input: ScaleInput, size: Sizing)
    ensures var covering := CoveringCount(input);
            covering + |Plan(input, size).spawns| <= (if covering < Desired(input) then Desired(input) else covering)
  {
    PlacedSlots(input, size);
  }

  /** A tick that has a free slot and the floor of the budget starts a worker. */
  lemma SpawnsWhenItCan(input: ScaleInput, size: Sizing)
    requires Need(input) > 0 && input.maxSpawn >= 1 && CanSpawnNow(input)
    ensures 1 <= |Plan(input, size).spawns| <= Need(input)
  {
    PlacedSlots(input, size);
    var idx := PackingIsMaximal(input, size);
    var start, budget, used := StartPacking(input), SpawnBudget(input), UsedSlots(input.workers);
    if Placed(input, size).spawns == [] {
      PackSlots(start, input.jobs, budget, input.maxLocal, size, used);
      PackBalanced(start, input.jobs, budget, input.maxLocal, size, start.freeCpus, start.freeMib);
      FreeSlotExists(Packed(input, size).used, input.maxLocal);
    }
  }

  /** A tick that cannot spawn reclaims every worker it may, if there is one. */
  lemma ReclaimsWhenItCannot(input: ScaleInput, size: Sizing, w: WorkerSnapshot)
    requires Need(input) > 0 && !CanSpawnNow(input) && w in input.workers && Idle(w, input.grace)
    requires input.postJobExit || WrongRepo(w, DemandRepos(input.jobs))
    ensures w.workerId in Plan(input, size).scaleIn && Plan(input, size).spawns == []
  {
    ReclaimedExactly(input, size, w.workerId);
    assert w.workerId in Reclaim(input);
  }
}
