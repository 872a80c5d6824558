/** The scale decision of one listen tick: which workers to tear down and which to start, from
    the queue of jobs, the known workers and the budget that is left. How large a job is, is a
    parameter; so whatever is proved here holds for any table of job sizes. */
module Planner {
  import opened Wrappers
  import opened Arithmetic
  import opened Pool

  datatype DemandSignal = DemandSignal(jobName: string, labels: seq<string>, repo: string)

  datatype Size = Size(tier: SizeTier, cpus: real, mib: nat)
  type JobSize = s: Size | s.cpus > 0.0 && s.mib > 0 witness Size(Micro, 1.0, 1)

  /** The preferred size of each job. */
  type Sizing = DemandSignal -> JobSize

  datatype WorkerSnapshot = WorkerSnapshot(
    slot: nat,
    workerId: string,
    container: string,
    running: bool,
    busy: bool,
    repo: Option<string>,
    age: Option<nat>,
    jobCompleted: bool)

  datatype ScaleInput = ScaleInput(
    jobs: seq<DemandSignal>,
    workers: seq<WorkerSnapshot>,
    freeCpus: real,
    freeMib: nat,
    maxLocal: nat,
    hostClaims: nat,
    maxHost: nat,
    idleExpired: bool,
    maxSpawn: nat,
    postJobExit: bool,
    grace: nat)

  datatype SpawnRequest = SpawnRequest(slot: nat, tier: SizeTier, cpus: real, mib: nat, job: DemandSignal)

  /** The decision summary that goes to the log. */
  datatype Notes =
    | TearDown(idle: nat, busy: nat)
    | HoldBusy(busy: nat)
    | HoldRunning(running: nat, busy: nat)
    | NothingToDo
    | ReclaimFirst(reclaimed: nat, covering: nat, need: nat)
    | ScaleOut(queue: nat, desired: nat, spawned: nat, skipped: nat, covering: nat, reclaimed: nat,
               freeCpus: real, freeMib: nat)

  datatype ScalePlan = ScalePlan(spawns: seq<SpawnRequest>, scaleIn: seq<string>, desired: nat, notes: Notes)

  const MIN_CPUS: real := 0.25
  const MIN_MIB: nat := 256

  // ---------------------------------------------------------------------------
  // Workers
  // ---------------------------------------------------------------------------

  /** An idle worker is known to be done only by a completion signal or by its age. */
  predicate PostJobExitEligible(w: WorkerSnapshot, grace: nat) {
    w.jobCompleted || (w.age.Some? && w.age.value >= grace)
  }

  predicate Idle(w: WorkerSnapshot, grace: nat) {
    w.running && !w.busy && PostJobExitEligible(w, grace)
  }

  predicate InGrace(w: WorkerSnapshot, grace: nat) {
    w.running && !w.busy && !PostJobExitEligible(w, grace)
  }

  predicate Serves(w: WorkerSnapshot, repos: set<string>) {
    w.repo.Some? ==> w.repo.value in repos
  }

  predicate WrongRepo(w: WorkerSnapshot, repos: set<string>) {
    w.repo.Some? && w.repo.value !in repos
  }

  /** Whether a worker counts towards the demand. `protected` holds the ids of the workers
      that are still in their grace window. */
  predicate Covers(w: WorkerSnapshot, postJobExit: bool, repos: set<string>, protected: set<string>) {
    if postJobExit then
      if w.busy then Serves(w, repos)
      else if !w.running then Serves(w, repos)
      else if w.workerId in protected then Serves(w, repos)
      else false
    else if !w.running && !w.busy then Serves(w, repos)
    else if w.repo.Some? then w.repo.value in repos && (w.busy || w.running)
    else w.running || w.busy
  }

  function Count(ws: seq<WorkerSnapshot>, p: WorkerSnapshot -> bool): nat {
    if ws == [] then 0 else (if p(ws[0]) then 1 else 0) + Count(ws[1..], p)
  }

  function IdsWhere(ws: seq<WorkerSnapshot>, p: WorkerSnapshot -> bool): seq<string> {
    if ws == [] then []
    else (if p(ws[0]) then [ws[0].workerId] else []) + IdsWhere(ws[1..], p)
  }

  function UsedSlots(ws: seq<WorkerSnapshot>): set<nat> {
    set w | w in ws :: w.slot
  }

  function DemandRepos(jobs: seq<DemandSignal>): set<string> {
    set j | j in jobs :: j.repo
  }

  function Protected(input: ScaleInput): set<string> {
    set w | w in input.workers && InGrace(w, input.grace) :: w.workerId
  }

  function IdleIds(input: ScaleInput): seq<string> {
    IdsWhere(input.workers, w => Idle(w, input.grace))
  }

  function WrongRepoIds(input: ScaleInput): seq<string> {
    var repos := DemandRepos(input.jobs);
    IdsWhere(input.workers, w => Idle(w, input.grace) && WrongRepo(w, repos))
  }

  function RunningCount(input: ScaleInput): nat {
    Count(input.workers, (w: WorkerSnapshot) => w.running)
  }

  function BusyCount(input: ScaleInput): nat {
    Count(input.workers, (w: WorkerSnapshot) => w.running && w.busy)
  }

  function CoveringCount(input: ScaleInput): nat {
    var repos, protected := DemandRepos(input.jobs), Protected(input);
    Count(input.workers, w => Covers(w, input.postJobExit, repos, protected))
  }

  // ---------------------------------------------------------------------------
  // Demand and caps
  // ---------------------------------------------------------------------------

  function Desired(input: ScaleInput): nat {
    Min(|input.jobs|, input.maxLocal)
  }

  function Need(input: ScaleInput): nat {
    SaturatingSub(Desired(input), CoveringCount(input))
  }

  function SlotCap(input: ScaleInput): nat {
    Min(SaturatingSub(input.maxHost, input.hostClaims), SaturatingSub(input.maxLocal, |UsedSlots(input.workers)|))
  }

  predicate CanSpawnNow(input: ScaleInput) {
    && SlotCap(input) > 0
    && input.freeCpus + SLACK >= MIN_CPUS
    && input.freeMib >= MIN_MIB
  }

  function Reclaim(input: ScaleInput): seq<string> {
    if input.postJobExit then IdleIds(input)
    else if Need(input) > 0 then WrongRepoIds(input)
    else []
  }

  function SpawnBudget(input: ScaleInput): nat {
    Min(Min(input.maxSpawn, SlotCap(input)), Need(input))
  }

  // ---------------------------------------------------------------------------
  // Packing
  // ---------------------------------------------------------------------------

  datatype Packing = Packing(
    freeCpus: real,
    freeMib: nat,
    used: set<nat>,
    spawns: seq<SpawnRequest>,
    deferred: seq<DemandSignal>,
    skipped: nat)

  /** The lowest slot from `s` on that is not in use. */
  function LowestFree(used: set<nat>, s: nat, max: nat): Option<nat>
    decreases max - s
  {
    if s >= max then None else if s !in used then Some(s) else LowestFree(used, s + 1, max)
  }

  predicate SizeFits(p: Packing, want: Size) {
    p.freeCpus + SLACK >= want.cpus && p.freeMib >= want.mib
  }

  function Take(p: Packing, slot: nat, got: Size, job: DemandSignal): Packing
    requires got.mib <= p.freeMib
  {
    p.(freeCpus := MaxReal(p.freeCpus - got.cpus, 0.0),
       freeMib := p.freeMib - got.mib,
       used := p.used + {slot},
       spawns := p.spawns + [SpawnRequest(slot, got.tier, got.cpus, got.mib, job)])
  }

  function PlaceJob(p: Packing, slot: nat, job: DemandSignal, size: Sizing): Packing {
    if SizeFits(p, size(job)) then Take(p, slot, size(job), job)
    else p.(deferred := p.deferred + [job], skipped := p.skipped + 1)
  }

  function PackJobs(p: Packing, jobs: seq<DemandSignal>, budget: nat, max: nat, size: Sizing): Packing
    decreases |jobs|
  {
    if jobs == [] || |p.spawns| >= budget then p
    else
      match LowestFree(p.used, 0, max)
      case None => p
      case Some(slot) => PackJobs(PlaceJob(p, slot, jobs[0], size), jobs[1..], budget, max, size)
  }

  /** A request shrunk to what is left, but never below the floor. It is refused exactly when
      the floor itself does not fit, and never grows except up to the floor. */
  function FitToBudget(want: Size, freeCpus: real, freeMib: nat, minCpus: real, minMib: nat): (r: Option<Size>)
    ensures r.None? <==> freeCpus + SLACK < minCpus || freeMib < minMib
    ensures r.Some? ==> minCpus <= r.value.cpus <= freeCpus + SLACK && minMib <= r.value.mib <= freeMib
    ensures r.Some? ==> r.value.cpus <= MaxReal(want.cpus, minCpus)
    ensures r.Some? ==> r.value.mib <= want.mib || r.value.mib == minMib
    ensures r.Some? && minCpus <= want.cpus <= freeCpus && minMib <= want.mib <= freeMib ==> r.value == want
  {
    if freeCpus + SLACK < minCpus || freeMib < minMib then None
    else
      var c := MaxReal(MinReal(want.cpus, freeCpus), minCpus);
      var m := if Min(want.mib, freeMib) < minMib then minMib else Min(want.mib, freeMib);
      if c > freeCpus + SLACK || m > freeMib then None else Some(Size(want.tier, c, m))
  }

  /** When nothing fits whole, the first job left out is shrunk into the remainder. */
  function ShrinkOne(p: Packing, budget: nat, max: nat, size: Sizing): Packing {
    if p.spawns != [] || budget == 0 || p.deferred == [] then p
    else
      var job := p.deferred[0];
      match LowestFree(p.used, 0, max)
      case None => p
      case Some(slot) =>
        match FitToBudget(size(job), p.freeCpus, p.freeMib, MIN_CPUS, MIN_MIB)
        case None => p
        case Some(got) => Take(p, slot, got, job).(skipped := SaturatingSub(p.skipped, 1))
  }

  function StartPacking(input: ScaleInput): Packing {
    Packing(MaxReal(input.freeCpus, 0.0), input.freeMib, UsedSlots(input.workers), [], [], 0)
  }

  function Packed(input: ScaleInput, size: Sizing): Packing {
    PackJobs(StartPacking(input), input.jobs, SpawnBudget(input), input.maxLocal, size)
  }

  function Placed(input: ScaleInput, size: Sizing): Packing {
    ShrinkOne(Packed(input, size), SpawnBudget(input), input.maxLocal, size)
  }

  // ---------------------------------------------------------------------------
  // The plan
  // ---------------------------------------------------------------------------

  function PlanWithoutDemand(input: ScaleInput): ScalePlan {
    var idle, running, busy := IdleIds(input), RunningCount(input), BusyCount(input);
    if (input.postJobExit || (input.idleExpired && running > 0)) && idle != [] then
      ScalePlan([], idle, 0, TearDown(|idle|, busy))
    else if (input.idleExpired || input.postJobExit) && running > 0 then
      ScalePlan([], [], 0, HoldBusy(busy))
    else if running > 0 then
      ScalePlan([], [], 0, HoldRunning(running, busy))
    else
      ScalePlan([], [], 0, NothingToDo)
  }

  function Plan(input: ScaleInput, size: Sizing): ScalePlan {
    var covering, need, reclaim := CoveringCount(input), Need(input), Reclaim(input);
    if input.jobs == [] then PlanWithoutDemand(input)
    else if need > 0 && reclaim != [] && !CanSpawnNow(input) then
      ScalePlan([], reclaim, Desired(input), ReclaimFirst(|reclaim|, covering, need))
    else
      var p := Placed(input, size);
      ScalePlan(p.spawns, reclaim, Desired(input),
        ScaleOut(|input.jobs|, Desired(input), |p.spawns|, p.skipped, covering, |reclaim|, p.freeCpus, p.freeMib))
  }

  lemma PackNext(p: Packing, slot: nat, jobs: seq<DemandSignal>, next: nat, budget: nat, max: nat, size: Sizing)
    requires next < |jobs| && |p.spawns| < budget && LowestFree(p.used, 0, max) == Some(slot)
    ensures PackJobs(p, jobs[next..], budget, max, size)
         == PackJobs(PlaceJob(p, slot, jobs[next], size), jobs[next + 1..], budget, max, size)
  {
    assert jobs[next..][1..] == jobs[next + 1..];
  }

  /** The loop that packs the queue into the budget. */
  method PackQueue(start: Packing, jobs: seq<DemandSignal>, budget: nat, max: nat, size: Sizing) returns (p: Packing)
    ensures p == PackJobs(start, jobs, budget, max, size)
  {
    var freeCpus, freeMib: nat, used := start.freeCpus, start.freeMib, start.used;
    var spawns, deferred, skipped: nat := start.spawns, start.deferred, start.skipped;
    var next := 0;
    while next < |jobs| && |spawns| < budget
      invariant next <= |jobs|
      invariant PackJobs(Packing(freeCpus, freeMib, used, spawns, deferred, skipped), jobs[next..], budget, max, size)
             == PackJobs(start, jobs, budget, max, size)
    {
      ghost var before := Packing(freeCpus, freeMib, used, spawns, deferred, skipped);
      var free := LowestFree(used, 0, max);
      if free.None? {
        break;
      }
      var slot, job := free.value, jobs[next];
      var want := size(job);
      if freeCpus + SLACK >= want.cpus && freeMib >= want.mib {
        freeCpus := MaxReal(freeCpus - want.cpus, 0.0);
        freeMib := freeMib - want.mib;
        used := used + {slot};
        spawns := spawns + [SpawnRequest(slot, want.tier, want.cpus, want.mib, job)];
      } else {
        skipped := skipped + 1;
        deferred := deferred + [job];
      }
      PackNext(before, slot, jobs, next, budget, max, size);
      assert PlaceJob(before, slot, job, size) == Packing(freeCpus, freeMib, used, spawns, deferred, skipped);
      next := next + 1;
    }
    p := Packing(freeCpus, freeMib, used, spawns, deferred, skipped);
  }

  /** The one shrunk worker. */
  method FillRemainder(p: Packing, budget: nat, max: nat, size: Sizing) returns (q: Packing)
    ensures q == ShrinkOne(p, budget, max, size)
  {
    q := p;
    if p.spawns == [] && budget > 0 && p.deferred != [] {
      var free, job := LowestFree(p.used, 0, max), p.deferred[0];
      if free.Some? {
        var fitted := FitToBudget(size(job), p.freeCpus, p.freeMib, MIN_CPUS, MIN_MIB);
        if fitted.Some? {
          q := Take(p, free.value, fitted.value, job).(skipped := SaturatingSub(p.skipped, 1));
        }
      }
    }
  }

  method PlanScale(input: ScaleInput, size: Sizing) returns (plan: ScalePlan)
    ensures plan == Plan(input, size)
  {
    if input.jobs == [] {
      return PlanWithoutDemand(input);
    }
    var covering, need := CoveringCount(input), Need(input);
    var reclaim := Reclaim(input);
    if need > 0 && reclaim != [] && !CanSpawnNow(input) {
      return ScalePlan([], reclaim, Desired(input), ReclaimFirst(|reclaim|, covering, need));
    }
    var p := PackQueue(StartPacking(input), input.jobs, SpawnBudget(input), input.maxLocal, size);
    p := FillRemainder(p, SpawnBudget(input), input.maxLocal, size);
    plan := ScalePlan(p.spawns, reclaim, Desired(input),
      ScaleOut(|input.jobs|, Desired(input), |p.spawns|, p.skipped, covering, |reclaim|, p.freeCpus, p.freeMib));
  }
}
