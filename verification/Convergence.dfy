/** Ticks repeated on a fixed queue while new workers are in their grace window. */
module Convergence {
  import opened Wrappers
  import opened Planner
  import opened PlannerLaws
  import opened Names

  // ---------------------------------------------------------------------------
  // From one tick to the next
  // ---------------------------------------------------------------------------

  /** Workers are named after their slots, and no two share a slot. */
  ghost predicate WellNamed(ws: seq<WorkerSnapshot>, base: string) {
    && (forall k :: 0 <= k < |ws| ==> ws[k].workerId == WorkerName(base, ws[k].slot))
    && (forall i, j :: 0 <= i < j < |ws| ==> ws[i].slot != ws[j].slot)
  }

  /** The workers that a plan leaves alone. */
  function Survivors(ws: seq<WorkerSnapshot>, gone: seq<string>): seq<WorkerSnapshot> {
    if ws == [] then []
    else (if ws[0].workerId in gone then [] else [ws[0]]) + Survivors(ws[1..], gone)
  }

  /** The same worker a tick later. While it is in its grace window it may start running and
      take up a job; after that it stays as it is. */
  predicate SameWorker(w: WorkerSnapshot, v: WorkerSnapshot, grace: nat) {
    && v.slot == w.slot && v.workerId == w.workerId && v.repo == w.repo
    && (PostJobExitEligible(v, grace) <==> PostJobExitEligible(w, grace))
    && (PostJobExitEligible(w, grace) ==> v.running == w.running && v.busy == w.busy)
  }

  /** The worker started for a request, claimed or running, not yet past its grace window. */
  predicate StartedFor(req: SpawnRequest, v: WorkerSnapshot, base: string, grace: nat) {
    && v.slot == req.slot && v.workerId == WorkerName(base, req.slot) && v.repo == Some(req.job.repo)
    && !PostJobExitEligible(v, grace)
  }

  /** `next` are the workers once the reclaimed ones are gone and the planned ones started. */
  ghost predicate Follows(ws: seq<WorkerSnapshot>, gone: seq<string>, spawns: seq<SpawnRequest>,
                          next: seq<WorkerSnapshot>, base: string, grace: nat) {
    var kept := Survivors(ws, gone);
    && |next| == |kept| + |spawns|
    && (forall k :: 0 <= k < |kept| ==> SameWorker(kept[k], next[k], grace))
    && (forall k :: |kept| <= k < |next| ==> StartedFor(spawns[k - |kept|], next[k], base, grace))
  }

  /** `next` is seen one tick after `input`: the same queue, the workers as the plan left them.
      How much budget is free and what other managers hold is arbitrary. */
  ghost predicate Tick(input: ScaleInput, next: ScaleInput, size: Sizing, base: string) {
    && next.jobs == input.jobs && next.maxLocal == input.maxLocal
    && next.postJobExit == input.postJobExit && next.grace == input.grace
    && Follows(input.workers, Plan(input, size).scaleIn, Plan(input, size).spawns, next.workers, base, input.grace)
  }

  // ---------------------------------------------------------------------------
  // Counting
  // ---------------------------------------------------------------------------

  lemma {:induction false} CountAppend(a: seq<WorkerSnapshot>, b: seq<WorkerSnapshot>, p: WorkerSnapshot -> bool)
    ensures Count(a + b, p) == Count(a, p) + Count(b, p)
  {
    if a == [] {
      assert a + b == b;
    } else {
      CountAppend(a[1..], b, p);
      assert (a + b)[1..] == a[1..] + b;
    }
  }

  lemma {:induction false} CountPointwise(a: seq<WorkerSnapshot>, b: seq<WorkerSnapshot>,
                                          p: WorkerSnapshot -> bool, q: WorkerSnapshot -> bool)
    requires |a| == |b| && forall k :: 0 <= k < |a| ==> p(a[k]) == q(b[k])
    ensures Count(a, p) == Count(b, q)
  {
    if a != [] {
      forall k | 0 <= k < |a[1..]| ensures p(a[1..][k]) == q(b[1..][k]) {
        assert p(a[k + 1]) == q(b[k + 1]);
      }
      CountPointwise(a[1..], b[1..], p, q);
    }
  }

  lemma {:induction false} CountAll(a: seq<WorkerSnapshot>, p: WorkerSnapshot -> bool)
    requires forall k :: 0 <= k < |a| ==> p(a[k])
    ensures Count(a, p) == |a|
  {
    if a != [] {
      CountAll(a[1..], p);
    }
  }

  lemma {:induction false} CountSurvivors(ws: seq<WorkerSnapshot>, gone: seq<string>, p: WorkerSnapshot -> bool)
    requires forall w :: w in ws && w.workerId in gone ==> !p(w)
    ensures Count(Survivors(ws, gone), p) == Count(ws, p)
  {
    if ws != [] {
      CountSurvivors(ws[1..], gone, p);
      var rest := Survivors(ws[1..], gone);
      if ws[0].workerId !in gone {
        assert ([ws[0]] + rest)[1..] == rest;
      } else {
        assert [] + rest == rest;
        assert ws[0] in ws;
      }
    }
  }

  lemma {:induction false} SurvivorsMean(ws: seq<WorkerSnapshot>, gone: seq<string>)
    ensures forall w :: w in Survivors(ws, gone) <==> w in ws && w.workerId !in gone
  {
    if ws != [] {
      SurvivorsMean(ws[1..], gone);
      assert ws == [ws[0]] + ws[1..];
    }
  }

  lemma {:induction false} SurvivorsWellNamed(ws: seq<WorkerSnapshot>, gone: seq<string>, base: string)
    requires WellNamed(ws, base)
    ensures WellNamed(Survivors(ws, gone), base)
  {
    if ws != [] {
      SurvivorsWellNamed(ws[1..], gone, base);
      SurvivorsMean(ws[1..], gone);
      var rest := Survivors(ws[1..], gone);
      forall k | 0 <= k < |rest| ensures rest[k].slot != ws[0].slot {
        assert rest[k] in ws[1..];
      }
    }
  }

  // ---------------------------------------------------------------------------
  // One tick
  // ---------------------------------------------------------------------------

  lemma WellNamedIsUnique(ws: seq<WorkerSnapshot>, base: string)
    requires WellNamed(ws, base)
    ensures UniqueIds(ws)
  {
    forall v, w | v in ws && w in ws && v.workerId == w.workerId ensures v == w {
      var i :| 0 <= i < |ws| && ws[i] == v;
      var j :| 0 <= j < |ws| && ws[j] == w;
      WorkerNameInjective(base, v.slot, w.slot);
    }
  }

  ghost predicate FreshSlots(ws: seq<WorkerSnapshot>, spawns: seq<SpawnRequest>) {
    && (forall i, j :: 0 <= i < j < |spawns| ==> spawns[i].slot != spawns[j].slot)
    && (forall k, w :: 0 <= k < |spawns| && w in ws ==> spawns[k].slot != w.slot)
  }

  lemma FollowsKeepsNames(ws: seq<WorkerSnapshot>, gone: seq<string>, spawns: seq<SpawnRequest>,
                          next: seq<WorkerSnapshot>, base: string, grace: nat)
    requires WellNamed(ws, base) && FreshSlots(ws, spawns) && Follows(ws, gone, spawns, next, base, grace)
    ensures WellNamed(next, base)
  {
    var kept := Survivors(ws, gone);
    SurvivorsMean(ws, gone);
    SurvivorsWellNamed(ws, gone, base);
    forall k | 0 <= k < |next|
      ensures next[k].slot == (if k < |kept| then kept[k].slot else spawns[k - |kept|].slot)
      ensures next[k].workerId == WorkerName(base, next[k].slot)
    {
      assert k < |kept| ==> SameWorker(kept[k], next[k], grace);
    }
    assert forall k :: 0 <= k < |kept| ==> kept[k] in ws;
  }

  lemma TickKeepsNames(input: ScaleInput, next: ScaleInput, size: Sizing, base: string)
    requires WellNamed(input.workers, base) && Tick(input, next, size, base)
    ensures WellNamed(next.workers, base)
  {
    var plan := Plan(input, size);
    SlotsAreFresh(input, size);
    FollowsKeepsNames(input.workers, plan.scaleIn, plan.spawns, next.workers, base, input.grace);
  }

  /** The covering count through `CoversAlone`. */
  lemma CoveringAlone(input: ScaleInput, p: WorkerSnapshot -> bool)
    requires UniqueIds(input.workers)
    requires var repos := DemandRepos(input.jobs);
             forall w :: p(w) == CoversAlone(w, input.postJobExit, repos, input.grace)
    ensures CoveringCount(input) == Count(input.workers, p)
  {
    var repos, protected := DemandRepos(input.jobs), Protected(input);
    var q := w => Covers(w, input.postJobExit, repos, protected);
    forall k | 0 <= k < |input.workers| ensures p(input.workers[k]) == q(input.workers[k]) {
      CoversIsCoversAlone(input, input.workers[k]);
    }
    CountPointwise(input.workers, input.workers, p, q);
    assert CoveringCount(input) == Count(input.workers, q);
  }

  /** Every planned worker is for a repository that is in demand. */
  lemma SpawnsServeDemand(input: ScaleInput, size: Sizing, k: nat)
    requires k < |Plan(input, size).spawns|
    ensures Plan(input, size).spawns[k].job in input.jobs
  {
    var idx := PackingIsMaximal(input, size);
    assert Plan(input, size).spawns[k].job == input.jobs[idx[k]];
  }

  lemma FollowsAddsCover(ws: seq<WorkerSnapshot>, gone: seq<string>, spawns: seq<SpawnRequest>,
                         next: seq<WorkerSnapshot>, base: string, grace: nat, postJobExit: bool, repos: set<string>,
                         p: WorkerSnapshot -> bool)
    requires Follows(ws, gone, spawns, next, base, grace)
    requires forall w :: p(w) == CoversAlone(w, postJobExit, repos, grace)
    requires forall w :: w in ws && w.workerId in gone ==> !p(w)
    requires forall k :: 0 <= k < |spawns| ==> spawns[k].job.repo in repos
    ensures Count(next, p) == Count(ws, p) + |spawns|
  {
    var kept := Survivors(ws, gone);
    var before, started := next[..|kept|], next[|kept|..];
    CountSurvivors(ws, gone, p);
    KeptCoverAsBefore(kept, before, grace, postJobExit, repos, p);
    StartedCover(spawns, started, base, grace, postJobExit, repos, p);
    CountAppend(before, started, p);
    assert next == before + started;
  }

  lemma KeptCoverAsBefore(kept: seq<WorkerSnapshot>, before: seq<WorkerSnapshot>, grace: nat, postJobExit: bool,
                          repos: set<string>, p: WorkerSnapshot -> bool)
    requires |kept| == |before| && forall k :: 0 <= k < |kept| ==> SameWorker(kept[k], before[k], grace)
    requires forall w :: p(w) == CoversAlone(w, postJobExit, repos, grace)
    ensures Count(before, p) == Count(kept, p)
  {
    CountPointwise(kept, before, p, p);
  }

  lemma StartedCover(spawns: seq<SpawnRequest>, started: seq<WorkerSnapshot>, base: string, grace: nat,
                     postJobExit: bool, repos: set<string>, p: WorkerSnapshot -> bool)
    requires |spawns| == |started| && forall k :: 0 <= k < |spawns| ==> StartedFor(spawns[k], started[k], base, grace)
    requires forall w :: p(w) == CoversAlone(w, postJobExit, repos, grace)
    requires forall k :: 0 <= k < |spawns| ==> spawns[k].job.repo in repos
    ensures Count(started, p) == |spawns|
  {
    forall k | 0 <= k < |started| ensures p(started[k]) {
      assert StartedFor(spawns[k], started[k], base, grace);
    }
    CountAll(started, p);
  }

  /** What the plan tears down did not cover, and everything it starts does. */
  lemma TickAddsCover(input: ScaleInput, next: ScaleInput, size: Sizing, base: string)
    requires WellNamed(input.workers, base) && Tick(input, next, size, base) && input.jobs != []
    ensures CoveringCount(next) == CoveringCount(input) + |Plan(input, size).spawns|
  {
    var plan, repos := Plan(input, size), DemandRepos(input.jobs);
    var p := w => CoversAlone(w, input.postJobExit, repos, input.grace);
    TickKeepsNames(input, next, size, base);
    WellNamedIsUnique(input.workers, base);
    WellNamedIsUnique(next.workers, base);
    CoveringAlone(input, p);
    CoveringAlone(next, p);
    forall w | w in input.workers && w.workerId in plan.scaleIn ensures !p(w) {
      ReclaimIsSafe(input, size, w);
      CoversIsCoversAlone(input, w);
    }
    forall k | 0 <= k < |plan.spawns| ensures plan.spawns[k].job.repo in repos {
      SpawnsServeDemand(input, size, k);
    }
    FollowsAddsCover(input.workers, plan.scaleIn, plan.spawns, next.workers, base, input.grace, input.postJobExit,
                     repos, p);
  }

  /** The need drops by exactly the number of workers started. */
  lemma TickReducesNeed(input: ScaleInput, next: ScaleInput, size: Sizing, base: string)
    requires WellNamed(input.workers, base) && Tick(input, next, size, base)
    ensures Need(next) == Need(input) - |Plan(input, size).spawns|
  {
    PlacedSlots(input, size);
    if input.jobs != [] {
      TickAddsCover(input, next, size, base);
    }
  }

  // ---------------------------------------------------------------------------
  // Whole runs
  // ---------------------------------------------------------------------------

  ghost predicate IsRun(ticks: seq<ScaleInput>, size: Sizing, base: string) {
    && ticks != [] && WellNamed(ticks[0].workers, base)
    && forall k :: 0 <= k < |ticks| - 1 ==> Tick(ticks[k], ticks[k + 1], size, base)
  }

  /** Workers started by all ticks but the last. */
  function Started(ticks: seq<ScaleInput>, size: Sizing): nat {
    if |ticks| <= 1 then 0 else |Plan(ticks[0], size).spawns| + Started(ticks[1..], size)
  }

  lemma RestOfRun(ticks: seq<ScaleInput>, size: Sizing, base: string)
    requires IsRun(ticks, size, base) && |ticks| > 1
    ensures IsRun(ticks[1..], size, base)
  {
    TickKeepsNames(ticks[0], ticks[1], size, base);
    forall k | 0 <= k < |ticks[1..]| - 1 ensures Tick(ticks[1..][k], ticks[1..][k + 1], size, base) {
      assert Tick(ticks[k + 1], ticks[k + 2], size, base);
    }
  }

  /** No run starts more workers than were needed at its start: what was started and what is
      still needed always add up. */
  lemma {:induction false} RunConservesNeed(ticks: seq<ScaleInput>, size: Sizing, base: string)
    requires IsRun(ticks, size, base)
    ensures Need(ticks[|ticks| - 1]) + Started(ticks, size) == Need(ticks[0])
    decreases |ticks|
  {
    if |ticks| > 1 {
      assert Tick(ticks[0], ticks[0 + 1], size, base);
      TickReducesNeed(ticks[0], ticks[1], size, base);
      RestOfRun(ticks, size, base);
      RunConservesNeed(ticks[1..], size, base);
    }
  }

  /** Within as many ticks as workers were needed, the need is met or some tick is out of
      capacity. */
  lemma {:induction false} RunMeetsDemand(ticks: seq<ScaleInput>, size: Sizing, base: string) returns (k: nat)
    requires IsRun(ticks, size, base) && |ticks| > Need(ticks[0])
    requires forall i :: 0 <= i < |ticks| ==> ticks[i].maxSpawn >= 1
    ensures k <= Need(ticks[0]) && (Need(ticks[k]) == 0 || !CanSpawnNow(ticks[k]))
    decreases |ticks|
  {
    k := 0;
    if Need(ticks[0]) > 0 && CanSpawnNow(ticks[0]) {
      SpawnsWhenItCan(ticks[0], size);
      assert Tick(ticks[0], ticks[0 + 1], size, base);
      TickReducesNeed(ticks[0], ticks[1], size, base);
      RestOfRun(ticks, size, base);
      forall i | 0 <= i < |ticks[1..]| ensures ticks[1..][i].maxSpawn >= 1 {
        assert ticks[i + 1].maxSpawn >= 1;
      }
      var later := RunMeetsDemand(ticks[1..], size, base);
      k := later + 1;
    }
  }
}
