/** The names of the managers are all that the safety of the fleet asks of its operator: a run that
    breaks it exists as soon as two runner names are equal or one container name is a prefix of another. */
module FleetNames {
  import opened Decimal
  import opened Names
  import opened Pool
  import opened Planner
  import opened PlannerLaws
  import opened Fleet

  ghost predicate CanReach(cfg: Config, size: Sizing, s: State) {
    exists states, actions :: IsRun(cfg, size, states, actions) && states[|states| - 1] == s
  }

  lemma StartIsReached(cfg: Config, size: Sizing)
    ensures CanReach(cfg, size, Start(cfg))
  {
    assert IsRun(cfg, size, [Start(cfg)], []);
  }

  lemma StepIsReached(cfg: Config, size: Sizing, s: State, a: Action)
    requires CanReach(cfg, size, s) && Enabled(cfg, size, s, a)
    ensures CanReach(cfg, size, Do(cfg, size, s, a))
  {
    var states, actions :| IsRun(cfg, size, states, actions) && states[|states| - 1] == s;
    var more, done := states + [Do(cfg, size, s, a)], actions + [a];
    forall k | 0 <= k < |done| ensures Goes(cfg, size, more[k], done[k], more[k + 1]) {
      if k < |actions| {
        assert Goes(cfg, size, states[k], actions[k], states[k + 1]);
      }
    }
    assert IsRun(cfg, size, more, done);
  }

  /** In every reachable state each running container holds a claim of its own size. */
  ghost predicate AlwaysClaimed(cfg: Config, size: Sizing) {
    forall s :: CanReach(cfg, size, s) ==> AllClaimed(s)
  }

  /** The caps leave room for the smallest worker. */
  predicate RoomForOne(caps: Caps) {
    caps.maxCpus >= MIN_CPUS && MIN_MIB <= caps.maxMib < U64_LIMIT - 1 && caps.maxWorkers >= 1
  }

  // ---------------------------------------------------------------------------
  // A plan for one job on an empty host
  // ---------------------------------------------------------------------------

  function OneJob(caps: Caps, job: DemandSignal): ScaleInput {
    ScaleInput([job], [], caps.maxCpus, caps.maxMib, 1, 0, 1, false, 1, true, 0)
  }

  lemma OneJobPlan(caps: Caps, size: Sizing, job: DemandSignal)
    requires RoomForOne(caps)
    ensures var plan := Plan(OneJob(caps, job), size);
            && plan.scaleIn == [] && plan.spawns != []
            && Fits([], plan.spawns[0].cpus, plan.spawns[0].mib, caps)
  {
    var input := OneJob(caps, job);
    assert CoveringCount(input) == 0 && IdleIds(input) == [] && UsedSlots(input.workers) == {};
    SpawnsWhenItCan(input, size);
    PackingIsConservative(input, size);
    var spawns := Plan(input, size).spawns;
    assert |spawns| == 1 && spawns[..0] == [];
    assert CpusPlanned(spawns) == spawns[0].cpus && MibPlanned(spawns) == spawns[0].mib;
  }

  // ---------------------------------------------------------------------------
  // Two managers whose names clash
  // ---------------------------------------------------------------------------

  lemma Take(cfg: Config, size: Sizing, s: State, a: Action) returns (t: State)
    requires CanReach(cfg, size, s) && Enabled(cfg, size, s, a)
    ensures t == Do(cfg, size, s, a) && CanReach(cfg, size, t)
  {
    StepIsReached(cfg, size, s, a);
    t := Do(cfg, size, s, a);
  }

  lemma DropOnlyClaim(c: Claim)
    ensures WithoutWorker([c], c.workerId) == []
  {
    assert [c][1..] == [];
  }

  /** The claim that manager `i` makes for its first planned worker. */
  function FirstClaim(cfg: Config, size: Sizing, i: nat, job: DemandSignal): Claim
    requires i < |cfg.managers| && Plan(OneJob(cfg.caps, job), size).spawns != []
  {
    var req := Plan(OneJob(cfg.caps, job), size).spawns[0];
    ClaimFor(cfg.managers[i], req.slot, Size(req.tier, req.cpus, req.mib), req.job, 0)
  }

  /** A manager whose container name is a prefix of another's takes that one's fresh claim for
      a finished worker of its own, and releases it before the container is up. */
  lemma PrefixBreaksSafety(cfg: Config, size: Sizing, i: nat, j: nat, job: DemandSignal) returns (s: State)
    requires i < |cfg.managers| && j < |cfg.managers| && i != j && RoomForOne(cfg.caps)
    requires cfg.managers[i].container <= cfg.managers[j].container
    ensures CanReach(cfg, size, s) && !AllClaimed(s)
  {
    OneJobPlan(cfg.caps, size, job);
    var c := FirstClaim(cfg, size, j, job);
    DropOnlyClaim(c);
    StartIsReached(cfg, size);
    s := Take(cfg, size, Start(cfg), MakePlan(j, OneJob(cfg.caps, job)));
    s := Take(cfg, size, s, ClaimPlanned(j, 0));
    assert s.claims == [c];
    s := Take(cfg, size, s, Reap(i, c));
    s := Take(cfg, size, s, Release(i));
    s := Take(cfg, size, s, Up(j));
    assert c.container in s.running && !Claimed(s.claims, c.container, s.running[c.container]);
  }

  /** Two managers with one runner name claim under the same worker id: the second claim
      replaces the first, whose container is up. */
  lemma SameRunnerBreaksSafety(cfg: Config, size: Sizing, i: nat, j: nat, job: DemandSignal) returns (s: State)
    requires i < |cfg.managers| && j < |cfg.managers| && i != j && RoomForOne(cfg.caps)
    requires cfg.managers[i].runner == cfg.managers[j].runner
    requires PrefixFree(cfg.managers[i].container, cfg.managers[j].container)
    ensures CanReach(cfg, size, s) && !AllClaimed(s)
  {
    OneJobPlan(cfg.caps, size, job);
    var c, d := FirstClaim(cfg, size, i, job), FirstClaim(cfg, size, j, job);
    var slot := Plan(OneJob(cfg.caps, job), size).spawns[0].slot;
    ForeignNamesDiffer(cfg.managers[i].container, cfg.managers[j].container, slot, slot);
    DropOnlyClaim(c);
    StartIsReached(cfg, size);
    s := Take(cfg, size, Start(cfg), MakePlan(j, OneJob(cfg.caps, job)));
    s := PlanClaimUp(cfg, size, s, i, job);
    s := Take(cfg, size, s, ClaimPlanned(j, 0));
    assert s.claims == [d];
    assert c.container in s.running && !Claimed(s.claims, c.container, s.running[c.container]);
  }

  /** A manager plans, claims and starts its first worker. */
  lemma PlanClaimUp(cfg: Config, size: Sizing, s: State, i: nat, job: DemandSignal) returns (t: State)
    requires i < |cfg.managers| == |s.phases| && RoomForOne(cfg.caps) && Plan(OneJob(cfg.caps, job), size).spawns != []
    requires CanReach(cfg, size, s) && s.claims == [] && s.running == map[] && s.phases[i] == Working([], [])
    ensures CanReach(cfg, size, t) && t.claims == [FirstClaim(cfg, size, i, job)]
    ensures FirstClaim(cfg, size, i, job).container in t.running
    ensures |t.phases| == |s.phases| && forall j :: 0 <= j < |s.phases| && j != i ==> t.phases[j] == s.phases[j]
  {
    OneJobPlan(cfg.caps, size, job);
    t := Take(cfg, size, s, MakePlan(i, OneJob(cfg.caps, job)));
    t := Take(cfg, size, t, ClaimPlanned(i, 0));
    t := Take(cfg, size, t, Up(i));
  }

  // ---------------------------------------------------------------------------
  // The exact condition
  // ---------------------------------------------------------------------------

  /** Every running container always holds its claim exactly when the runner names differ and no
      container name is a prefix of another. */
  lemma SafeIffGoodNames(cfg: Config, size: Sizing)
    requires RoomForOne(cfg.caps)
    ensures AlwaysClaimed(cfg, size) <==> GoodNames(cfg)
  {
    var job := DemandSignal("job", [], "owner/repo");
    if GoodNames(cfg) {
      forall s | CanReach(cfg, size, s) ensures AllClaimed(s) {
        var states, actions :| IsRun(cfg, size, states, actions) && states[|states| - 1] == s;
        RunKeepsInv(cfg, size, states, actions, |states| - 1);
      }
    } else {
      var i, j :| 0 <= i < j < |cfg.managers|
        && !(cfg.managers[i].runner != cfg.managers[j].runner
             && PrefixFree(cfg.managers[i].container, cfg.managers[j].container));
      var s;
      if cfg.managers[i].container <= cfg.managers[j].container {
        s := PrefixBreaksSafety(cfg, size, i, j, job);
      } else if cfg.managers[j].container <= cfg.managers[i].container {
        s := PrefixBreaksSafety(cfg, size, j, i, job);
      } else {
        s := SameRunnerBreaksSafety(cfg, size, i, j, job);
      }
    }
  }
}
