/** Several listen managers that share one pool, step by step. Each step is one critical section
    of the pool or one container operation; steps of different managers interleave freely. */
module Fleet {
  import opened Wrappers
  import opened Arithmetic
  import opened Decimal
  import opened Memory
  import opened Names
  import opened Pool
  import opened Planner
  import opened PlannerLaws

  // ---------------------------------------------------------------------------
  // State
  // ---------------------------------------------------------------------------

  datatype Manager = Manager(runner: string, container: string)

  datatype Config = Config(managers: seq<Manager>, caps: Caps)

  /** A running container, with the size it was started at: memory as the text handed to Podman. */
  datatype Unit = Unit(cpus: real, memory: string)

  /** What a manager is in the middle of, and what is left of its plan. */
  datatype Phase =
    | Working(scaleIn: seq<string>, spawns: seq<SpawnRequest>)
    | Stopping(claim: Claim, scaleIn: seq<string>, spawns: seq<SpawnRequest>) // down, not yet released
    | Starting(claim: Claim, spawns: seq<SpawnRequest>) // claimed, not yet up

  datatype State = State(claims: seq<Claim>, running: map<string, Unit>, phases: seq<Phase>)

  // ---------------------------------------------------------------------------
  // Steps
  // ---------------------------------------------------------------------------

  datatype Action =
    | MakePlan(i: nat, input: ScaleInput)             // plan from a snapshot
    | Reap(i: nat, claim: Claim)                      // take down a finished or stale worker
    | ScaleIn(i: nat, claim: Claim)                   // take down the next worker on the reclaim list
    | SkipScaleIn(i: nat)                             // busy by now, unknown, or not ours
    | Release(i: nat)                                 // release the claim of what was taken down
    | ReleaseByContainer(i: nat)                      // the same after a first release failed
    | LeaveClaim(i: nat)                              // both releases failed
    | ClaimPlanned(i: nat, at: nat)                   // claim the next planned worker
    | ClaimFitted(i: nat, at: nat, usedCpus: real, usedMib: nat) // claim what fits into the usage as last read
    | Up(i: nat)                                      // start the claimed container
    | UpFailed(i: nat, released: bool)                // it did not start
    | SkipSpawn(i: nat)                               // give up on the next planned worker
    | Exits(container: string)                        // a container ends by itself
    | Crash(i: nat)                                   // a manager dies and starts over

  /** The claim a manager makes for a slot. */
  function ClaimFor(m: Manager, slot: nat, got: Size, job: DemandSignal, at: nat): Claim {
    Claim(WorkerName(m.runner, slot), WorkerName(m.container, slot), got.cpus, got.mib, got.tier, Some(job.repo), at)
  }

  /** The live fit: budget from the usage figures as they were last read, possibly stale. */
  function FittedSize(size: Sizing, job: DemandSignal, caps: Caps, usedCpus: real, usedMib: nat): Option<Size> {
    var freeCpus := MaxReal(caps.maxCpus - usedCpus, 0.0);
    FitToBudget(size(job), freeCpus, SaturatingSub(caps.maxMib, usedMib), MIN_CPUS, MIN_MIB)
  }

  predicate HoldsSlot(m: Manager, c: Claim, slot: nat) {
    c.container == WorkerName(m.container, slot) || c.workerId == WorkerName(m.runner, slot)
  }

  /** Every own slot that holds a claim is in the snapshot: the claims could be read. */
  ghost predicate ListsClaims(m: Manager, s: State, input: ScaleInput) {
    forall slot: nat, c :: slot < input.maxLocal && c in s.claims && HoldsSlot(m, c, slot) ==>
      slot in UsedSlots(input.workers)
  }

  /** Every own slot whose container runs is in the snapshot: the liveness test saw it. */
  ghost predicate ListsRunning(m: Manager, s: State, input: ScaleInput) {
    forall slot: nat :: slot < input.maxLocal && WorkerName(m.container, slot) in s.running ==>
      slot in UsedSlots(input.workers)
  }

  /** A snapshot lists the slots that are claimed or run. One of the two readings has to be right;
      all other figures of the input may be stale or wrong. */
  ghost predicate SnapshotCovers(m: Manager, s: State, input: ScaleInput) {
    ListsClaims(m, s, input) || ListsRunning(m, s, input)
  }

  ghost predicate Enabled(cfg: Config, size: Sizing, s: State, a: Action) {
    if a.Exits? then a.container in s.running
    else
      && a.i < |cfg.managers| && a.i < |s.phases|
      && var m, phase := cfg.managers[a.i], s.phases[a.i];
         match a
         case MakePlan(_, input) => phase == Working([], []) && SnapshotCovers(m, s, input)
         case Reap(_, c) => phase == Working([], []) && c in s.claims && m.container <= c.container
         case ScaleIn(_, c) =>
           && phase.Working? && phase.scaleIn != [] && c in s.claims && c.workerId == phase.scaleIn[0]
           && m.container <= c.container
         case SkipScaleIn(_) => phase.Working? && phase.scaleIn != []
         case Release(_) => phase.Stopping?
         case ReleaseByContainer(_) => phase.Stopping?
         case LeaveClaim(_) => phase.Stopping?
         case ClaimPlanned(_, _) => phase.Working? && phase.scaleIn == [] && phase.spawns != []
         case ClaimFitted(_, _, usedCpus, usedMib) =>
           && phase.Working? && phase.scaleIn == [] && phase.spawns != []
           && FittedSize(size, phase.spawns[0].job, cfg.caps, usedCpus, usedMib).Some?
         case Up(_) => phase.Starting? && phase.spawns != []
         case UpFailed(_, _) => phase.Starting? && phase.claim.container !in s.running
         case SkipSpawn(_) => phase.Working? && phase.scaleIn == [] && phase.spawns != []
         case Crash(_) => true
  }

  /** `try_claim` for the request at the head of the plan. */
  function TryClaim(cfg: Config, s: State, i: nat, c: Claim, spawns: seq<SpawnRequest>): State
    requires i < |s.phases|
  {
    var claims := AfterTryClaim(s.claims, c, cfg.caps);
    var ok := Fits(WithoutWorker(s.claims, c.workerId), c.cpus, c.mib, cfg.caps);
    s.(claims := claims, phases := s.phases[i := if ok then Starting(c, spawns) else Working([], spawns)])
  }

  function Do(cfg: Config, size: Sizing, s: State, a: Action): State
    requires Enabled(cfg, size, s, a)
  {
    match a
    case MakePlan(i, input) =>
      var plan := Plan(input, size);
      s.(phases := s.phases[i := Working(plan.scaleIn, plan.spawns)])
    case Reap(i, c) =>
      s.(running := s.running - {c.container}, phases := s.phases[i := Stopping(c, [], [])])
    case ScaleIn(i, c) =>
      var phase := s.phases[i];
      s.(running := s.running - {c.container}, phases := s.phases[i := Stopping(c, phase.scaleIn[1..], phase.spawns)])
    case SkipScaleIn(i) =>
      var phase := s.phases[i];
      s.(phases := s.phases[i := Working(phase.scaleIn[1..], phase.spawns)])
    case Release(i) =>
      var phase := s.phases[i];
      s.(claims := WithoutWorker(s.claims, phase.claim.workerId),
         phases := s.phases[i := Working(phase.scaleIn, phase.spawns)])
    case ReleaseByContainer(i) =>
      var phase := s.phases[i];
      s.(claims := WithoutContainer(s.claims, phase.claim.container),
         phases := s.phases[i := Working(phase.scaleIn, phase.spawns)])
    case LeaveClaim(i) =>
      var phase := s.phases[i];
      s.(phases := s.phases[i := Working(phase.scaleIn, phase.spawns)])
    case ClaimPlanned(i, at) =>
      var spawns := s.phases[i].spawns;
      var req := spawns[0];
      TryClaim(cfg, s, i, ClaimFor(cfg.managers[i], req.slot, Size(req.tier, req.cpus, req.mib), req.job, at), spawns)
    case ClaimFitted(i, at, usedCpus, usedMib) =>
      var spawns := s.phases[i].spawns;
      var req := spawns[0];
      var got := FittedSize(size, req.job, cfg.caps, usedCpus, usedMib).value;
      TryClaim(cfg, s, i, ClaimFor(cfg.managers[i], req.slot, got, req.job, at), spawns)
    case Up(i) =>
      // A container that already runs is left as it is.
      var phase := s.phases[i];
      var c := phase.claim;
      var running := if c.container in s.running then s.running
                     else s.running[c.container := Unit(c.cpus, FormatMemoryMib(c.mib))];
      s.(running := running, phases := s.phases[i := Working([], phase.spawns[1..])])
    case UpFailed(i, released) =>
      var phase := s.phases[i];
      s.(claims := if released then WithoutWorker(s.claims, phase.claim.workerId) else s.claims,
         phases := s.phases[i := Working([], phase.spawns)])
    case SkipSpawn(i) =>
      s.(phases := s.phases[i := Working([], s.phases[i].spawns[1..])])
    case Exits(container) =>
      s.(running := s.running - {container})
    case Crash(i) =>
      s.(phases := s.phases[i := Working([], [])])
  }

  function Start(cfg: Config): State {
    State([], map[], seq(|cfg.managers|, _ => Working([], [])))
  }

  // ---------------------------------------------------------------------------
  // The invariant
  // ---------------------------------------------------------------------------

  /** Runner names differ, and container names are no prefixes of each other. */
  ghost predicate GoodNames(cfg: Config) {
    forall i, j :: 0 <= i < j < |cfg.managers| ==>
      && cfg.managers[i].runner != cfg.managers[j].runner
      && PrefixFree(cfg.managers[i].container, cfg.managers[j].container)
  }

  ghost predicate GoodConfig(cfg: Config) {
    GoodNames(cfg) && cfg.caps.maxCpus >= 0.0 && cfg.caps.maxMib < U64_LIMIT - 1
  }

  predicate Owns(cfg: Config, c: Claim, i: nat, slot: nat) {
    && i < |cfg.managers|
    && c.workerId == WorkerName(cfg.managers[i].runner, slot)
    && c.container == WorkerName(cfg.managers[i].container, slot)
  }

  ghost predicate Named(cfg: Config, c: Claim) {
    exists i, slot :: Owns(cfg, c, i, slot)
  }

  predicate RunsAs(u: Unit, c: Claim) {
    u.cpus == c.cpus && u.memory == FormatMemoryMib(c.mib)
  }

  ghost predicate Claimed(claims: seq<Claim>, container: string, u: Unit) {
    exists c :: c in claims && c.container == container && RunsAs(u, c)
  }

  /** Every running container holds a claim of its own size. */
  ghost predicate AllClaimed(s: State) {
    forall k :: k in s.running ==> Claimed(s.claims, k, s.running[k])
  }

  /** The planned workers have sizes, slots of their own, and no container that runs. */
  ghost predicate SpawnsReady(m: Manager, spawns: seq<SpawnRequest>, running: map<string, Unit>) {
    && (forall k :: 0 <= k < |spawns| ==> spawns[k].cpus > 0.0 && spawns[k].mib > 0)
    && (forall j, k :: 0 <= j < k < |spawns| ==> spawns[j].slot != spawns[k].slot)
    && (forall k :: 0 <= k < |spawns| ==> WorkerName(m.container, spawns[k].slot) !in running)
  }

  ghost predicate PhaseReady(cfg: Config, claims: seq<Claim>, running: map<string, Unit>, i: nat, phase: Phase)
    requires i < |cfg.managers|
  {
    && SpawnsReady(cfg.managers[i], phase.spawns, running)
    && (phase.Stopping? ==> phase.claim.container !in running && exists slot :: Owns(cfg, phase.claim, i, slot))
    && (phase.Starting? ==>
          phase.spawns != [] && phase.claim in claims && Owns(cfg, phase.claim, i, phase.spawns[0].slot))
  }

  ghost predicate AllReady(cfg: Config, s: State)
    requires |s.phases| == |cfg.managers|
  {
    forall i :: 0 <= i < |s.phases| ==> PhaseReady(cfg, s.claims, s.running, i, s.phases[i])
  }

  ghost predicate Inv(cfg: Config, s: State) {
    && |s.phases| == |cfg.managers|
    && Sound(s.claims, cfg.caps)
    && (forall c :: c in s.claims ==> Named(cfg, c))
    && AllClaimed(s)
    && AllReady(cfg, s)
  }

  // ---------------------------------------------------------------------------
  // Names tell managers apart
  // ---------------------------------------------------------------------------

  lemma OneOwner(cfg: Config, c: Claim, i: nat, slot: nat, d: Claim, j: nat, other: nat)
    requires GoodConfig(cfg) && Owns(cfg, c, i, slot) && Owns(cfg, d, j, other)
    requires c.workerId == d.workerId || c.container == d.container
    ensures i == j && slot == other && c.workerId == d.workerId && c.container == d.container
  {
    var m, n := cfg.managers[i], cfg.managers[j];
    if i != j {
      ForeignNamesDiffer(m.container, n.container, slot, other);
      if |m.runner| <= |n.runner| {
        SameNameSameBase(m.runner, n.runner, slot, other);
      } else {
        SameNameSameBase(n.runner, m.runner, other, slot);
      }
      assert false;
    } else if c.workerId == d.workerId {
      WorkerNameInjective(m.runner, slot, other);
    } else {
      WorkerNameInjective(m.container, slot, other);
    }
  }

  /** The prefix test finds only a manager's own workers. */
  lemma PrefixMeansOwn(cfg: Config, c: Claim, i: nat) returns (slot: nat)
    requires GoodConfig(cfg) && Named(cfg, c) && i < |cfg.managers| && cfg.managers[i].container <= c.container
    ensures Owns(cfg, c, i, slot)
  {
    var j: nat, other: nat :| Owns(cfg, c, j, other);
    slot := other;
    if i != j {
      ForeignNamesDiffer(cfg.managers[i].container, cfg.managers[j].container, 0, other);
    }
  }

  // ---------------------------------------------------------------------------
  // Steps keep the invariant
  // ---------------------------------------------------------------------------

  lemma PhaseStep(cfg: Config, s: State, i: nat, phase: Phase)
    requires Inv(cfg, s) && i < |s.phases| && PhaseReady(cfg, s.claims, s.running, i, phase)
    ensures Inv(cfg, s.(phases := s.phases[i := phase]))
  {
    var t := s.(phases := s.phases[i := phase]);
    assert forall k :: k in s.running ==> Claimed(s.claims, k, s.running[k]);
    forall j | 0 <= j < |t.phases| ensures PhaseReady(cfg, t.claims, t.running, j, t.phases[j]) {
      assert PhaseReady(cfg, s.claims, s.running, j, s.phases[j]);
    }
  }

  /** Containers that end leave everything else valid. */
  lemma EndStep(cfg: Config, s: State, container: string)
    requires Inv(cfg, s)
    ensures Inv(cfg, s.(running := s.running - {container}))
  {
    var t := s.(running := s.running - {container});
    forall k | k in t.running ensures Claimed(t.claims, k, t.running[k]) {
      assert Claimed(s.claims, k, s.running[k]);
    }
    forall j | 0 <= j < |t.phases| ensures PhaseReady(cfg, t.claims, t.running, j, t.phases[j]) {
      assert PhaseReady(cfg, s.claims, s.running, j, s.phases[j]);
    }
  }

  /** Only claims of this worker are dropped or added. */
  ghost predicate OnlyTouches(claims: seq<Claim>, after: seq<Claim>, own: Claim) {
    && (forall c :: c in claims && c.workerId != own.workerId && c.container != own.container ==> c in after)
    && (forall c :: c in after ==> c in claims || c == own)
  }

  /** Claims of a worker whose container does not run may come and go. */
  lemma ClaimStep(cfg: Config, s: State, i: nat, slot: nat, own: Claim, claims: seq<Claim>, phase: Phase)
    requires GoodConfig(cfg) && Inv(cfg, s) && i < |s.phases|
    requires Owns(cfg, own, i, slot) && own.container !in s.running
    requires OnlyTouches(s.claims, claims, own) && Sound(claims, cfg.caps)
    requires PhaseReady(cfg, claims, s.running, i, phase)
    ensures Inv(cfg, s.(claims := claims, phases := s.phases[i := phase]))
  {
    var t := s.(claims := claims, phases := s.phases[i := phase]);
    forall c | c in claims ensures Named(cfg, c) {
      if c == own {
        assert Owns(cfg, c, i, slot);
      }
    }
    forall k | k in t.running ensures Claimed(claims, k, t.running[k]) {
      assert Claimed(s.claims, k, s.running[k]);
      var c :| c in s.claims && c.container == k && RunsAs(s.running[k], c);
      assert Named(cfg, c);
      var j: nat, other: nat :| Owns(cfg, c, j, other);
      if c.workerId == own.workerId {
        OneOwner(cfg, c, j, other, own, i, slot);
        assert false;
      }
    }
    forall j | 0 <= j < |t.phases| ensures PhaseReady(cfg, claims, t.running, j, t.phases[j]) {
      assert PhaseReady(cfg, s.claims, s.running, j, s.phases[j]);
      var before := s.phases[j];
      if j != i && before.Starting? {
        var c := before.claim;
        if c.workerId == own.workerId || c.container == own.container {
          OneOwner(cfg, c, j, before.spawns[0].slot, own, i, slot);
          assert false;
        }
      }
    }
  }

  lemma DownStep(cfg: Config, s: State, i: nat, c: Claim, scaleIn: seq<string>, spawns: seq<SpawnRequest>)
    requires GoodConfig(cfg) && Inv(cfg, s) && i < |s.phases| && c in s.claims
    requires cfg.managers[i].container <= c.container
    requires SpawnsReady(cfg.managers[i], spawns, s.running)
    ensures Inv(cfg, s.(running := s.running - {c.container}, phases := s.phases[i := Stopping(c, scaleIn, spawns)]))
  {
    var slot := PrefixMeansOwn(cfg, c, i);
    EndStep(cfg, s, c.container);
    PhaseStep(cfg, s.(running := s.running - {c.container}), i, Stopping(c, scaleIn, spawns));
  }

  function Freed(claims: seq<Claim>, own: Claim, byContainer: bool): seq<Claim> {
    if byContainer then WithoutContainer(claims, own.container) else WithoutWorker(claims, own.workerId)
  }

  lemma ReleaseStep(cfg: Config, s: State, i: nat, slot: nat, own: Claim, byContainer: bool, phase: Phase)
    requires GoodConfig(cfg) && Inv(cfg, s) && i < |s.phases| && phase.Working?
    requires Owns(cfg, own, i, slot) && own.container !in s.running
    requires SpawnsReady(cfg.managers[i], phase.spawns, s.running)
    ensures var claims := Freed(s.claims, own, byContainer);
            Inv(cfg, s.(claims := claims, phases := s.phases[i := phase]))
  {
    var claims := Freed(s.claims, own, byContainer);
    WithoutContainerMeans(s.claims, own.container);
    WithoutWorkerMeans(s.claims, own.workerId);
    ReleaseContainerKeepsSound(s.claims, own.container, cfg.caps);
    ReleaseKeepsSound(s.claims, own.workerId, cfg.caps);
    ClaimStep(cfg, s, i, slot, own, claims, phase);
  }

  lemma TryClaimStep(cfg: Config, s: State, i: nat, got: Size, at: nat)
    requires GoodConfig(cfg) && Inv(cfg, s) && i < |s.phases| && s.phases[i].spawns != []
    requires got.cpus > 0.0 && got.mib > 0
    ensures var spawns := s.phases[i].spawns;
            Inv(cfg, TryClaim(cfg, s, i, ClaimFor(cfg.managers[i], spawns[0].slot, got, spawns[0].job, at), spawns))
  {
    var spawns := s.phases[i].spawns;
    var slot := spawns[0].slot;
    var c := ClaimFor(cfg.managers[i], slot, got, spawns[0].job, at);
    var claims := AfterTryClaim(s.claims, c, cfg.caps);
    assert PhaseReady(cfg, s.claims, s.running, i, s.phases[i]);
    WithoutWorkerMeans(s.claims, c.workerId);
    TryClaimKeepsSound(s.claims, c, cfg.caps);
    var fits := Fits(WithoutWorker(s.claims, c.workerId), c.cpus, c.mib, cfg.caps);
    var phase := if fits then Starting(c, spawns) else Working([], spawns);
    ClaimStep(cfg, s, i, slot, c, claims, phase);
  }

  lemma UpKeepsClaimed(claims: seq<Claim>, running: map<string, Unit>, c: Claim, u: Unit, after: map<string, Unit>)
    requires c in claims && RunsAs(u, c) && after == running[c.container := u]
    requires forall k :: k in running ==> Claimed(claims, k, running[k])
    ensures forall k :: k in after ==> Claimed(claims, k, after[k])
  {
  }

  lemma UpStep(cfg: Config, s: State, i: nat, u: Unit, t: State)
    requires GoodConfig(cfg) && Inv(cfg, s) && i < |s.phases| && s.phases[i].Starting? && s.phases[i].spawns != []
    requires u == Unit(s.phases[i].claim.cpus, FormatMemoryMib(s.phases[i].claim.mib))
    requires var next := Working([], s.phases[i].spawns[1..]);
             t == State(s.claims, s.running[s.phases[i].claim.container := u], s.phases[i := next])
    ensures s.phases[i].claim.container !in s.running && Inv(cfg, t)
  {
    assert PhaseReady(cfg, s.claims, s.running, i, s.phases[i]);
    UpKeepsClaimed(s.claims, s.running, s.phases[i].claim, u, t.running);
    forall j | 0 <= j < |t.phases| ensures PhaseReady(cfg, t.claims, t.running, j, t.phases[j]) {
      UpKeepsReady(cfg, s, i, j, u, t.running);
    }
  }

  /** A started container is nobody else's, and no other slot's of the same manager. */
  lemma UpKeepsReady(cfg: Config, s: State, i: nat, j: nat, u: Unit, running: map<string, Unit>)
    requires GoodConfig(cfg) && Inv(cfg, s) && i < |s.phases| && s.phases[i].Starting? && j < |s.phases|
    requires s.phases[i].spawns != [] && running == s.running[s.phases[i].claim.container := u]
    ensures PhaseReady(cfg, s.claims, running, j, if j == i then Working([], s.phases[i].spawns[1..]) else s.phases[j])
  {
    var phase, m, n := s.phases[i], cfg.managers[i], cfg.managers[j];
    assert PhaseReady(cfg, s.claims, s.running, i, phase);
    assert PhaseReady(cfg, s.claims, s.running, j, s.phases[j]);
    var slot := phase.spawns[0].slot;
    if j == i {
      OwnSlotsStayReady(m, phase.spawns, s.running, u);
    } else {
      ForeignSlotsStayReady(m, n, slot, s.phases[j].spawns, s.running, u);
      if s.phases[j].Stopping? {
        var other :| Owns(cfg, s.phases[j].claim, j, other);
        ForeignNamesDiffer(n.container, m.container, other, slot);
      }
    }
  }

  lemma OwnSlotsStayReady(m: Manager, spawns: seq<SpawnRequest>, running: map<string, Unit>, u: Unit)
    requires spawns != [] && SpawnsReady(m, spawns, running)
    ensures SpawnsReady(m, spawns[1..], running[WorkerName(m.container, spawns[0].slot) := u])
  {
    var name := WorkerName(m.container, spawns[0].slot);
    forall k | 1 <= k < |spawns| ensures WorkerName(m.container, spawns[k].slot) !in running[name := u] {
      if WorkerName(m.container, spawns[k].slot) == name {
        WorkerNameInjective(m.container, spawns[k].slot, spawns[0].slot);
      }
    }
  }

  lemma ForeignSlotsStayReady(m: Manager, n: Manager, slot: nat, spawns: seq<SpawnRequest>,
                              running: map<string, Unit>, u: Unit)
    requires PrefixFree(m.container, n.container) && SpawnsReady(n, spawns, running)
    ensures SpawnsReady(n, spawns, running[WorkerName(m.container, slot) := u])
  {
    forall k | 0 <= k < |spawns| ensures WorkerName(n.container, spawns[k].slot) != WorkerName(m.container, slot) {
      ForeignNamesDiffer(n.container, m.container, spawns[k].slot, slot);
    }
  }

  // ---------------------------------------------------------------------------
  // Plans
  // ---------------------------------------------------------------------------

  lemma PlannedSizesPositive(input: ScaleInput, size: Sizing, k: nat)
    requires k < |Plan(input, size).spawns|
    ensures Plan(input, size).spawns[k].cpus > 0.0 && Plan(input, size).spawns[k].mib > 0
  {
    var idx := PackingIsMaximal(input, size);
    var p := Placed(input, size);
    assert AtSize(p.spawns[k], size(input.jobs[idx[k]])) || OneShrunk(p, input.jobs, size);
  }

  /** The snapshot lists every own slot whose container runs, because that container holds a claim. */
  lemma RunningIsListed(s: State, m: Manager, input: ScaleInput, slot: nat)
    requires AllClaimed(s) && SnapshotCovers(m, s, input) && slot < input.maxLocal
    requires WorkerName(m.container, slot) in s.running
    ensures slot in UsedSlots(input.workers)
  {
    var name := WorkerName(m.container, slot);
    if ListsClaims(m, s, input) {
      assert Claimed(s.claims, name, s.running[name]);
      var c :| c in s.claims && c.container == name && RunsAs(s.running[name], c);
      assert HoldsSlot(m, c, slot);
    }
  }

  lemma PlanStep(cfg: Config, size: Sizing, s: State, i: nat, input: ScaleInput)
    requires Inv(cfg, s) && i < |s.phases| && SnapshotCovers(cfg.managers[i], s, input)
    ensures var plan := Plan(input, size);
            Inv(cfg, s.(phases := s.phases[i := Working(plan.scaleIn, plan.spawns)]))
  {
    var plan, m := Plan(input, size), cfg.managers[i];
    SlotsAreFresh(input, size);
    PlacedSlots(input, size);
    forall k | 0 <= k < |plan.spawns|
      ensures plan.spawns[k].cpus > 0.0 && plan.spawns[k].mib > 0
      ensures WorkerName(m.container, plan.spawns[k].slot) !in s.running
    {
      PlannedSizesPositive(input, size, k);
      assert plan.spawns[k].slot !in UsedSlots(input.workers);
      if WorkerName(m.container, plan.spawns[k].slot) in s.running {
        RunningIsListed(s, m, input, plan.spawns[k].slot);
      }
    }
    PhaseStep(cfg, s, i, Working(plan.scaleIn, plan.spawns));
  }

  // ---------------------------------------------------------------------------
  // Every step, every run
  // ---------------------------------------------------------------------------

  lemma ReleasesKeepInv(cfg: Config, size: Sizing, s: State, a: Action)
    requires GoodConfig(cfg) && Inv(cfg, s) && Enabled(cfg, size, s, a)
    requires a.Release? || a.ReleaseByContainer? || (a.UpFailed? && a.released)
    ensures Inv(cfg, Do(cfg, size, s, a))
  {
    var phase := s.phases[a.i];
    assert PhaseReady(cfg, s.claims, s.running, a.i, phase);
    var slot :| Owns(cfg, phase.claim, a.i, slot);
    ReleaseStep(cfg, s, a.i, slot, phase.claim, a.ReleaseByContainer?,
                Working(if a.UpFailed? then [] else phase.scaleIn, phase.spawns));
  }

  lemma DownsKeepInv(cfg: Config, size: Sizing, s: State, a: Action)
    requires GoodConfig(cfg) && Inv(cfg, s) && Enabled(cfg, size, s, a) && (a.Reap? || a.ScaleIn?)
    ensures Inv(cfg, Do(cfg, size, s, a))
  {
    var phase := s.phases[a.i];
    assert PhaseReady(cfg, s.claims, s.running, a.i, phase);
    DownStep(cfg, s, a.i, a.claim, if a.Reap? then [] else phase.scaleIn[1..], if a.Reap? then [] else phase.spawns);
  }

  lemma ClaimsKeepInv(cfg: Config, size: Sizing, s: State, a: Action)
    requires GoodConfig(cfg) && Inv(cfg, s) && Enabled(cfg, size, s, a) && (a.ClaimPlanned? || a.ClaimFitted?)
    ensures Inv(cfg, Do(cfg, size, s, a))
  {
    var req := s.phases[a.i].spawns[0];
    assert PhaseReady(cfg, s.claims, s.running, a.i, s.phases[a.i]);
    var got := if a.ClaimPlanned? then Size(req.tier, req.cpus, req.mib)
               else FittedSize(size, req.job, cfg.caps, a.usedCpus, a.usedMib).value;
    TryClaimStep(cfg, s, a.i, got, a.at);
  }

  /** Planned workers that are given up, and steps that lose the rest of a plan, need nothing. */
  lemma LessReady(m: Manager, spawns: seq<SpawnRequest>, running: map<string, Unit>, left: seq<SpawnRequest>)
    requires SpawnsReady(m, spawns, running) && (left == spawns || left == [] || (spawns != [] && left == spawns[1..]))
    ensures SpawnsReady(m, left, running)
  {
  }

  lemma SkipsKeepInv(cfg: Config, size: Sizing, s: State, a: Action)
    requires GoodConfig(cfg) && Inv(cfg, s) && Enabled(cfg, size, s, a)
    requires a.SkipScaleIn? || a.LeaveClaim? || a.SkipSpawn? || a.Crash? || (a.UpFailed? && !a.released)
    ensures Inv(cfg, Do(cfg, size, s, a))
  {
    var spawns := s.phases[a.i].spawns;
    var left := if a.Crash? then [] else if a.SkipSpawn? then spawns[1..] else spawns;
    var rest := if a.SkipScaleIn? then s.phases[a.i].scaleIn[1..]
                else if a.LeaveClaim? then s.phases[a.i].scaleIn
                else [];
    assert PhaseReady(cfg, s.claims, s.running, a.i, s.phases[a.i]);
    LessReady(cfg.managers[a.i], spawns, s.running, left);
    PhaseStep(cfg, s, a.i, Working(rest, left));
  }

  lemma StepKeepsInv(cfg: Config, size: Sizing, s: State, a: Action)
    requires GoodConfig(cfg) && Inv(cfg, s) && Enabled(cfg, size, s, a)
    ensures Inv(cfg, Do(cfg, size, s, a))
  {
    if a.MakePlan? {
      PlanStep(cfg, size, s, a.i, a.input);
    } else if a.Reap? || a.ScaleIn? {
      DownsKeepInv(cfg, size, s, a);
    } else if a.Release? || a.ReleaseByContainer? || (a.UpFailed? && a.released) {
      ReleasesKeepInv(cfg, size, s, a);
    } else if a.ClaimPlanned? || a.ClaimFitted? {
      ClaimsKeepInv(cfg, size, s, a);
    } else if a.Up? {
      var c := s.phases[a.i].claim;
      var u := Unit(c.cpus, FormatMemoryMib(c.mib));
      var next := Working([], s.phases[a.i].spawns[1..]);
      UpStep(cfg, s, a.i, u, State(s.claims, s.running[c.container := u], s.phases[a.i := next]));
    } else if a.Exits? {
      EndStep(cfg, s, a.container);
    } else {
      SkipsKeepInv(cfg, size, s, a);
    }
  }

  ghost predicate Goes(cfg: Config, size: Sizing, s: State, a: Action, t: State) {
    Enabled(cfg, size, s, a) && t == Do(cfg, size, s, a)
  }

  /** Some interleaving of steps of all managers, from the empty pool. */
  ghost predicate IsRun(cfg: Config, size: Sizing, states: seq<State>, actions: seq<Action>) {
    && |states| == |actions| + 1 && states[0] == Start(cfg)
    && forall k :: 0 <= k < |actions| ==> Goes(cfg, size, states[k], actions[k], states[k + 1])
  }

  lemma {:induction false} RunKeepsInv(cfg: Config, size: Sizing, states: seq<State>, actions: seq<Action>, k: nat)
    requires GoodConfig(cfg) && IsRun(cfg, size, states, actions) && k < |states|
    ensures Inv(cfg, states[k])
  {
    if k > 0 {
      RunKeepsInv(cfg, size, states, actions, k - 1);
      assert Goes(cfg, size, states[k - 1], actions[k - 1], states[k - 1 + 1]);
      StepKeepsInv(cfg, size, states[k - 1], actions[k - 1]);
    }
  }

  /** In every interleaving of the managers, at every moment: worker ids are unique, the claims
      stay within the caps, and each running container holds a claim of its own size. The
      memory text that Podman was given denotes the MiB claimed. */
  lemma FleetIsSafe(cfg: Config, size: Sizing, states: seq<State>, actions: seq<Action>, k: nat)
    requires GoodConfig(cfg) && IsRun(cfg, size, states, actions) && k < |states|
    ensures var s := states[k];
            && UniqueWorkers(s.claims)
            && CpusOf(s.claims) <= cfg.caps.maxCpus + SLACK
            && MibOf(s.claims) <= cfg.caps.maxMib
            && |s.claims| <= cfg.caps.maxWorkers
    ensures var s := states[k];
            forall name :: name in s.running ==>
              exists c :: c in s.claims && c.container == name && c.cpus == s.running[name].cpus
                          && ParseMemoryMib(s.running[name].memory) == Some(c.mib)
  {
    RunKeepsInv(cfg, size, states, actions, k);
    var s := states[k];
    forall name | name in s.running
      ensures exists c :: c in s.claims && c.container == name && c.cpus == s.running[name].cpus
                          && ParseMemoryMib(s.running[name].memory) == Some(c.mib)
    {
      var c := ClaimOf(cfg, s, name);
    }
  }

  lemma ClaimOf(cfg: Config, s: State, name: string) returns (c: Claim)
    requires Inv(cfg, s) && name in s.running && cfg.caps.maxMib < U64_LIMIT
    ensures c in s.claims && c.container == name && c.cpus == s.running[name].cpus
    ensures ParseMemoryMib(s.running[name].memory) == Some(c.mib)
  {
    assert Claimed(s.claims, name, s.running[name]);
    c :| c in s.claims && c.container == name && RunsAs(s.running[name], c);
    HeldWithinTotals([c], s.claims);
    assert MibOf([c]) == c.mib;
    MemoryRoundTrip(c.mib);
  }

  function CpusRunning(names: seq<string>, running: map<string, Unit>): real
    requires forall k :: 0 <= k < |names| ==> names[k] in running
  {
    if names == [] then 0.0 else running[names[0]].cpus + CpusRunning(names[1..], running)
  }

  function MibRunning(names: seq<string>, running: map<string, Unit>): nat
    requires forall k :: 0 <= k < |names| ==> names[k] in running
  {
    if names == [] then 0
    else
      var first := match ParseMemoryMib(running[names[0]].memory) case Some(n) => n case None => 0;
      first + MibRunning(names[1..], running)
  }

  /** However the running containers are listed, what they were started with stays within the caps. */
  lemma RunningWithinCaps(cfg: Config, s: State, names: seq<string>)
    requires GoodConfig(cfg) && Inv(cfg, s)
    requires forall k :: 0 <= k < |names| ==> names[k] in s.running
    requires forall i, j :: 0 <= i < j < |names| ==> names[i] != names[j]
    ensures CpusRunning(names, s.running) <= cfg.caps.maxCpus + SLACK
    ensures MibRunning(names, s.running) <= cfg.caps.maxMib
    ensures |names| <= cfg.caps.maxWorkers
  {
    var held := ClaimsOf(cfg, s, names);
    DistinctContainers(held, s.claims);
    HeldWithinTotals(held, s.claims);
  }

  lemma {:induction false} ClaimsOf(cfg: Config, s: State, names: seq<string>) returns (held: seq<Claim>)
    requires Inv(cfg, s) && cfg.caps.maxMib < U64_LIMIT
    requires forall k :: 0 <= k < |names| ==> names[k] in s.running
    ensures |held| == |names| && forall k :: 0 <= k < |names| ==> held[k] in s.claims && held[k].container == names[k]
    ensures CpusOf(held) == CpusRunning(names, s.running) && MibOf(held) == MibRunning(names, s.running)
  {
    held := [];
    if names != [] {
      var c := ClaimOf(cfg, s, names[0]);
      var rest := ClaimsOf(cfg, s, names[1..]);
      held := [c] + rest;
    }
  }

  // ---------------------------------------------------------------------------
  // What the safety rests on
  // ---------------------------------------------------------------------------

  /** If taking a container down leaves it running, releasing its claim breaks the safety:
      the container then runs without any claim. */
  lemma FailedDownBreaksSafety(cfg: Config, s: State, c: Claim)
    requires GoodConfig(cfg) && Inv(cfg, s) && c in s.claims && c.container in s.running
    ensures !Claimed(WithoutWorker(s.claims, c.workerId), c.container, s.running[c.container])
  {
    WithoutWorkerMeans(s.claims, c.workerId);
    forall d | d in s.claims && d.container == c.container ensures d.workerId == c.workerId {
      assert Named(cfg, c) && Named(cfg, d);
      var p: nat, x: nat :| Owns(cfg, c, p, x);
      var q: nat, y: nat :| Owns(cfg, d, q, y);
      OneOwner(cfg, c, p, x, d, q, y);
    }
  }
}
