/** From selected to polled: a tick scans the priority repositories and then the selected ones, within
    the request budget of one poll. */
module Polling {
  import opened Wrappers
  import opened Arithmetic
  import opened Decimal
  import opened PriorityScan
  import Sweep

  /** What polling one repository would take and find. It asks for queued and for running workflow
      runs, and then for the jobs of up to two and of one of them. */
  datatype Visit = Visit(requests: nat, jobs: nat, refused: bool)

  const MAX_REQUESTS: nat := 5

  ghost predicate Bounded(visits: seq<Visit>) {
    forall k :: 0 <= k < |visits| ==> visits[k].requests <= MAX_REQUESTS
  }

  /** What the visits come to when `left` requests may go out. */
  function UnderBudget(visits: seq<Visit>, left: nat): (outcomes: seq<Outcome>)
    ensures |outcomes| == |visits|
  {
    if visits == [] then []
    else
      var v := visits[0];
      if v.requests > left then [BudgetSpent] + UnderBudget(visits[1..], 0)
      else if v.refused then [Refused] + UnderBudget(visits[1..], left - v.requests)
      else [Polled(v.jobs)] + UnderBudget(visits[1..], left - v.requests)
  }

  function JobsFound(outcomes: seq<Outcome>): nat {
    if outcomes == [] then 0
    else (if outcomes[0].Polled? then outcomes[0].jobs else 0) + JobsFound(outcomes[1..])
  }

  // ---------------------------------------------------------------------------
  // When a scan reads every entry
  // ---------------------------------------------------------------------------

  ghost predicate NoneSpent(outcomes: seq<Outcome>) {
    forall k :: 0 <= k < |outcomes| ==> !outcomes[k].BudgetSpent?
  }

  /** A scan that returns with fewer jobs than asked for, and within its budget, has read every
      entry to the end. */
  lemma {:induction false} ScanReadsAll(outcomes: seq<Outcome>, prioLen: nat, maxJobs: nat, idx: nat, jobs: nat,
                                        consumed: nat, complete: bool)
    requires idx <= |outcomes| && NoneSpent(outcomes) && jobs + JobsFound(outcomes[idx..]) < maxJobs
    requires Scan(outcomes, prioLen, maxJobs, idx, jobs, consumed, complete).Ended?
    ensures forall k :: idx <= k < |outcomes| ==> outcomes[k].Polled?
    decreases |outcomes| - idx
  {
    if idx < |outcomes| {
      assert outcomes[idx..][0] == outcomes[idx] && outcomes[idx..][1..] == outcomes[idx + 1..];
      var consumed' := if idx < prioLen then idx else consumed;
      var complete' := complete || idx + 1 >= prioLen;
      ScanReadsAll(outcomes, prioLen, maxJobs, idx + 1, jobs + outcomes[idx].jobs, consumed', complete');
    }
  }

  lemma {:induction false} BudgetLasts(visits: seq<Visit>, left: nat)
    requires Bounded(visits) && Times(MAX_REQUESTS, |visits|) <= left
    ensures NoneSpent(UnderBudget(visits, left))
  {
    if visits != [] {
      BudgetLasts(visits[1..], left - visits[0].requests);
    }
  }

  /** The budget is enough for every way that `n` visits may go. */
  ghost predicate BudgetCovers(n: nat, budget: nat) {
    forall visits :: |visits| == n && Bounded(visits) ==> NoneSpent(UnderBudget(visits, budget))
  }

  function Costly(n: nat): (visits: seq<Visit>)
    ensures |visits| == n && Bounded(visits)
  {
    if n == 0 then [] else [Visit(MAX_REQUESTS, 0, false)] + Costly(n - 1)
  }

  lemma {:induction false} CostlySpends(n: nat, left: nat)
    requires left < Times(MAX_REQUESTS, n)
    ensures !NoneSpent(UnderBudget(Costly(n), left))
  {
    var outcomes := UnderBudget(Costly(n), left);
    assert Costly(n)[1..] == Costly(n - 1);
    if MAX_REQUESTS <= left {
      CostlySpends(n - 1, left - MAX_REQUESTS);
      var k :| 0 <= k < n - 1 && UnderBudget(Costly(n - 1), left - MAX_REQUESTS)[k].BudgetSpent?;
      assert outcomes[k + 1].BudgetSpent?;
    } else {
      assert outcomes[0].BudgetSpent?;
    }
  }

  /** It is enough exactly when it allows five requests per repository. */
  lemma BudgetCoversIff(n: nat, budget: nat)
    ensures BudgetCovers(n, budget) <==> MAX_REQUESTS * n <= budget
  {
    TimesIsProduct(MAX_REQUESTS, n);
    if MAX_REQUESTS * n <= budget {
      forall visits | |visits| == n && Bounded(visits) ensures NoneSpent(UnderBudget(visits, budget)) {
        BudgetLasts(visits, budget);
      }
    } else {
      CostlySpends(n, budget);
    }
  }

  // ---------------------------------------------------------------------------
  // A sweep polls every repository
  // ---------------------------------------------------------------------------

  /** The set-up of a listener: priority list, other repositories, selection width, list length
      that the sweep is computed from, request budget and number of jobs asked for. */
  datatype Setup = Setup(prio: seq<string>, repos: seq<string>, width: nat, listed: nat, budget: nat, maxJobs: nat)

  /** What tick `k` scans. */
  function ScanList(u: Setup, content: Option<string>, k: nat): seq<string> {
    u.prio + Sweep.Selected(u.repos, Sweep.CursorAt(u.repos, content, u.width, k), u.width)
  }

  /** The tick is one scan: it returns when the scan does, and when it counts as empty it has
      found fewer jobs than asked for. */
  ghost predicate IsScan(u: Setup, content: Option<string>, k: nat, tick: Sweep.Tick, visits: seq<Visit>) {
    var outcomes := UnderBudget(visits, u.budget);
    && |visits| == |ScanList(u, content, k)| && Bounded(visits)
    && (tick.ok ==> ScanAll(outcomes, |u.prio|, u.maxJobs).Ended?)
    && (tick.ok && tick.empty ==> JobsFound(outcomes) < u.maxJobs)
  }

  ghost predicate AreScans(u: Setup, content: Option<string>, ticks: seq<Sweep.Tick>, visits: seq<seq<Visit>>) {
    |visits| == |ticks| && forall k :: 0 <= k < |ticks| ==> IsScan(u, content, k, ticks[k], visits[k])
  }

  /** Tick `k` has read repository `r` to the end. */
  ghost predicate Reads(u: Setup, content: Option<string>, k: nat, visits: seq<Visit>, r: string) {
    var outcomes, list := UnderBudget(visits, u.budget), ScanList(u, content, k);
    exists i :: 0 <= i < |list| && i < |outcomes| && list[i] == r && outcomes[i].Polled?
  }

  lemma EmptyTickReads(u: Setup, content: Option<string>, k: nat, tick: Sweep.Tick, visits: seq<Visit>, r: string)
    requires u.width >= 1 && MAX_REQUESTS * (|u.prio| + u.width) <= u.budget
    requires IsScan(u, content, k, tick, visits) && tick.ok && tick.empty
    requires r in ScanList(u, content, k)
    ensures Reads(u, content, k, visits, r)
  {
    var outcomes, list := UnderBudget(visits, u.budget), ScanList(u, content, k);
    TimesIsProduct(MAX_REQUESTS, |visits|);
    BudgetLasts(visits, u.budget);
    assert outcomes[0..] == outcomes;
    ScanReadsAll(outcomes, |u.prio|, u.maxJobs, 0, 0, 0, |u.prio| == 0);
    var i :| 0 <= i < |list| && list[i] == r;
    assert outcomes[i].Polled?;
  }

  /** What a run of ticks selects, one of them selects. */
  lemma {:induction false} SelectedInTick(u: Setup, content: Option<string>, b: nat, m: nat, r: string) returns (k: nat)
    requires r in Sweep.SelectedBy(u.repos, Sweep.CursorAt(u.repos, content, u.width, b), u.width, m)
    ensures b <= k < b + m && r in Sweep.Selected(u.repos, Sweep.CursorAt(u.repos, content, u.width, k), u.width)
    decreases m
  {
    k := b;
    if r !in Sweep.Selected(u.repos, Sweep.CursorAt(u.repos, content, u.width, b), u.width) {
      k := SelectedInTick(u, content, b + 1, m - 1, r);
    }
  }

  lemma ReadInSweep(u: Setup, content: Option<string>, b: nat, m: nat, ticks: seq<Sweep.Tick>,
                    visits: seq<seq<Visit>>, r: string)
    returns (k: nat)
    requires u.width >= 1 && MAX_REQUESTS * (|u.prio| + u.width) <= u.budget
    requires AreScans(u, content, ticks, visits) && b + m <= |ticks|
    requires forall j :: b <= j < |ticks| ==> ticks[j].ok && ticks[j].empty
    requires r in Sweep.SelectedBy(u.repos, Sweep.CursorAt(u.repos, content, u.width, b), u.width, m)
    ensures b <= k < b + m && Reads(u, content, k, visits[k], r)
  {
    k := SelectedInTick(u, content, b, m, r);
    assert IsScan(u, content, k, ticks[k], visits[k]);
    EmptyTickReads(u, content, k, ticks[k], visits[k], r);
  }

  lemma SweptFrom(u: Setup, content: Option<string>, sweep: nat, idleSecs: nat, ticks: seq<Sweep.Tick>, r: string)
    returns (b: nat)
    requires u.width >= 1 && |u.repos| <= U64_LIMIT && |u.repos| <= Max(u.listed, 1) && r in u.repos
    requires Sweep.NoFailureInStreak(ticks) && Sweep.ClockRuns(ticks)
    requires sweep == Sweep.EmptySweepTicks(u.listed, u.width) && Sweep.IdleExpired(ticks, sweep, idleSecs)
    ensures b + sweep <= |ticks| && forall j :: b <= j < |ticks| ==> ticks[j].ok && ticks[j].empty
    ensures r in Sweep.SelectedBy(u.repos, Sweep.CursorAt(u.repos, content, u.width, b), u.width, sweep)
  {
    Sweep.SweepIsCeiling(u.listed, u.width);
    var c := Sweep.ExpiryIsConfirmed(ticks, sweep, idleSecs);
    b := c + 1 - sweep;
    Sweep.SweepSelectsAll(u.repos, Sweep.CursorAt(u.repos, content, u.width, b), u.width, u.listed, r);
  }

  /** With a budget of five requests per scanned repository: if no poll has failed since the last
      one that found jobs, then, when the gate opens, each repository has been read to the end,
      and that poll and all polls since returned empty. */
  lemma ExpiryMeansPolled(u: Setup, content: Option<string>, sweep: nat, idleSecs: nat, ticks: seq<Sweep.Tick>,
                          visits: seq<seq<Visit>>, r: string)
    returns (k: nat)
    requires u.width >= 1 && |u.repos| <= U64_LIMIT && |u.repos| <= Max(u.listed, 1)
    requires MAX_REQUESTS * (|u.prio| + u.width) <= u.budget && AreScans(u, content, ticks, visits)
    requires Sweep.NoFailureInStreak(ticks) && Sweep.ClockRuns(ticks)
    requires sweep == Sweep.EmptySweepTicks(u.listed, u.width) && Sweep.IdleExpired(ticks, sweep, idleSecs)
    requires r in u.repos
    ensures k < |ticks| && Reads(u, content, k, visits[k], r)
    ensures forall j :: k <= j < |ticks| ==> ticks[j].ok && ticks[j].empty
  {
    var b := SweptFrom(u, content, sweep, idleSecs, ticks, r);
    k := ReadInSweep(u, content, b, sweep, ticks, visits, r);
  }
}
