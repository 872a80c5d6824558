/** How many registrations an hour can really see, and when the limits that the program promises
    host-wide are kept. */
module RegPaceLimits {
  import opened Arithmetic
  import opened RegPace

  /** The number of gaps that begin within an hour, `ceil(3600 / gap)`. */
  function Rounds(gap: nat): nat
    requires gap >= 1
  {
    (HOUR + gap - 1) / gap
  }

  lemma RoundsFillHour(gap: nat)
    requires gap >= 1
    ensures Rounds(gap) >= 1 && Times(gap, Rounds(gap) - 1) < HOUR <= Times(gap, Rounds(gap))
  {
    var q, r := (HOUR + gap - 1) / gap, (HOUR + gap - 1) % gap;
    assert HOUR + gap - 1 == q * gap + r;
    if q <= 0 {
      MonotoneMul(q, 0, gap);
    }
    TimesIsProduct(gap, q);
  }

  /** The most registrations that one hour sees: one per caller and gap, and never more than
      what all callers together can add to a budget that is one short of full. */
  function WorstHour(callers: nat, lim: Limits): nat
    requires callers >= 1 && lim.minGap >= 1
  {
    Min(callers * Rounds(lim.minGap), lim.maxHour + callers - 1)
  }

  // ---------------------------------------------------------------------------
  // No hour sees more: each caller keeps the gap to its own registrations
  // ---------------------------------------------------------------------------

  ghost predicate Spaced(times: seq<nat>, gap: nat) {
    forall k :: 0 <= k < |times| - 1 ==> times[k] + gap <= times[k + 1]
  }

  /** The registrations of one caller, which may have passed its check for the next one. */
  ghost predicate OwnSpaced(own: seq<nat>, s: System, gap: nat, passed: bool) {
    && Spaced(own, gap) && (forall k :: 0 <= k < |own| ==> 1 <= own[k] <= s.now)
    && (own != [] ==> own[|own| - 1] <= s.record.lastUnix && (passed ==> own[|own| - 1] + gap <= s.now))
  }

  ghost predicate AllSpaced(s: System, gap: nat) {
    && |s.own| == s.callers && s.now >= 1
    && forall i :: 0 <= i < |s.own| ==> OwnSpaced(s.own[i], s, gap, i in s.passed)
  }

  lemma SpacedMore(own: seq<nat>, s: System, gap: nat, t: System)
    requires OwnSpaced(own, s, gap, true) && s.now >= 1 && t.now == s.now == t.record.lastUnix
    ensures OwnSpaced(own + [s.now], t, gap, false)
  {
    var more := own + [s.now];
    forall k | 0 <= k < |more| - 1 ensures more[k] + gap <= more[k + 1] {
      if k < |own| - 1 {
        assert own[k] + gap <= own[k + 1];
      }
    }
  }

  lemma SpacedStep(s: System, a: Action, lim: Limits)
    requires AllSpaced(s, lim.minGap) && Enabled(s, a) && lim.minGap >= 1
    ensures AllSpaced(Do(s, a, lim), lim.minGap)
  {
    var t := Do(s, a, lim);
    forall i | 0 <= i < |t.own| ensures OwnSpaced(t.own[i], t, lim.minGap, i in t.passed) {
      assert OwnSpaced(s.own[i], s, lim.minGap, i in s.passed);
      if a.Commit? && a.i == i {
        SpacedMore(s.own[i], s, lim.minGap, t);
      }
    }
  }

  lemma {:induction false} SpacedRun(s: System, actions: seq<Action>, t: System, lim: Limits)
    requires AllSpaced(s, lim.minGap) && Runs(s, actions, t, lim) && lim.minGap >= 1
    ensures AllSpaced(t, lim.minGap) && t.callers == s.callers
    decreases |actions|
  {
    if actions != [] {
      SpacedStep(s, actions[0], lim);
      SpacedRun(Do(s, actions[0], lim), actions[1..], t, lim);
    }
  }

  function AllInHour(own: seq<seq<nat>>, x: nat): nat {
    if own == [] then 0 else InHour(own[0], x) + AllInHour(own[1..], x)
  }

  lemma {:induction false} AllInHourAppend(own: seq<seq<nat>>, i: nat, t: nat, x: nat)
    requires i < |own|
    ensures AllInHour(own[i := own[i] + [t]], x) == AllInHour(own, x) + (if x <= t < x + HOUR then 1 else 0)
  {
    if i == 0 {
      InHourAppend(own[0], t, x);
      assert own[0 := own[0] + [t]][1..] == own[1..];
    } else {
      AllInHourAppend(own[1..], i - 1, t, x);
      assert own[i := own[i] + [t]][1..] == own[1..][i - 1 := own[i] + [t]];
    }
  }

  /** Every registration is some caller's. */
  lemma {:induction false} OwnAddUp(s: System, actions: seq<Action>, t: System, lim: Limits, x: nat)
    requires Runs(s, actions, t, lim) && InHour(s.mints, x) == AllInHour(s.own, x)
    ensures InHour(t.mints, x) == AllInHour(t.own, x)
    decreases |actions|
  {
    if actions != [] {
      var a := actions[0];
      if a.Commit? {
        InHourAppend(s.mints, s.now, x);
        AllInHourAppend(s.own, a.i, s.now, x);
      }
      OwnAddUp(Do(s, a, lim), actions[1..], t, lim, x);
    }
  }

  lemma {:induction false} NoneYet(own: seq<seq<nat>>, x: nat)
    requires forall i :: 0 <= i < |own| ==> own[i] == []
    ensures AllInHour(own, x) == 0
  {
    if own != [] {
      NoneYet(own[1..], x);
    }
  }

  /** The last of the registrations within an hour lies one gap per earlier one behind its start. */
  lemma {:induction false} Spread(times: seq<nat>, x: nat, gap: nat) returns (last: nat)
    requires Spaced(times, gap)
    ensures var n := InHour(times, x); n > 0 ==> x + Times(gap, n - 1) <= last < x + HOUR
    ensures if times == [] then last == 0 else last <= times[|times| - 1]
    decreases |times|
  {
    last := 0;
    if times != [] {
      var before, t := times[..|times| - 1], times[|times| - 1];
      var earlier := Spread(before, x, gap);
      assert times == before + [t];
      InHourAppend(before, t, x);
      last := if x <= t < x + HOUR then t else earlier;
      if before != [] {
        var k := |times| - 2;
        assert before[|before| - 1] == times[k] && times[k] + gap <= times[k + 1];
      }
    }
  }

  lemma {:induction false} TimesGrows(step: nat, m: nat, n: nat)
    requires m <= n
    ensures Times(step, m) <= Times(step, n)
  {
    if m < n {
      TimesGrows(step, m, n - 1);
    }
  }

  lemma OneCallerInHour(times: seq<nat>, x: nat, gap: nat)
    requires Spaced(times, gap) && gap >= 1
    ensures InHour(times, x) <= Rounds(gap)
  {
    var last := Spread(times, x, gap);
    RoundsFillHour(gap);
    var n := InHour(times, x);
    if n > Rounds(gap) {
      TimesGrows(gap, Rounds(gap), n - 1);
    }
  }

  lemma {:induction false} AllCallersInHour(own: seq<seq<nat>>, x: nat, gap: nat)
    requires gap >= 1 && forall i :: 0 <= i < |own| ==> Spaced(own[i], gap)
    ensures AllInHour(own, x) <= Times(Rounds(gap), |own|)
  {
    if own != [] {
      OneCallerInHour(own[0], x, gap);
      AllCallersInHour(own[1..], x, gap);
    }
  }

  /** In every interleaving, no hour sees more than the worst hour. */
  lemma WorstHourHolds(callers: nat, start: nat, actions: seq<Action>, t: System, lim: Limits, x: nat)
    requires callers >= 1 && start >= 1 && lim.minGap >= 1 && lim.maxHour >= 1
    requires Runs(Start(callers, start), actions, t, lim)
    ensures InHour(t.mints, x) <= WorstHour(callers, lim)
  {
    var s := Start(callers, start);
    HourlyBound(callers, start, actions, t, lim, x);
    SpacedRun(s, actions, t, lim);
    NoneYet(s.own, x);
    OwnAddUp(s, actions, t, lim, x);
    forall i | 0 <= i < |t.own| ensures Spaced(t.own[i], lim.minGap) {
      assert OwnSpaced(t.own[i], t, lim.minGap, i in t.passed);
    }
    AllCallersInHour(t.own, x, lim.minGap);
    TimesIsProduct(Rounds(lim.minGap), callers);
  }

  // ---------------------------------------------------------------------------
  // Some hour sees as many
  // ---------------------------------------------------------------------------

  function AllCheck(from: nat, end: nat): seq<Action>
    requires from <= end
    decreases end - from
  {
    if from == end then [] else [Check(from)] + AllCheck(from + 1, end)
  }

  function AllCommit(from: nat, end: nat): seq<Action>
    requires from <= end
    decreases end - from
  {
    if from == end then [] else [Commit(from)] + AllCommit(from + 1, end)
  }

  lemma {:induction false} RunsAppend(s: System, a: seq<Action>, t: System, b: seq<Action>, u: System, lim: Limits)
    requires Runs(s, a, t, lim) && Runs(t, b, u, lim)
    ensures Runs(s, a + b, u, lim)
    decreases |a|
  {
    if a == [] {
      assert a + b == b;
    } else {
      RunsAppend(Do(s, a[0], lim), a[1..], t, b, u, lim);
      assert (a + b)[1..] == a[1..] + b;
    }
  }

  ghost predicate PassedAre(s: System, from: nat, end: nat) {
    forall i: nat :: i in s.passed <==> from <= i < end
  }

  /** Callers that all check before any commits all pass, if one does. */
  lemma {:induction false} AllPass(s: System, from: nat, end: nat, lim: Limits) returns (t: System)
    requires from <= end <= s.callers && PassedAre(s, 0, from)
    requires CheckedAt(s.record, s.now, lim.minGap, lim.maxHour).Pass?
    ensures Runs(s, AllCheck(from, end), t, lim)
    ensures t == s.(passed := t.passed) && PassedAre(t, 0, end)
    decreases end - from
  {
    t := s;
    if from < end {
      t := AllPass(s.(passed := s.passed + {from}), from + 1, end, lim);
      var rest := AllCheck(from + 1, end);
      assert ([Check(from)] + rest)[1..] == rest;
    }
  }

  /** `t` has `k` more registrations than `s`, all at the same time. */
  ghost predicate Adds(s: System, t: System, k: nat) {
    && t.callers == s.callers && |t.own| == |s.own| && t.now == s.now
    && |t.record.recent| <= |s.record.recent| + k
    && t.record.lastUnix == (if k > 0 then s.now else s.record.lastUnix)
    && InHour(t.mints, s.now) == InHour(s.mints, s.now) + k
    && |t.mints| == |s.mints| + k && t.mints[..|s.mints|] == s.mints
    && (forall j :: |s.mints| <= j < |t.mints| ==> t.mints[j] == s.now)
  }

  lemma {:induction false} FreshIsShorter(times: seq<nat>, now: nat)
    ensures |Fresh(times, now)| <= |times|
  {
    if times != [] {
      FreshIsShorter(times[1..], now);
    }
  }

  lemma {:induction false} AllRecord(s: System, from: nat, end: nat, lim: Limits) returns (t: System)
    requires from <= end <= |s.own| && PassedAre(s, from, end)
    ensures Runs(s, AllCommit(from, end), t, lim)
    ensures Adds(s, t, end - from) && t.passed == {}
    decreases end - from
  {
    t := s;
    if from < end {
      var next := Do(s, Commit(from), lim);
      FreshIsShorter(s.record.recent, s.now);
      InHourAppend(s.mints, s.now, s.now);
      t := AllRecord(next, from + 1, end, lim);
      var rest := AllCommit(from + 1, end);
      assert ([Commit(from)] + rest)[1..] == rest;
    }
  }

  /** `k` callers check, then all of them record. */
  lemma OneRound(s: System, k: nat, lim: Limits) returns (actions: seq<Action>, t: System)
    requires k <= s.callers == |s.own| && s.passed == {}
    requires CheckedAt(s.record, s.now, lim.minGap, lim.maxHour).Pass?
    ensures Runs(s, actions, t, lim) && Adds(s, t, k) && t.passed == {}
  {
    var passed := AllPass(s, 0, k, lim);
    t := AllRecord(passed, 0, k, lim);
    actions := AllCheck(0, k) + AllCommit(0, k);
    RunsAppend(s, AllCheck(0, k), passed, AllCommit(0, k), t, lim);
  }

  /** The gap is over, and with `extra` more registrations the budget is not yet full. */
  ghost predicate Ready(s: System, extra: nat, lim: Limits) {
    && s.passed == {} && |s.own| == s.callers && |s.record.recent| + extra < lim.maxHour
    && (s.record.lastUnix == 0 || s.record.lastUnix + lim.minGap <= s.now)
  }

  lemma ReadyPasses(s: System, extra: nat, lim: Limits)
    requires Ready(s, extra, lim)
    ensures CheckedAt(s.record, s.now, lim.minGap, lim.maxHour).Pass?
  {
    FreshIsShorter(s.record.recent, s.now);
  }

  lemma {:induction false} InHourOfMore(before: seq<nat>, after: seq<nat>, x: nat, now: nat)
    requires |before| <= |after| && after[..|before|] == before
    requires x <= now < x + HOUR && forall j :: |before| <= j < |after| ==> after[j] == now
    ensures InHour(after, x) == InHour(before, x) + |after| - |before|
    decreases |after|
  {
    if |before| == |after| {
      assert after == before;
    } else {
      var shorter := after[..|after| - 1];
      assert shorter[..|before|] == before && after == shorter + [now];
      InHourOfMore(before, shorter, x, now);
      InHourAppend(shorter, now, x);
    }
  }

  /** Rounds a gap apart add `extra` registrations, and a last one adds one per caller. */
  lemma {:induction false} ManyRounds(s: System, rounds: nat, extra: nat, x: nat, lim: Limits)
    returns (actions: seq<Action>, t: System)
    requires s.callers >= 1 && lim.minGap >= 1 && Ready(s, extra, lim) && extra <= Times(s.callers, rounds)
    requires x <= s.now && s.now + Times(lim.minGap, rounds) < x + HOUR
    ensures Runs(s, actions, t, lim)
    ensures InHour(t.mints, x) == InHour(s.mints, x) + extra + s.callers
    decreases rounds
  {
    ReadyPasses(s, extra, lim);
    if extra == 0 {
      actions, t := OneRound(s, s.callers, lim);
      InHourOfMore(s.mints, t.mints, x, s.now);
    } else {
      var k := Min(s.callers, extra);
      var first, u := OneRound(s, k, lim);
      InHourOfMore(s.mints, u.mints, x, s.now);
      var v := u.(now := u.now + lim.minGap);
      assert Runs(u, [Wait(lim.minGap)], v, lim);
      RunsAppend(s, first, u, [Wait(lim.minGap)], v, lim);
      var rest: seq<Action>;
      rest, t := ManyRounds(v, rounds - 1, extra - k, x, lim);
      actions := first + [Wait(lim.minGap)] + rest;
      RunsAppend(s, first + [Wait(lim.minGap)], v, rest, t, lim);
    }
  }

  /** Some interleaving reaches the worst hour. */
  lemma WorstHourIsReached(callers: nat, start: nat, lim: Limits) returns (actions: seq<Action>, t: System)
    requires callers >= 1 && lim.minGap >= 1 && lim.maxHour >= 1
    ensures Runs(Start(callers, start), actions, t, lim)
    ensures InHour(t.mints, start) == WorstHour(callers, lim)
  {
    var s, rounds := Start(callers, start), Rounds(lim.minGap) - 1;
    RoundsFillHour(lim.minGap);
    TimesIsProduct(callers, rounds);
    assert callers * Rounds(lim.minGap) == rounds * callers + callers;
    actions, t := ManyRounds(s, rounds, WorstHour(callers, lim) - callers, start, lim);
  }

  // ---------------------------------------------------------------------------
  // When the promised limits are kept
  // ---------------------------------------------------------------------------

  /** In some run some hour sees exactly `n` registrations. */
  ghost predicate HourMaySee(callers: nat, start: nat, lim: Limits, n: nat) {
    exists actions, t, x :: Sees(Start(callers, start), actions, t, lim, x, n)
  }

  ghost predicate Sees(s: System, actions: seq<Action>, t: System, lim: Limits, x: nat, n: nat) {
    Runs(s, actions, t, lim) && InHour(t.mints, x) == n
  }

  /** `maxHour + callers - 1` registrations in an hour are reached exactly when so many fit with
      one per caller and gap. */
  lemma BoundIsTight(callers: nat, start: nat, lim: Limits)
    requires callers >= 1 && start >= 1 && lim.minGap >= 1 && lim.maxHour >= 1
    ensures HourMaySee(callers, start, lim, lim.maxHour + callers - 1)
            <==> lim.maxHour + callers - 1 <= callers * Rounds(lim.minGap)
  {
    var s, bound := Start(callers, start), lim.maxHour + callers - 1;
    if HourMaySee(callers, start, lim, bound) {
      var actions, t, x :| Sees(s, actions, t, lim, x, bound);
      WorstHourHolds(callers, start, actions, t, lim, x);
    }
    if bound <= callers * Rounds(lim.minGap) {
      var actions, t := WorstHourIsReached(callers, start, lim);
      assert Sees(s, actions, t, lim, start, bound);
    }
  }

  /** If the gaps leave room for `maxHour` registrations of one caller, the bound is reached. */
  lemma ShortGapReachesBound(callers: nat, lim: Limits)
    requires callers >= 1 && lim.minGap >= 1 && lim.maxHour >= 1 && Times(lim.minGap, lim.maxHour - 1) < HOUR
    ensures WorstHour(callers, lim) == lim.maxHour + callers - 1
  {
    RoundsFillHour(lim.minGap);
    if Rounds(lim.minGap) < lim.maxHour {
      TimesGrows(lim.minGap, Rounds(lim.minGap), lim.maxHour - 1);
    }
    SumBelowProduct(callers, lim.maxHour, Rounds(lim.minGap));
  }

  lemma {:induction false} SumBelowProduct(n: nat, m: nat, r: nat)
    requires n >= 1 && 1 <= m <= r
    ensures m + n - 1 <= n * r
  {
    if n > 1 {
      SumBelowProduct(n - 1, m, r);
      assert n * r == (n - 1) * r + r;
    }
  }

  /** No run of `callers` callers has more than the budget in any hour. */
  ghost predicate BudgetKept(callers: nat, start: nat, lim: Limits) {
    forall actions, t, x :: Runs(Start(callers, start), actions, t, lim) ==> InHour(t.mints, x) <= lim.maxHour
  }

  /** The hourly budget is kept host-wide exactly when there is a single caller, or the gap alone
      already keeps all callers within it. */
  lemma BudgetKeptIff(callers: nat, start: nat, lim: Limits)
    requires callers >= 1 && start >= 1 && lim.minGap >= 1 && lim.maxHour >= 1
    ensures BudgetKept(callers, start, lim) <==> callers == 1 || callers * Rounds(lim.minGap) <= lim.maxHour
  {
    if callers == 1 || callers * Rounds(lim.minGap) <= lim.maxHour {
      forall actions, t, x | Runs(Start(callers, start), actions, t, lim) ensures InHour(t.mints, x) <= lim.maxHour {
        WorstHourHolds(callers, start, actions, t, lim, x);
      }
    } else {
      var actions, t := WorstHourIsReached(callers, start, lim);
      assert InHour(t.mints, start) > lim.maxHour;
    }
  }

  /** No run records two registrations in a row less than the gap apart. */
  ghost predicate GapKept(callers: nat, start: nat, lim: Limits) {
    forall actions, t :: Runs(Start(callers, start), actions, t, lim) ==> Spaced(t.mints, lim.minGap)
  }

  /** The gap is kept host-wide exactly when there is a single caller. */
  lemma GapKeptIff(callers: nat, start: nat, lim: Limits)
    requires callers >= 1 && start >= 1 && lim.minGap >= 1 && lim.maxHour >= 1
    ensures GapKept(callers, start, lim) <==> callers == 1
  {
    if callers == 1 {
      forall actions, t | Runs(Start(callers, start), actions, t, lim) ensures Spaced(t.mints, lim.minGap) {
        forall k | 0 <= k < |t.mints| - 1 ensures t.mints[k] + lim.minGap <= t.mints[k + 1] {
          SingleCallerKeepsGap(start, actions, t, lim, k);
        }
      }
    } else {
      var s := Start(callers, start);
      ReadyPasses(s, 0, lim);
      var actions, t := OneRound(s, 2, lim);
      assert t.mints[0] == t.mints[0 + 1] == start;
    }
  }
}
