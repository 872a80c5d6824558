/** Host-wide pacing of runner registrations: a least gap, and at most so many in an hour. The
    budget check and the record of a successful registration are two critical sections; the
    request to the API runs between them. */
module RegPace {
  import opened Arithmetic

  const HOUR: nat := 3600

  // ---------------------------------------------------------------------------
  // The shared record
  // ---------------------------------------------------------------------------

  /** `recent.retain(|t| now - t < 3600)`. */
  function Fresh(times: seq<nat>, now: nat): seq<nat> {
    if times == [] then []
    else (if SaturatingSub(now, times[0]) < HOUR then [times[0]] else []) + Fresh(times[1..], now)
  }

  function Oldest(times: seq<nat>): nat
    requires times != []
  {
    if |times| == 1 || times[0] < Oldest(times[1..]) then times[0] else Oldest(times[1..])
  }

  datatype Record = Record(recent: seq<nat>, lastUnix: nat)

  datatype Answer = Pass | OverBudget(wait: nat) | TooSoon(wait: nat)

  function CheckedAt(r: Record, now: nat, minGap: nat, maxHour: nat): Answer {
    var live := Fresh(r.recent, now);
    if |live| >= maxHour then
      OverBudget(Clamp(SaturatingSub(HOUR, SaturatingSub(now, if live == [] then now else Oldest(live))), 15, 600))
    else if r.lastUnix > 0 && SaturatingSub(now, r.lastUnix) < minGap then
      TooSoon(minGap - SaturatingSub(now, r.lastUnix))
    else Pass
  }

  function Committed(r: Record, now: nat): Record {
    Record(Fresh(r.recent, now) + [now], now)
  }

  /** A failed request pushes the time of the last one forward. */
  function BackedOff(r: Record, now: nat, secs: nat): Record {
    r.(lastUnix := now + SaturatingSub(secs, 1))
  }

  class RegPaceState {
    var recent: seq<nat>
    var lastUnix: nat

    ghost function State(): Record
      reads this
    {
      Record(recent, lastUnix)
    }

    constructor ()
      ensures State() == Record([], 0)
    {
      recent, lastUnix := [], 0;
    }

    /** The critical section of the budget check. It reads, and writes nothing back. */
    method PaceRegistration(now: nat, minGap: nat, maxHour: nat) returns (answer: Answer)
      ensures answer == CheckedAt(State(), now, minGap, maxHour)
    {
      var live := Fresh(recent, now);
      if |live| >= maxHour {
        var oldest := if live == [] then now else Oldest(live);
        return OverBudget(Clamp(SaturatingSub(HOUR, SaturatingSub(now, oldest)), 15, 600));
      }
      if lastUnix > 0 {
        var elapsed := SaturatingSub(now, lastUnix);
        if elapsed < minGap {
          return TooSoon(minGap - elapsed);
        }
      }
      answer := Pass;
    }

    method CommitRegistrationSlot(now: nat)
      modifies this
      ensures State() == Committed(old(State()), now)
    {
      recent := Fresh(recent, now);
      lastUnix := now;
      recent := recent + [now];
    }

    method NoteFailureBackoff(now: nat, secs: nat)
      modifies this
      ensures State() == BackedOff(old(State()), now, secs)
    {
      lastUnix := now + SaturatingSub(secs, 1);
    }
  }

  // ---------------------------------------------------------------------------
  // Concurrent callers
  // ---------------------------------------------------------------------------

  /** `callers` processes; those in `passed` are between their check and their commit. `mints`
      logs every recorded registration, and `own` those of each caller. */
  datatype System = System(
    callers: nat, record: Record, now: nat, passed: set<nat>, mints: seq<nat>, own: seq<seq<nat>>)

  datatype Limits = Limits(minGap: nat, maxHour: nat)

  datatype Action =
    | Wait(secs: nat)               // time passes
    | Check(i: nat)                 // a caller checks the budget
    | Commit(i: nat)                // its registration succeeded and is recorded
    | GiveUp(i: nat)                // the request failed, or the record was busy
    | BackOff(i: nat, secs: nat)    // the request failed with a back-off

  predicate Enabled(s: System, a: Action) {
    match a
    case Wait(_) => true
    case Check(i) => i < s.callers && i !in s.passed
    case Commit(i) => i in s.passed && i < |s.own|
    case GiveUp(i) => i in s.passed
    case BackOff(i, _) => i in s.passed
  }

  function Do(s: System, a: Action, lim: Limits): System
    requires Enabled(s, a)
  {
    match a
    case Wait(secs) => s.(now := s.now + secs)
    case Check(i) =>
      if CheckedAt(s.record, s.now, lim.minGap, lim.maxHour).Pass? then s.(passed := s.passed + {i}) else s
    case Commit(i) =>
      s.(record := Committed(s.record, s.now), passed := s.passed - {i},
         mints := s.mints + [s.now], own := s.own[i := s.own[i] + [s.now]])
    case GiveUp(i) => s.(passed := s.passed - {i})
    case BackOff(i, secs) => s.(record := BackedOff(s.record, s.now, secs), passed := s.passed - {i})
  }

  function Start(callers: nat, now: nat): System {
    System(callers, Record([], 0), now, {}, [], seq(callers, _ => []))
  }

  /** The state after a sequence of actions, if every one of them was possible. */
  ghost predicate Runs(s: System, actions: seq<Action>, t: System, lim: Limits)
    decreases |actions|
  {
    if actions == [] then t == s
    else Enabled(s, actions[0]) && Runs(Do(s, actions[0], lim), actions[1..], t, lim)
  }

  // ---------------------------------------------------------------------------
  // Counting in windows
  // ---------------------------------------------------------------------------

  /** Recorded registrations in the hour that begins at `x`. */
  function InHour(times: seq<nat>, x: nat): nat {
    if times == [] then 0 else (if x <= times[0] < x + HOUR then 1 else 0) + InHour(times[1..], x)
  }

  lemma {:induction false} FreshOfFresh(times: seq<nat>, now: nat, later: nat)
    requires now <= later
    ensures Fresh(Fresh(times, now), later) == Fresh(times, later)
  {
    if times != [] {
      FreshOfFresh(times[1..], now, later);
      var rest := Fresh(times[1..], now);
      if SaturatingSub(now, times[0]) < HOUR {
        assert ([times[0]] + rest)[1..] == rest;
      } else {
        assert [] + rest == rest;
      }
    }
  }

  lemma {:induction false} FreshAppend(times: seq<nat>, t: nat, now: nat)
    ensures Fresh(times + [t], now) == Fresh(times, now) + (if SaturatingSub(now, t) < HOUR then [t] else [])
  {
    if times == [] {
      assert [] + [t] == [t];
    } else {
      FreshAppend(times[1..], t, now);
      assert (times + [t])[1..] == times[1..] + [t];
    }
  }

  lemma {:induction false} FreshShrinks(times: seq<nat>, now: nat, later: nat)
    requires now <= later
    ensures |Fresh(times, later)| <= |Fresh(times, now)|
  {
    if times != [] {
      FreshShrinks(times[1..], now, later);
    }
  }

  lemma {:induction false} InHourAppend(times: seq<nat>, t: nat, x: nat)
    ensures InHour(times + [t], x) == InHour(times, x) + (if x <= t < x + HOUR then 1 else 0)
  {
    if times == [] {
      assert [] + [t] == [t];
    } else {
      InHourAppend(times[1..], t, x);
      assert (times + [t])[1..] == times[1..] + [t];
    }
  }

  /** An hour that reaches up to now lies within the fresh entries. */
  lemma {:induction false} InHourIsFresh(times: seq<nat>, x: nat, now: nat)
    requires x <= now < x + HOUR
    ensures InHour(times, x) <= |Fresh(times, now)|
  {
    if times != [] {
      InHourIsFresh(times[1..], x, now);
    }
  }

  lemma {:induction false} PassedAreCallers(passed: set<nat>, callers: nat)
    requires forall i :: i in passed ==> i < callers
    ensures |passed| <= callers
    decreases callers
  {
    if callers > 0 {
      PassedAreCallers(passed - {callers - 1}, callers - 1);
      if callers - 1 in passed {
        assert passed == passed - {callers - 1} + {callers - 1};
      } else {
        assert passed == passed - {callers - 1};
      }
    } else {
      assert passed == {};
    }
  }

  /** With one caller outside, at most all others have passed. */
  lemma OthersPassed(passed: set<nat>, callers: nat, i: nat)
    requires (forall j :: j in passed ==> j < callers) && i < callers && i !in passed
    ensures |passed| + 1 <= callers
  {
    PassedAreCallers(passed + {i}, callers);
  }

  // ---------------------------------------------------------------------------
  // The hourly bound
  // ---------------------------------------------------------------------------

  ghost predicate Inv(s: System, lim: Limits) {
    && (forall i :: i in s.passed ==> i < s.callers)
    && Fresh(s.record.recent, s.now) == Fresh(s.mints, s.now)
    && |Fresh(s.mints, s.now)| + |s.passed| < lim.maxHour + s.callers
    && forall x: nat :: InHour(s.mints, x) < lim.maxHour + s.callers
  }

  lemma StillTheSame(a: seq<nat>, b: seq<nat>, now: nat, later: nat)
    requires now <= later && Fresh(a, now) == Fresh(b, now)
    ensures Fresh(a, later) == Fresh(b, later)
  {
    FreshOfFresh(a, now, later);
    FreshOfFresh(b, now, later);
  }

  lemma WaitKeepsInv(s: System, secs: nat, lim: Limits)
    requires Inv(s, lim)
    ensures Inv(s.(now := s.now + secs), lim)
  {
    StillTheSame(s.record.recent, s.mints, s.now, s.now + secs);
    FreshShrinks(s.mints, s.now, s.now + secs);
  }

  lemma CommitKeepsInv(s: System, i: nat, lim: Limits)
    requires Inv(s, lim) && i in s.passed && i < |s.own|
    ensures Inv(Do(s, Commit(i), lim), lim)
  {
    var t := Do(s, Commit(i), lim);
    FreshOfFresh(s.record.recent, s.now, s.now);
    FreshAppend(Fresh(s.record.recent, s.now), s.now, s.now);
    FreshAppend(s.mints, s.now, s.now);
    forall x: nat ensures InHour(t.mints, x) < lim.maxHour + s.callers {
      InHourAppend(s.mints, s.now, x);
      if x <= s.now < x + HOUR {
        InHourIsFresh(s.mints, x, s.now);
      }
    }
  }

  lemma StepKeepsInv(s: System, a: Action, lim: Limits)
    requires Inv(s, lim) && Enabled(s, a)
    ensures Inv(Do(s, a, lim), lim)
  {
    match a {
      case Wait(secs) => WaitKeepsInv(s, secs, lim);
      case Check(i) => OthersPassed(s.passed, s.callers, i);
      case Commit(i) => CommitKeepsInv(s, i, lim);
      case GiveUp(_) =>
      case BackOff(_, _) =>
    }
  }

  lemma {:induction false} RunKeepsInv(s: System, actions: seq<Action>, t: System, lim: Limits)
    requires Inv(s, lim) && Runs(s, actions, t, lim)
    ensures Inv(t, lim) && t.callers == s.callers
    decreases |actions|
  {
    if actions != [] {
      StepKeepsInv(s, actions[0], lim);
      RunKeepsInv(Do(s, actions[0], lim), actions[1..], t, lim);
    }
  }

  /** However the callers interleave, every hour sees at most `maxHour + callers - 1` recorded
      registrations; so one caller alone keeps to `maxHour`. */
  lemma HourlyBound(callers: nat, start: nat, actions: seq<Action>, t: System, lim: Limits, x: nat)
    requires callers >= 1 && lim.maxHour >= 1 && Runs(Start(callers, start), actions, t, lim)
    ensures InHour(t.mints, x) <= lim.maxHour + callers - 1
  {
    RunKeepsInv(Start(callers, start), actions, t, lim);
  }

  // ---------------------------------------------------------------------------
  // One caller keeps the gap
  // ---------------------------------------------------------------------------

  ghost predicate GapInv(s: System, lim: Limits) {
    && s.now >= 1 && s.callers == 1 && (forall i :: i in s.passed ==> i == 0)
    && (forall k :: 0 <= k < |s.mints| ==> 1 <= s.mints[k] <= s.now)
    && (forall k :: 0 <= k < |s.mints| - 1 ==> s.mints[k] + lim.minGap <= s.mints[k + 1])
    && (s.mints != [] ==>
          && s.mints[|s.mints| - 1] <= s.record.lastUnix
          && (s.passed != {} ==> s.mints[|s.mints| - 1] + lim.minGap <= s.now))
  }

  lemma GapStep(s: System, a: Action, lim: Limits)
    requires GapInv(s, lim) && Enabled(s, a)
    ensures GapInv(Do(s, a, lim), lim)
  {
    if a.Commit? {
      assert s.passed - {a.i} == {};
    } else if a.GiveUp? || a.BackOff? {
      assert s.passed - {a.i} == {};
    }
  }

  lemma {:induction false} GapRun(s: System, actions: seq<Action>, t: System, lim: Limits)
    requires GapInv(s, lim) && Runs(s, actions, t, lim)
    ensures GapInv(t, lim)
    decreases |actions|
  {
    if actions != [] {
      GapStep(s, actions[0], lim);
      GapRun(Do(s, actions[0], lim), actions[1..], t, lim);
    }
  }

  /** A single caller records registrations at least `minGap` apart. The clock must not stand at
      0, which the record reads as "none yet". */
  lemma SingleCallerKeepsGap(start: nat, actions: seq<Action>, t: System, lim: Limits, k: nat)
    requires start >= 1 && Runs(Start(1, start), actions, t, lim) && k + 1 < |t.mints|
    ensures t.mints[k + 1] - t.mints[k] >= lim.minGap
  {
    GapRun(Start(1, start), actions, t, lim);
    assert t.mints[k] + lim.minGap <= t.mints[k + 1];
  }
}
