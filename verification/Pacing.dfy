/** Pacing of API requests: a least gap, a budget per poll, and cool-downs with growing back-off.
    Instants are in milliseconds of a monotone clock; a sleep may end later than asked. */
module Pacing {
  import opened Wrappers
  import opened Arithmetic

  const MAX_BACKOFF_SECS: nat := 900
  const MIN_COOL_SECS: nat := 5

  // ---------------------------------------------------------------------------
  // The pacer
  // ---------------------------------------------------------------------------

  datatype Pacer = Pacer(
    minGap: nat,
    maxPerPoll: nat,
    callsThisPoll: nat,
    lastCall: Option<nat>,
    backoff: nat, // seconds
    coolUntil: Option<nat>)

  function FromCli(gapMs: nat, maxPerPoll: nat, backoffSecs: nat): Pacer {
    Pacer(Clamp(gapMs, 50, 60_000), Clamp(maxPerPoll, 2, 500), 0, None,
          Clamp(backoffSecs, MIN_COOL_SECS, MAX_BACKOFF_SECS), None)
  }

  /** The time left of a cool-down. */
  function Cooling(p: Pacer, now: nat): Option<nat> {
    if p.coolUntil.Some? && p.coolUntil.value > now then Some(p.coolUntil.value - now) else None
  }

  /** The end of a turn: at what time, and whether a call may go out. */
  datatype Turn = Turn(pacer: Pacer, now: nat, ok: bool)

  /** `wait_turn`: sit out a cool-down, then ask the budget, then keep the gap. The sleeps end
      `late` and `later` milliseconds after their time. */
  function TakeTurn(p: Pacer, now: nat, late: nat, later: nat): Turn {
    var cooling := Cooling(p, now);
    var awake := if cooling.Some? then now + cooling.value + late else now;
    var rested := if cooling.Some? then p.(coolUntil := None) else p;
    if rested.callsThisPoll >= rested.maxPerPoll then Turn(rested, awake, false)
    else
      var at := if rested.lastCall.Some? && SaturatingSub(awake, rested.lastCall.value) < rested.minGap
                then awake + (rested.minGap - SaturatingSub(awake, rested.lastCall.value)) + later
                else awake;
      Turn(rested.(lastCall := Some(at), callsThisPoll := rested.callsThisPoll + 1), at, true)
  }

  function Throttled(p: Pacer, now: nat, secs: nat): Pacer {
    p.(coolUntil := Some(now + secs * 1000), backoff := Min(p.backoff * 2, MAX_BACKOFF_SECS))
  }

  /** After a good response: cool down when the quota that is left is low. */
  function AfterSuccess(p: Pacer, now: nat, remaining: Option<nat>, reset: Option<nat>, unix: nat): Pacer {
    if remaining.None? || remaining.value >= 30 then p
    else if reset.Some? then Throttled(p, now, Clamp(SaturatingSub(reset.value, unix), MIN_COOL_SECS, MAX_BACKOFF_SECS))
    else Throttled(p, now, p.backoff)
  }

  function RateLimitSecs(p: Pacer, retryAfter: Option<nat>, reset: Option<nat>, unix: nat): nat {
    var secs := if retryAfter.Some? then Min(Max(p.backoff, retryAfter.value), MAX_BACKOFF_SECS)
                else if reset.Some? then Min(Max(p.backoff, SaturatingSub(reset.value, unix)), MAX_BACKOFF_SECS)
                else p.backoff;
    Max(secs, MIN_COOL_SECS)
  }

  function AfterRateLimit(p: Pacer, now: nat, retryAfter: Option<nat>, reset: Option<nat>, unix: nat): Pacer {
    Throttled(p, now, RateLimitSecs(p, retryAfter, reset, unix))
  }

  class ApiPacer {
    const minGap: nat
    const maxPerPoll: nat
    var callsThisPoll: nat
    var lastCall: Option<nat>
    var backoff: nat
    var coolUntil: Option<nat>

    ghost function State(): Pacer
      reads this
    {
      Pacer(minGap, maxPerPoll, callsThisPoll, lastCall, backoff, coolUntil)
    }

    constructor (gapMs: nat, maxPerPoll: nat, backoffSecs: nat)
      ensures State() == FromCli(gapMs, maxPerPoll, backoffSecs)
    {
      this.minGap := Clamp(gapMs, 50, 60_000);
      this.maxPerPoll := Clamp(maxPerPoll, 2, 500);
      this.backoff := Clamp(backoffSecs, MIN_COOL_SECS, MAX_BACKOFF_SECS);
      callsThisPoll, lastCall, coolUntil := 0, None, None;
    }

    method BeginPoll()
      modifies this
      ensures State() == old(State()).(callsThisPoll := 0)
    {
      callsThisPoll := 0;
    }

    method WaitTurn(now: nat, late: nat, later: nat) returns (ok: bool, at: nat)
      modifies this
      ensures Turn(State(), at, ok) == TakeTurn(old(State()), now, late, later)
    {
      at := now;
      if coolUntil.Some? && coolUntil.value > now {
        at := coolUntil.value + late;
        coolUntil := None;
      }
      if callsThisPoll >= maxPerPoll {
        return false, at;
      }
      if lastCall.Some? {
        var elapsed := SaturatingSub(at, lastCall.value);
        if elapsed < minGap {
          at := at + (minGap - elapsed) + later;
        }
      }
      lastCall := Some(at);
      callsThisPoll := callsThisPoll + 1;
      ok := true;
    }

    method NoteSuccess(now: nat, remaining: Option<nat>, reset: Option<nat>, unix: nat)
      modifies this
      ensures State() == AfterSuccess(old(State()), now, remaining, reset, unix)
    {
      if remaining.Some? && remaining.value < 30 {
        var secs := if reset.None? then backoff
                    else Clamp(SaturatingSub(reset.value, unix), MIN_COOL_SECS, MAX_BACKOFF_SECS);
        coolUntil := Some(now + secs * 1000);
        backoff := Min(backoff * 2, MAX_BACKOFF_SECS);
      }
    }

    method NoteRateLimited(now: nat, retryAfter: Option<nat>, reset: Option<nat>, unix: nat)
      modifies this
      ensures State() == AfterRateLimit(old(State()), now, retryAfter, reset, unix)
    {
      var secs := backoff;
      if retryAfter.Some? {
        secs := Min(Max(secs, retryAfter.value), MAX_BACKOFF_SECS);
      } else if reset.Some? {
        secs := Min(Max(secs, SaturatingSub(reset.value, unix)), MAX_BACKOFF_SECS);
      }
      secs := Max(secs, MIN_COOL_SECS);
      coolUntil := Some(now + secs * 1000);
      backoff := Min(backoff * 2, MAX_BACKOFF_SECS);
    }
  }

  // ---------------------------------------------------------------------------
  // Runs
  // ---------------------------------------------------------------------------

  datatype Response =
    | Good(remaining: Option<nat>, reset: Option<nat>, unix: nat)
    | RateLimited(retryAfter: Option<nat>, reset: Option<nat>, unix: nat)
    | OtherFailure

  datatype Action =
    | Poll                            // `begin_poll`
    | Pass(ms: nat)                   // time passes
    | Call(late: nat, later: nat)     // wait for a turn and send, if the budget allows
    | Answer(ms: nat, r: Response)    // the response to the call that is out

  /** A cool-down that was ordered at `start` and lasts until `until`. */
  datatype CoolDown = CoolDown(start: nat, until: nat)

  /** `calls` and `cools` log all calls and cool-downs; `polled` counts the calls since the last
      `begin_poll`. */
  datatype Run = Run(pacer: Pacer, now: nat, out: bool, calls: seq<nat>, polled: nat, cools: seq<CoolDown>)

  predicate Enabled(s: Run, a: Action) {
    match a
    case Poll => !s.out
    case Pass(_) => true
    case Call(_, _) => !s.out
    case Answer(_, _) => s.out
  }

  function AfterAnswer(p: Pacer, now: nat, r: Response): Pacer {
    match r
    case Good(remaining, reset, unix) => AfterSuccess(p, now, remaining, reset, unix)
    case RateLimited(retryAfter, reset, unix) => AfterRateLimit(p, now, retryAfter, reset, unix)
    case OtherFailure => p
  }

  predicate Throttles(r: Response) {
    r.RateLimited? || (r.Good? && r.remaining.Some? && r.remaining.value < 30)
  }

  function Do(s: Run, a: Action): Run
    requires Enabled(s, a)
  {
    match a
    case Poll => s.(pacer := s.pacer.(callsThisPoll := 0), polled := 0)
    case Pass(ms) => s.(now := s.now + ms)
    case Call(late, later) =>
      var turn := TakeTurn(s.pacer, s.now, late, later);
      if turn.ok then
        var calls, polled := s.calls + [turn.now], s.polled + 1;
        s.(pacer := turn.pacer, now := turn.now, out := true, calls := calls, polled := polled)
      else s.(pacer := turn.pacer, now := turn.now)
    case Answer(ms, r) =>
      var now := s.now + ms;
      var p := AfterAnswer(s.pacer, now, r);
      var cools := if Throttles(r) && p.coolUntil.Some? then s.cools + [CoolDown(now, p.coolUntil.value)] else s.cools;
      s.(pacer := p, now := now, out := false, cools := cools)
  }

  function Start(p: Pacer, now: nat): Run {
    Run(p, now, false, [], 0, [])
  }

  ghost predicate Runs(s: Run, actions: seq<Action>, t: Run)
    decreases |actions|
  {
    if actions == [] then t == s
    else Enabled(s, actions[0]) && Runs(Do(s, actions[0]), actions[1..], t)
  }

  // ---------------------------------------------------------------------------
  // The invariant
  // ---------------------------------------------------------------------------

  /** `init` doubled `k` times. */
  function Doubled(init: nat, k: nat): nat {
    if k == 0 then init else 2 * Doubled(init, k - 1)
  }

  ghost predicate GapsKept(calls: seq<nat>, gap: nat) {
    forall k :: 0 <= k < |calls| - 1 ==> calls[k] + gap <= calls[k + 1]
  }

  /** No call falls into a cool-down. */
  ghost predicate NoCallWhileCool(calls: seq<nat>, cools: seq<CoolDown>) {
    forall k, c :: 0 <= k < |calls| && 0 <= c < |cools| ==> calls[k] <= cools[c].start || cools[c].until <= calls[k]
  }

  ghost predicate CoolsProper(cools: seq<CoolDown>) {
    && (forall c :: 0 <= c < |cools| ==>
          MIN_COOL_SECS * 1000 <= cools[c].until - cools[c].start <= MAX_BACKOFF_SECS * 1000)
    && (forall b, c :: 0 <= b < c < |cools| ==> cools[b].until <= cools[c].start)
  }

  /** Every cool-down so far is over, or is the one that the pacer still sits out. */
  ghost predicate CoolsRemembered(s: Run) {
    forall c :: 0 <= c < |s.cools| ==>
      && s.cools[c].start <= s.now
      && (s.cools[c].until <= s.now
          || (!s.out && s.pacer.coolUntil.Some? && s.cools[c].until <= s.pacer.coolUntil.value))
  }

  ghost predicate Inv(s: Run, gap: nat, max: nat, init: nat) {
    var p := s.pacer;
    && p.minGap == gap && p.maxPerPoll == max
    && s.polled == p.callsThisPoll <= max
    && GapsKept(s.calls, gap) && (forall k :: 0 <= k < |s.calls| ==> s.calls[k] <= s.now)
    && p.lastCall == (if s.calls == [] then None else Some(s.calls[|s.calls| - 1]))
    && NoCallWhileCool(s.calls, s.cools) && CoolsProper(s.cools) && CoolsRemembered(s)
    && (s.out && p.coolUntil.Some? ==> p.coolUntil.value <= s.now)
    && p.backoff == Min(Doubled(init, |s.cools|), MAX_BACKOFF_SECS) && MIN_COOL_SECS <= init
  }

  lemma TurnFacts(p: Pacer, now: nat, late: nat, later: nat)
    ensures var turn := TakeTurn(p, now, late, later);
            && turn.now >= now && turn.pacer.minGap == p.minGap && turn.pacer.maxPerPoll == p.maxPerPoll
            && turn.pacer.backoff == p.backoff
            && (p.coolUntil.Some? ==> turn.now >= p.coolUntil.value)
            && (turn.pacer.coolUntil.Some? ==> turn.pacer.coolUntil.value <= turn.now)
            && (turn.ok <==> p.callsThisPoll < p.maxPerPoll)
            && turn.pacer.callsThisPoll == p.callsThisPoll + (if turn.ok then 1 else 0)
            && turn.pacer.lastCall == (if turn.ok then Some(turn.now) else p.lastCall)
            && (turn.ok && p.lastCall.Some? && p.lastCall.value <= now ==> p.lastCall.value + p.minGap <= turn.now)
  {
  }

  lemma CallKeepsInv(s: Run, late: nat, later: nat, gap: nat, max: nat, init: nat)
    requires Inv(s, gap, max, init) && !s.out
    ensures Inv(Do(s, Call(late, later)), gap, max, init)
  {
    TurnFacts(s.pacer, s.now, late, later);
    var turn, t := TakeTurn(s.pacer, s.now, late, later), Do(s, Call(late, later));
    assert CoolsRemembered(t);
    if turn.ok {
      forall k | 0 <= k < |t.calls| - 1 ensures t.calls[k] + gap <= t.calls[k + 1] {
        if k < |s.calls| - 1 {
          assert s.calls[k] + gap <= s.calls[k + 1];
        }
      }
    }
  }

  lemma ThrottleFacts(p: Pacer, now: nat, r: Response)
    requires MIN_COOL_SECS <= p.backoff <= MAX_BACKOFF_SECS
    ensures var q := AfterAnswer(p, now, r);
            if Throttles(r) then
              && q == p.(coolUntil := q.coolUntil, backoff := Min(p.backoff * 2, MAX_BACKOFF_SECS)) && q.coolUntil.Some?
              && now + MIN_COOL_SECS * 1000 <= q.coolUntil.value <= now + MAX_BACKOFF_SECS * 1000
            else q == p
  {
  }

  lemma AnswerKeepsInv(s: Run, ms: nat, r: Response, gap: nat, max: nat, init: nat)
    requires Inv(s, gap, max, init) && s.out
    ensures Inv(Do(s, Answer(ms, r)), gap, max, init)
  {
    var now := s.now + ms;
    DoubledGrows(init, |s.cools|);
    ThrottleFacts(s.pacer, now, r);
    var p, t := AfterAnswer(s.pacer, now, r), Do(s, Answer(ms, r));
    if Throttles(r) {
      NewCoolDown(s, now, p, gap, max, init);
      assert t == s.(pacer := p, now := now, out := false, cools := s.cools + [CoolDown(now, p.coolUntil.value)]);
    } else {
      NoCoolDown(s, now, gap, max, init);
      assert t == s.(now := now, out := false);
    }
  }

  lemma NoCoolDown(s: Run, now: nat, gap: nat, max: nat, init: nat)
    requires Inv(s, gap, max, init) && s.out && s.now <= now
    ensures Inv(s.(now := now, out := false), gap, max, init)
  {
    assert CoolsRemembered(s.(now := now, out := false));
  }

  lemma NewCoolDown(s: Run, now: nat, p: Pacer, gap: nat, max: nat, init: nat)
    requires Inv(s, gap, max, init) && s.out && s.now <= now && p.coolUntil.Some?
    requires p == s.pacer.(coolUntil := p.coolUntil, backoff := Min(s.pacer.backoff * 2, MAX_BACKOFF_SECS))
    requires now + MIN_COOL_SECS * 1000 <= p.coolUntil.value <= now + MAX_BACKOFF_SECS * 1000
    ensures var cools := s.cools + [CoolDown(now, p.coolUntil.value)];
            Inv(s.(pacer := p, now := now, out := false, cools := cools), gap, max, init)
  {
    var t := s.(pacer := p, now := now, out := false, cools := s.cools + [CoolDown(now, p.coolUntil.value)]);
    assert CoolsProper(t.cools) by {
      forall b, c | 0 <= b < c < |t.cools| ensures t.cools[b].until <= t.cools[c].start {
        assert s.cools[b].until <= s.now;
      }
    }
    assert NoCallWhileCool(t.calls, t.cools) && CoolsRemembered(t);
  }

  lemma {:induction false} DoubledGrows(init: nat, k: nat)
    ensures Doubled(init, k) >= init
  {
    if k > 0 {
      DoubledGrows(init, k - 1);
    }
  }

  lemma StepKeepsInv(s: Run, a: Action, gap: nat, max: nat, init: nat)
    requires Inv(s, gap, max, init) && Enabled(s, a)
    ensures Inv(Do(s, a), gap, max, init)
  {
    match a {
      case Poll =>
      case Pass(_) =>
      case Call(late, later) => CallKeepsInv(s, late, later, gap, max, init);
      case Answer(ms, r) => AnswerKeepsInv(s, ms, r, gap, max, init);
    }
  }

  lemma {:induction false} RunKeepsInv(s: Run, actions: seq<Action>, t: Run, gap: nat, max: nat, init: nat)
    requires Inv(s, gap, max, init) && Runs(s, actions, t)
    ensures Inv(t, gap, max, init)
    decreases |actions|
  {
    if actions != [] {
      StepKeepsInv(s, actions[0], gap, max, init);
      RunKeepsInv(Do(s, actions[0]), actions[1..], t, gap, max, init);
    }
  }

  // ---------------------------------------------------------------------------
  // What holds over every run
  // ---------------------------------------------------------------------------

  /** Over any run: at most the budget of calls since `begin_poll`; calls at least the gap apart,
      and none during a cool-down; each cool-down lasts 5 to 900 seconds, and none begins
      before the last one is over, so none is ever cut short; after `k` of them the back-off
      is the configured one doubled `k` times, up to 900 seconds. */
  lemma PacerIsSafe(gapMs: nat, maxPerPoll: nat, backoffSecs: nat, start: nat, actions: seq<Action>, t: Run)
    requires Runs(Start(FromCli(gapMs, maxPerPoll, backoffSecs), start), actions, t)
    ensures t.polled <= Clamp(maxPerPoll, 2, 500)
    ensures GapsKept(t.calls, Clamp(gapMs, 50, 60_000))
    ensures NoCallWhileCool(t.calls, t.cools)
    ensures forall c :: 0 <= c < |t.cools| ==> 5_000 <= t.cools[c].until - t.cools[c].start <= 900_000
    ensures forall b, c :: 0 <= b < c < |t.cools| ==> t.cools[b].until <= t.cools[c].start
    ensures t.pacer.backoff == Min(Doubled(Clamp(backoffSecs, 5, 900), |t.cools|), 900)
  {
    var p := FromCli(gapMs, maxPerPoll, backoffSecs);
    RunKeepsInv(Start(p, start), actions, t, p.minGap, p.maxPerPoll, p.backoff);
  }

  function CallsWithin(calls: seq<nat>, x: nat, span: nat): nat {
    if calls == [] then 0
    else
      var last := |calls| - 1;
      CallsWithin(calls[..last], x, span) + (if x <= calls[last] <= x + span then 1 else 0)
  }

  /** The last of the calls within a window lies at least one gap per earlier call behind its start. */
  lemma {:induction false} CallsSpread(calls: seq<nat>, x: nat, span: nat, gap: nat) returns (last: nat)
    requires GapsKept(calls, gap)
    ensures var n := CallsWithin(calls, x, span);
            n > 0 ==> x + Times(gap, n - 1) <= last <= x + span
    ensures if calls == [] then last == 0 else last <= calls[|calls| - 1]
    decreases |calls|
  {
    last := 0;
    if calls != [] {
      var before, c := calls[..|calls| - 1], calls[|calls| - 1];
      var earlier := CallsSpread(before, x, span, gap);
      last := if x <= c <= x + span then c else earlier;
      if before != [] {
        var k := |calls| - 2;
        assert before[|before| - 1] == calls[k] && calls[k] + gap <= calls[k + 1];
      }
    }
  }

  lemma RateOfSpread(calls: seq<nat>, x: nat, span: nat, gap: nat)
    requires GapsKept(calls, gap) && gap > 0
    ensures CallsWithin(calls, x, span) <= span / gap + 1
  {
    var n := CallsWithin(calls, x, span);
    var last := CallsSpread(calls, x, span, gap);
    if n > 0 {
      TimesIsProduct(gap, n - 1);
      Quotient(n - 1, gap, span);
    }
  }

  /** Any window of `span` milliseconds sees at most `span / gap + 1` calls. */
  lemma CallRateBound(gapMs: nat, maxPerPoll: nat, backoffSecs: nat, start: nat, actions: seq<Action>, t: Run, x: nat,
                      span: nat)
    requires Runs(Start(FromCli(gapMs, maxPerPoll, backoffSecs), start), actions, t)
    ensures CallsWithin(t.calls, x, span) <= span / Clamp(gapMs, 50, 60_000) + 1
  {
    PacerIsSafe(gapMs, maxPerPoll, backoffSecs, start, actions, t);
    RateOfSpread(t.calls, x, span, Clamp(gapMs, 50, 60_000));
  }

  lemma Quotient(k: nat, gap: nat, span: nat)
    requires gap > 0 && k * gap <= span
    ensures k <= span / gap
  {
    var q := span / gap;
    assert span == q * gap + span % gap;
    if q < k {
      MonotoneMul(q + 1, k, gap);
    }
  }
}
