/** The round-robin over the other repositories and the idle gate that rests on it: workers may be
    torn down for lack of demand only after a full sweep of empty polls, and some time after. */
module Sweep {
  import opened Wrappers
  import opened Decimal
  import opened Arithmetic
  import opened RoundRobin

  // ---------------------------------------------------------------------------
  // Selecting the repositories of a tick
  // ---------------------------------------------------------------------------

  function Selected(repos: seq<string>, content: Option<string>, width: nat): (selected: seq<string>)
    ensures width >= 1 ==> |selected| <= width
  {
    if repos == [] then []
    else if width == 0 then repos
    else Window(repos, Offset(content, |repos|), Min(width, |repos|))
  }

  function CursorAfter(repos: seq<string>, content: Option<string>, width: nat): Option<string> {
    if repos == [] || width == 0 then content
    else Some(Print((Offset(content, |repos|) + Min(width, |repos|)) % |repos|))
  }

  class RepoCursor {
    var content: Option<string>

    constructor (content: Option<string>)
      ensures this.content == content
    {
      this.content := content;
    }

    method SelectReposForTick(repos: seq<string>, width: nat) returns (selected: seq<string>)
      modifies this
      ensures selected == Selected(repos, old(content), width)
      ensures content == CursorAfter(repos, old(content), width)
    {
      if repos == [] {
        return [];
      }
      if width == 0 {
        return repos;
      }
      var offset, take := Offset(content, |repos|), Min(width, |repos|);
      selected := BuildWindow(repos, offset, take);
      offset := (offset + take) % |repos|;
      content := Some(Print(offset));
    }
  }

  /** What `m` consecutive ticks select, in order. */
  function SelectedBy(repos: seq<string>, content: Option<string>, width: nat, m: nat): (selected: seq<string>)
    ensures width >= 1 ==> |selected| <= Times(width, m)
    decreases m
  {
    if m == 0 then []
    else Selected(repos, content, width) + SelectedBy(repos, CursorAfter(repos, content, width), width, m - 1)
  }

  /** The least number of ticks that covers a list, `ceil(n / width)`, and 1 for an empty list. */
  function EmptySweepTicks(n: nat, width: nat): nat {
    var w := if width > 1 then width else 1;
    if n == 0 then 1 else (n + w - 1) / w
  }

  lemma SweepIsCeiling(n: nat, width: nat)
    requires width >= 1
    ensures var ticks := EmptySweepTicks(n, width);
            ticks >= 1 && n <= ticks * width && (n > 0 ==> (ticks - 1) * width < n)
  {
    if n > 0 {
      var q, r := (n + width - 1) / width, (n + width - 1) % width;
      assert n + width - 1 == q * width + r;
      assert (q - 1) * width == q * width - width;
      if q <= 0 {
        MonotoneMul(q, 0, width);
      }
    }
  }

  lemma SelectedNow(repos: seq<string>, content: Option<string>, width: nat, d: nat, pos: nat)
    requires pos < |repos| && width >= 1 && IsAhead(Offset(content, |repos|), d, pos, |repos|)
    requires d < Min(width, |repos|)
    ensures repos[pos] in Selected(repos, content, width)
  {
    InWindow(repos, Offset(content, |repos|), Min(width, |repos|), d, pos);
  }

  lemma CursorMoves(repos: seq<string>, content: Option<string>, width: nat)
    requires 0 < |repos| <= U64_LIMIT && width >= 1
    ensures Offset(CursorAfter(repos, content, width), |repos|) ==
            (Offset(content, |repos|) + Min(width, |repos|)) % |repos|
  {
    OffsetOfPrinted((Offset(content, |repos|) + Min(width, |repos|)) % |repos|, |repos|);
  }

  lemma AheadAfter(repos: seq<string>, content: Option<string>, width: nat, d: nat, pos: nat)
    requires pos < |repos| <= U64_LIMIT && width >= 1 && IsAhead(Offset(content, |repos|), d, pos, |repos|)
    requires d >= Min(width, |repos|)
    ensures IsAhead(Offset(CursorAfter(repos, content, width), |repos|), d - Min(width, |repos|), pos, |repos|)
  {
    AheadOfNext(Offset(content, |repos|), Min(width, |repos|), d, pos, |repos|);
    CursorMoves(repos, content, width);
  }

  /** The entry `d` places ahead is selected once the ticks have gone that far. */
  lemma {:induction false} SelectedWithin(repos: seq<string>, content: Option<string>, width: nat, m: nat, d: nat,
                                          pos: nat)
    requires pos < |repos| <= U64_LIMIT && width >= 1 && d < Times(Min(width, |repos|), m)
    requires IsAhead(Offset(content, |repos|), d, pos, |repos|)
    ensures repos[pos] in SelectedBy(repos, content, width, m)
    decreases m
  {
    var take := Min(width, |repos|);
    if d < take {
      SelectedNow(repos, content, width, d, pos);
    } else {
      AheadAfter(repos, content, width, d, pos);
      SelectedWithin(repos, CursorAfter(repos, content, width), width, m - 1, d - take, pos);
    }
  }

  /** A sweep selects every repository, wherever the cursor stood, also when the sweep was
      computed from a longer list. */
  lemma SweepSelectsAll(repos: seq<string>, content: Option<string>, width: nat, listed: nat, r: string)
    requires |repos| <= U64_LIMIT && width >= 1 && |repos| <= Max(listed, 1) && r in repos
    ensures r in SelectedBy(repos, content, width, EmptySweepTicks(listed, width))
  {
    var m, n := EmptySweepTicks(listed, width), |repos|;
    var pos :| 0 <= pos < n && repos[pos] == r;
    SweepIsCeiling(listed, width);
    assert n <= m * Min(width, n) by {
      if width > n {
        MonotoneMul(1, m, n);
      }
    }
    TimesIsProduct(Min(width, n), m);
    SelectedWithin(repos, content, width, m, Distance(Offset(content, n), pos, n), pos);
  }

  lemma {:induction false} SetOfSeq(s: seq<string>)
    ensures |set r | r in s| <= |s|
  {
    if s != [] {
      SetOfSeq(s[1..]);
      assert (set r | r in s) == {s[0]} + (set r | r in s[1..]);
    }
  }

  lemma {:induction false} DistinctCount(s: seq<string>)
    requires forall i, j :: 0 <= i < j < |s| ==> s[i] != s[j]
    ensures |set r | r in s| == |s|
  {
    if s != [] {
      DistinctCount(s[1..]);
      assert (set r | r in s) == {s[0]} + (set r | r in s[1..]);
    }
  }

  /** One tick fewer than a sweep leaves some repository out. */
  lemma ShorterSweepMisses(repos: seq<string>, content: Option<string>, width: nat, m: nat) returns (missed: string)
    requires width >= 1 && repos != [] && m < EmptySweepTicks(|repos|, width)
    requires forall i, j :: 0 <= i < j < |repos| ==> repos[i] != repos[j]
    ensures missed in repos && missed !in SelectedBy(repos, content, width, m)
  {
    SweepTooShort(|repos|, width, m);
    missed := Misses(repos, SelectedBy(repos, content, width, m));
  }

  lemma SweepTooShort(n: nat, width: nat, m: nat)
    requires width >= 1 && n > 0 && m < EmptySweepTicks(n, width)
    ensures Times(width, m) < n
  {
    SweepIsCeiling(n, width);
    TimesIsProduct(width, m);
    MonotoneMul(m, EmptySweepTicks(n, width) - 1, width);
  }

  lemma Misses(repos: seq<string>, seen: seq<string>) returns (missed: string)
    requires |seen| < |repos| && forall i, j :: 0 <= i < j < |repos| ==> repos[i] != repos[j]
    ensures missed in repos && missed !in seen
  {
    DistinctCount(repos);
    SetOfSeq(seen);
    var all, some := (set r | r in repos), (set r | r in seen);
    if all <= some {
      SubsetSize(all, some);
      assert false;
    }
    missed :| missed in all && missed !in some;
  }

  lemma {:induction false} SubsetSize(a: set<string>, b: set<string>)
    requires a <= b
    ensures |a| <= |b|
  {
    if a != {} {
      var x :| x in a;
      SubsetSize(a - {x}, b - {x});
    }
  }

  // ---------------------------------------------------------------------------
  // The idle gate
  // ---------------------------------------------------------------------------

  const U32_MAX: nat := 0xFFFF_FFFF

  /** Consecutive empty polls, and since when the queue counts as empty. */
  datatype Gate = Gate(emptyStreak: nat, idleSince: Option<nat>)

  /** What a tick of the listen loop sees and does: whether its poll returned, whether the queue
      was empty, the time, and whether the plan tore workers down. */
  datatype Tick = Tick(ok: bool, empty: bool, now: nat, scaledIn: bool)

  predicate DemandEmptyConfirmed(streak: nat, listed: nat, width: nat) {
    streak >= EmptySweepTicks(listed, width)
  }

  function Elapsed(since: nat, now: nat): nat {
    if now >= since then now - since else 0
  }

  /** The gate once the tick has looked at the queue. */
  function Observed(g: Gate, empty: bool, now: nat, sweep: nat): Gate {
    if !empty then Gate(0, None)
    else
      var streak := if g.emptyStreak < U32_MAX then g.emptyStreak + 1 else U32_MAX;
      if streak >= sweep then Gate(streak, Some(if g.idleSince.Some? then g.idleSince.value else now))
      else Gate(streak, None)
  }

  predicate Expired(g: Gate, now: nat, idleSecs: nat) {
    g.idleSince.Some? && Elapsed(g.idleSince.value, now) >= idleSecs
  }

  class IdleGate {
    var emptyStreak: nat
    var idleSince: Option<nat>

    ghost function State(): Gate
      reads this
    {
      Gate(emptyStreak, idleSince)
    }

    constructor ()
      ensures State() == Gate(0, None)
    {
      emptyStreak, idleSince := 0, None;
    }

    method Observe(empty: bool, now: nat, listed: nat, width: nat, idleSecs: nat) returns (idleExpired: bool)
      modifies this
      ensures State() == Observed(old(State()), empty, now, EmptySweepTicks(listed, width))
      ensures idleExpired <==> Expired(State(), now, idleSecs)
    {
      if empty {
        emptyStreak := if emptyStreak < U32_MAX then emptyStreak + 1 else U32_MAX;
        if DemandEmptyConfirmed(emptyStreak, listed, width) {
          if idleSince.None? {
            idleSince := Some(now);
          }
          idleExpired := Elapsed(idleSince.value, now) >= idleSecs;
        } else {
          idleSince := None;
          idleExpired := false;
        }
      } else {
        emptyStreak, idleSince := 0, None;
        idleExpired := false;
      }
    }

    method AfterScaleIn()
      modifies this
      ensures State() == old(State()).(idleSince := None)
    {
      idleSince := None;
    }
  }

  /** The gate after a run of ticks. A tick whose poll failed leaves it alone. */
  function GateAfter(ticks: seq<Tick>, sweep: nat): Gate {
    if ticks == [] then Gate(0, None)
    else
      var t, before := ticks[|ticks| - 1], GateAfter(ticks[..|ticks| - 1], sweep);
      if !t.ok then before
      else
        var g := Observed(before, t.empty, t.now, sweep);
        if t.scaledIn then g.(idleSince := None) else g
  }

  /** Whether the last tick of the run finds the idle time expired. */
  predicate IdleExpired(ticks: seq<Tick>, sweep: nat, idleSecs: nat) {
    && ticks != [] && ticks[|ticks| - 1].ok
    && var t := ticks[|ticks| - 1];
       Expired(Observed(GateAfter(ticks[..|ticks| - 1], sweep), t.empty, t.now, sweep), t.now, idleSecs)
  }

  ghost predicate EmptyFrom(ticks: seq<Tick>, b: nat) {
    forall j :: b <= j < |ticks| ==> ticks[j].empty
  }

  /** A sweep of empty polls ended with tick `c` at time `since`, and all polls after it were empty. */
  ghost predicate ConfirmedAt(ticks: seq<Tick>, sweep: nat, c: nat, since: nat) {
    c < |ticks| && sweep <= c + 1 && ticks[c].now == since && EmptyFrom(ticks, c + 1 - sweep)
  }

  ghost predicate GateIsSound(ticks: seq<Tick>, sweep: nat, g: Gate) {
    && g.emptyStreak <= |ticks| && EmptyFrom(ticks, |ticks| - g.emptyStreak)
    && (g.idleSince.Some? ==> exists c :: ConfirmedAt(ticks, sweep, c, g.idleSince.value))
  }

  lemma ObserveKeepsSound(ticks: seq<Tick>, t: Tick, sweep: nat, g: Gate)
    requires GateIsSound(ticks, sweep, g) && sweep >= 1
    ensures GateIsSound(ticks + [t], sweep, Observed(g, t.empty, t.now, sweep))
  {
    var more, h := ticks + [t], Observed(g, t.empty, t.now, sweep);
    if t.empty && h.idleSince.Some? {
      if g.idleSince.Some? {
        var c :| ConfirmedAt(ticks, sweep, c, g.idleSince.value);
        assert ConfirmedAt(more, sweep, c, h.idleSince.value);
      } else {
        assert ConfirmedAt(more, sweep, |ticks|, h.idleSince.value);
      }
    }
  }

  /** A poll that returned with jobs. */
  predicate Resets(t: Tick) {
    t.ok && !t.empty
  }

  /** Where the current streak of empty polls begins: after the last poll that found jobs. */
  lemma {:induction false} StreakStart(ticks: seq<Tick>) returns (b: nat)
    ensures b <= |ticks| && (b == 0 || Resets(ticks[b - 1])) && forall j :: b <= j < |ticks| ==> !Resets(ticks[j])
  {
    b := |ticks|;
    if ticks != [] && !Resets(ticks[|ticks| - 1]) {
      b := StreakStart(ticks[..|ticks| - 1]);
    }
  }

  lemma {:induction false} GateMeans(ticks: seq<Tick>, sweep: nat, b: nat)
    requires sweep >= 1 && b <= |ticks| && (b == 0 || Resets(ticks[b - 1]))
    requires forall j :: b <= j < |ticks| ==> ticks[j].ok
    ensures GateIsSound(ticks, sweep, GateAfter(ticks, sweep))
    decreases |ticks|
  {
    if b < |ticks| {
      var before, t := ticks[..|ticks| - 1], ticks[|ticks| - 1];
      GateMeans(before, sweep, b);
      assert ticks == before + [t];
      ObserveKeepsSound(before, t, sweep, GateAfter(before, sweep));
    }
  }

  /** The cursor file after a run of ticks; every tick moves it, also one whose poll failed. */
  function CursorAt(repos: seq<string>, content: Option<string>, width: nat, ticks: nat): Option<string> {
    if ticks == 0 then content else CursorAfter(repos, CursorAt(repos, content, width, ticks - 1), width)
  }

  ghost predicate ClockRuns(ticks: seq<Tick>) {
    forall i, j :: 0 <= i < j < |ticks| ==> ticks[i].now <= ticks[j].now
  }

  /** No poll has failed since the last one that found jobs. */
  ghost predicate NoFailureInStreak(ticks: seq<Tick>) {
    forall j :: 0 <= j < |ticks| && !ticks[j].ok ==> exists i :: j < i < |ticks| && Resets(ticks[i])
  }

  lemma ExpiryIsConfirmed(ticks: seq<Tick>, sweep: nat, idleSecs: nat) returns (c: nat)
    requires sweep >= 1 && NoFailureInStreak(ticks) && ClockRuns(ticks) && IdleExpired(ticks, sweep, idleSecs)
    ensures c < |ticks| && sweep <= c + 1 && EmptyFrom(ticks, c + 1 - sweep)
    ensures forall j :: c + 1 - sweep <= j < |ticks| ==> ticks[j].ok
    ensures ticks[|ticks| - 1].now - ticks[c].now >= idleSecs
  {
    var before, t := ticks[..|ticks| - 1], ticks[|ticks| - 1];
    var b := StreakStart(ticks);
    assert t.empty;
    GateMeans(before, sweep, b);
    ObserveKeepsSound(before, t, sweep, GateAfter(before, sweep));
    assert ticks == before + [t];
    var since := Observed(GateAfter(before, sweep), t.empty, t.now, sweep).idleSince.value;
    c :| ConfirmedAt(ticks, sweep, c, since);
  }

  /** If no poll has failed since the last one that found jobs: when the idle time has expired,
      there was a sweep of polls, ending with some tick `c`, that all returned empty and
      selected every repository; since then every poll returned empty, and the idle time
      has passed. */
  lemma ExpiryMeansSweptAndIdle(repos: seq<string>, content: Option<string>, width: nat, listed: nat, idleSecs: nat,
                                ticks: seq<Tick>)
    returns (c: nat)
    requires |repos| <= U64_LIMIT && width >= 1 && |repos| <= Max(listed, 1)
    requires NoFailureInStreak(ticks) && ClockRuns(ticks)
    requires IdleExpired(ticks, EmptySweepTicks(listed, width), idleSecs)
    ensures var sweep, last := EmptySweepTicks(listed, width), |ticks| - 1;
            && c <= last && sweep <= c + 1
            && (forall j :: c + 1 - sweep <= j <= last ==> ticks[j].ok && ticks[j].empty)
            && ticks[last].now - ticks[c].now >= idleSecs
            && forall r :: r in repos ==>
                 r in SelectedBy(repos, CursorAt(repos, content, width, c + 1 - sweep), width, sweep)
  {
    SweepIsCeiling(listed, width);
    c := ExpiryIsConfirmed(ticks, EmptySweepTicks(listed, width), idleSecs);
    AllSelected(repos, CursorAt(repos, content, width, c + 1 - EmptySweepTicks(listed, width)), width, listed);
  }

  lemma AllSelected(repos: seq<string>, content: Option<string>, width: nat, listed: nat)
    requires |repos| <= U64_LIMIT && width >= 1 && |repos| <= Max(listed, 1)
    ensures forall r :: r in repos ==> r in SelectedBy(repos, content, width, EmptySweepTicks(listed, width))
  {
    forall r | r in repos ensures r in SelectedBy(repos, content, width, EmptySweepTicks(listed, width)) {
      SweepSelectsAll(repos, content, width, listed, r);
    }
  }

  lemma GateStep(ticks: seq<Tick>, t: Tick, sweep: nat)
    ensures GateAfter(ticks + [t], sweep) ==
            if !t.ok then GateAfter(ticks, sweep)
            else
              var g := Observed(GateAfter(ticks, sweep), t.empty, t.now, sweep);
              if t.scaledIn then g.(idleSince := None) else g
  {
    assert (ticks + [t])[..|ticks|] == ticks;
  }
}
