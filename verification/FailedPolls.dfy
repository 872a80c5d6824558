/** What the idle gate still guarantees when polls fail. A failed poll moves the cursor but leaves
    the gate alone, so the gate may open although no poll that returned has seen some repository. */
module FailedPolls {
  import opened Wrappers
  import opened Decimal
  import opened Arithmetic
  import opened RoundRobin
  import opened Sweep

  /** Poll `k` returned, and it and every later poll that returned found the queue empty. */
  ghost predicate InStreak(ticks: seq<Tick>, k: nat) {
    k < |ticks| && forall j :: k <= j < |ticks| && (j == k || ticks[j].ok) ==> ticks[j].ok && ticks[j].empty
  }

  ghost predicate SeenInStreak(repos: seq<string>, content: Option<string>, width: nat, ticks: seq<Tick>, r: string) {
    exists k :: InStreak(ticks, k) && r in Selected(repos, CursorAt(repos, content, width, k), width)
  }

  /** On every run, failed polls included: when the gate opens, each repository was selected by
      a returning poll of the empty streak. */
  ghost predicate GateHolds(repos: seq<string>, content: Option<string>, width: nat, sweep: nat, idleSecs: nat) {
    forall ticks, r :: ClockRuns(ticks) && IdleExpired(ticks, sweep, idleSecs) && r in repos ==>
      SeenInStreak(repos, content, width, ticks, r)
  }

  // ---------------------------------------------------------------------------
  // A run in which one poll in `n` returns
  // ---------------------------------------------------------------------------

  function Seen(now: nat): Tick {
    Tick(true, true, now, false)
  }

  function Lost(j: nat): (ticks: seq<Tick>)
    ensures |ticks| == j && forall k :: 0 <= k < j ==> ticks[k] == Tick(false, true, 0, false)
  {
    if j == 0 then [] else Lost(j - 1) + [Tick(false, true, 0, false)]
  }

  /** `n - 1` failed polls, then one that returns. */
  function Then(ticks: seq<Tick>, n: nat, now: nat): seq<Tick>
    requires n >= 1
  {
    ticks + Lost(n - 1) + [Seen(now)]
  }

  function Sparse(n: nat, m: nat): seq<Tick>
    requires n >= 1
  {
    if m == 0 then [Seen(0)] else Then(Sparse(n, m - 1), n, 0)
  }

  /** Only every `n`th poll returns, and the clock stands until the last one. */
  ghost predicate IsSparse(ticks: seq<Tick>, n: nat, m: nat) {
    && |ticks| == Times(n, m) + 1
    && (forall k :: 0 <= k < |ticks| && ticks[k].ok ==> exists q :: k == Times(n, q))
    && (forall k :: 0 <= k < |ticks| - 1 ==> ticks[k].now == 0)
  }

  lemma ThenIsSparse(ticks: seq<Tick>, n: nat, m: nat, now: nat)
    requires n >= 1 && IsSparse(ticks, n, m) && ticks[|ticks| - 1].now == 0
    ensures IsSparse(Then(ticks, n, now), n, m + 1)
  {
    var more := Then(ticks, n, now);
    assert |more| - 1 == Times(n, m + 1);
    forall k | 0 <= k < |more| && more[k].ok ensures exists q :: k == Times(n, q) {
      if k < |ticks| {
        assert more[k] == ticks[k];
      } else {
        assert k == |more| - 1;
      }
    }
  }

  lemma {:induction false} SparseIsSparse(n: nat, m: nat)
    requires n >= 1
    ensures IsSparse(Sparse(n, m), n, m) && Sparse(n, m)[|Sparse(n, m)| - 1].now == 0
  {
    if m == 0 {
      assert 0 == Times(n, 0);
    } else {
      SparseIsSparse(n, m - 1);
      ThenIsSparse(Sparse(n, m - 1), n, m - 1, 0);
    }
  }

  lemma {:induction false} GateAfterLost(ticks: seq<Tick>, j: nat, sweep: nat)
    ensures GateAfter(ticks + Lost(j), sweep) == GateAfter(ticks, sweep)
  {
    if j == 0 {
      assert ticks + Lost(0) == ticks;
    } else {
      GateAfterLost(ticks, j - 1, sweep);
      GateStep(ticks + Lost(j - 1), Tick(false, true, 0, false), sweep);
      assert ticks + Lost(j) == ticks + Lost(j - 1) + [Tick(false, true, 0, false)];
    }
  }

  lemma {:induction false} GateAfterSparse(n: nat, m: nat, sweep: nat)
    requires n >= 1 && sweep >= 1 && m < U32_MAX
    ensures GateAfter(Sparse(n, m), sweep) == Gate(m + 1, if m + 1 >= sweep then Some(0) else None)
  {
    if m == 0 {
      GateStep([], Seen(0), sweep);
      assert [] + [Seen(0)] == [Seen(0)];
    } else {
      GateAfterSparse(n, m - 1, sweep);
      GateAfterLost(Sparse(n, m - 1), n - 1, sweep);
      GateStep(Sparse(n, m - 1) + Lost(n - 1), Seen(0), sweep);
    }
  }

  /** It opens the gate. */
  lemma SparseExpires(n: nat, sweep: nat, idleSecs: nat)
    requires n >= 1 && 1 <= sweep <= U32_MAX
    ensures IdleExpired(Then(Sparse(n, sweep - 1), n, idleSecs), sweep, idleSecs)
  {
    var ticks := Sparse(n, sweep - 1) + Lost(n - 1);
    GateAfterSparse(n, sweep - 1, sweep);
    GateAfterLost(Sparse(n, sweep - 1), n - 1, sweep);
    assert (ticks + [Seen(idleSecs)])[..|ticks|] == ticks;
  }

  // ---------------------------------------------------------------------------
  // All polls that return select the same repositories
  // ---------------------------------------------------------------------------

  /** One move around a list of length `n`. */
  function Move(p: nat, width: nat, n: nat): (q: nat)
    requires p < n && width < n
    ensures q < n
  {
    if p + width < n then p + width else p + width - n
  }

  /** The position after `k` moves. */
  function Position(start: nat, width: nat, n: nat, k: nat): (p: nat)
    requires start < n && width < n
    ensures p < n
  {
    if k == 0 then start else Move(Position(start, width, n, k - 1), width, n)
  }

  lemma {:induction false} PositionCountsLaps(start: nat, width: nat, n: nat, k: nat) returns (laps: nat)
    requires start < n && width < n
    ensures start + Times(width, k) == Position(start, width, n, k) + Times(n, laps)
  {
    laps := 0;
    if k > 0 {
      laps := PositionCountsLaps(start, width, n, k - 1);
      if Position(start, width, n, k - 1) + width >= n {
        laps := laps + 1;
      }
    }
  }

  /** Any multiple of `n` moves leads back to the start. */
  lemma PositionReturns(start: nat, width: nat, n: nat, q: nat)
    requires start < n && width < n
    ensures Position(start, width, n, Times(n, q)) == start
  {
    var k := Times(n, q);
    var laps := PositionCountsLaps(start, width, n, k);
    TimesIsProduct(n, laps);
    TimesIsProduct(n, q);
    TimesIsProduct(width, k);
    SameRemainder(start, Position(start, width, n, k), n, q, width, laps);
  }

  lemma SameRemainder(a: nat, b: nat, n: nat, q: nat, width: nat, laps: nat)
    requires a < n && b < n && a + (q * n) * width == b + laps * n
    ensures a == b
  {
    assert (q * n) * width == (q * width) * n;
    ModUnique(b + laps * n, q * width, n, a);
    ModUnique(b + laps * n, laps, n, b);
  }

  lemma CursorMovesTo(repos: seq<string>, content: Option<string>, width: nat)
    requires 1 <= width < |repos| <= U64_LIMIT
    ensures Offset(CursorAfter(repos, content, width), |repos|) == Move(Offset(content, |repos|), width, |repos|)
  {
    CursorMoves(repos, content, width);
    var p, n := Offset(content, |repos|), |repos|;
    ModUnique(p + width, if p + width >= n then 1 else 0, n, Move(p, width, n));
  }

  ghost predicate Moves(p: nat -> nat, width: nat, n: nat, k: nat) {
    width < n && p(k) < n && p(k + 1) == Move(p(k), width, n)
  }

  lemma {:induction false} MovesAddUp(p: nat -> nat, width: nat, n: nat, k: nat)
    requires p(0) < n && width < n && forall j :: Moves(p, width, n, j)
    ensures p(k) == Position(p(0), width, n, k)
  {
    if k > 0 {
      MovesAddUp(p, width, n, k - 1);
      assert Moves(p, width, n, k - 1);
    }
  }

  lemma CursorSteps(repos: seq<string>, content: Option<string>, width: nat, k: nat, before: Option<string>,
                    after: Option<string>)
    requires 1 <= width < |repos| <= U64_LIMIT
    requires before == CursorAt(repos, content, width, k) && after == CursorAt(repos, content, width, k + 1)
    ensures after == CursorAfter(repos, before, width)
  {
  }

  lemma OffsetSteps(repos: seq<string>, content: Option<string>, width: nat, k: nat, p: nat -> nat)
    requires 1 <= width < |repos| <= U64_LIMIT
    requires forall j :: p(j) == Offset(CursorAt(repos, content, width, j), |repos|)
    ensures Moves(p, width, |repos|, k)
  {
    var before, after := CursorAt(repos, content, width, k), CursorAt(repos, content, width, k + 1);
    CursorSteps(repos, content, width, k, before, after);
    CursorMovesTo(repos, before, width);
  }

  /** After any multiple of `|repos|` ticks the cursor stands where it started. */
  lemma CursorReturns(repos: seq<string>, content: Option<string>, width: nat, q: nat)
    requires 1 <= width < |repos| <= U64_LIMIT
    ensures Offset(CursorAt(repos, content, width, Times(|repos|, q)), |repos|) == Offset(content, |repos|)
  {
    var n := |repos|;
    var p := (k: nat) => Offset(CursorAt(repos, content, width, k), n);
    forall k: nat ensures Moves(p, width, n, k) {
      OffsetSteps(repos, content, width, k, p);
    }
    MovesAddUp(p, width, n, Times(n, q));
    PositionReturns(p(0), width, n, q);
  }

  ghost predicate Distinct(repos: seq<string>) {
    forall i, j :: 0 <= i < j < |repos| ==> repos[i] != repos[j]
  }

  /** The repository right after a window is not in it. */
  lemma AfterWindow(repos: seq<string>, offset: nat, width: nat, hidden: nat)
    requires Distinct(repos) && width < |repos| && IsAhead(offset, width, hidden, |repos|)
    ensures repos[hidden] !in Window(repos, offset, width)
  {
    var w := Window(repos, offset, width);
    forall i | 0 <= i < width ensures w[i] != repos[hidden] {
      var pos := if offset + i < |repos| then offset + i else offset + i - |repos|;
      InWindow(repos, offset, width, i, pos);
    }
  }

  /** Failed polls may hide a repository: there is a run that opens the gate although no poll
      that returned, in the streak or before, has selected it. */
  lemma FailedPollHidesRepo(repos: seq<string>, content: Option<string>, width: nat, sweep: nat, idleSecs: nat)
    returns (ticks: seq<Tick>, hidden: string)
    requires Distinct(repos) && 1 <= width < |repos| <= U64_LIMIT && 1 <= sweep <= U32_MAX
    ensures ClockRuns(ticks) && IdleExpired(ticks, sweep, idleSecs) && hidden in repos
    ensures forall k :: 0 <= k < |ticks| && ticks[k].ok ==>
              hidden !in Selected(repos, CursorAt(repos, content, width, k), width)
  {
    var n, start := |repos|, Offset(content, |repos|);
    SparseIsSparse(n, sweep - 1);
    ThenIsSparse(Sparse(n, sweep - 1), n, sweep - 1, idleSecs);
    SparseExpires(n, sweep, idleSecs);
    ticks := Then(Sparse(n, sweep - 1), n, idleSecs);
    var pos := if start + width < n then start + width else start + width - n;
    hidden := repos[pos];
    forall k | 0 <= k < |ticks| && ticks[k].ok
      ensures hidden !in Selected(repos, CursorAt(repos, content, width, k), width)
    {
      var q :| k == Times(n, q);
      CursorReturns(repos, content, width, q);
      AfterWindow(repos, start, width, pos);
    }
  }

  // ---------------------------------------------------------------------------
  // When the gate tolerates failed polls
  // ---------------------------------------------------------------------------

  /** A poll wide enough for all repositories selects each of them. */
  lemma WideSelectsAll(repos: seq<string>, content: Option<string>, width: nat, r: string)
    requires width >= |repos| && r in repos
    ensures r in Selected(repos, content, width)
  {
    var pos :| 0 <= pos < |repos| && repos[pos] == r;
    if width > 0 {
      var d := Distance(Offset(content, |repos|), pos, |repos|);
      InWindow(repos, Offset(content, |repos|), |repos|, d, pos);
    }
  }

  /** The last poll of a run that opens the gate returned empty. */
  lemma LastInStreak(ticks: seq<Tick>, sweep: nat, idleSecs: nat)
    requires IdleExpired(ticks, sweep, idleSecs)
    ensures InStreak(ticks, |ticks| - 1)
  {
  }

  /** The gate can be trusted on every run, failed polls included, exactly when each poll selects
      all repositories. */
  lemma GateHoldsIff(repos: seq<string>, content: Option<string>, width: nat, sweep: nat, idleSecs: nat)
    requires Distinct(repos) && width >= 1 && |repos| <= U64_LIMIT && 1 <= sweep <= U32_MAX
    ensures GateHolds(repos, content, width, sweep, idleSecs) <==> width >= |repos|
  {
    if width >= |repos| {
      forall ticks, r | ClockRuns(ticks) && IdleExpired(ticks, sweep, idleSecs) && r in repos
        ensures SeenInStreak(repos, content, width, ticks, r)
      {
        LastInStreak(ticks, sweep, idleSecs);
        WideSelectsAll(repos, CursorAt(repos, content, width, |ticks| - 1), width, r);
      }
    } else {
      var ticks, hidden := FailedPollHidesRepo(repos, content, width, sweep, idleSecs);
      assert !SeenInStreak(repos, content, width, ticks, hidden);
    }
  }
}
