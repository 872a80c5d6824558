/** The scan of the priority repositories. It may be cut short by the API budget or by having
    found enough jobs; a cursor in a file makes the next scan resume where this one stopped. */
module PriorityScan {
  import opened Wrappers
  import opened Arithmetic
  import opened Decimal
  import opened RoundRobin

  /** What polling one repository comes to. */
  datatype Outcome =
    | Polled(jobs: nat)    // polled to the end
    | BudgetSpent          // the API budget ran out on it, perhaps before its first request
    | Refused              // rate limited or a hard error: the whole scan returns it

  /** How far the scan came; both drive the cursor. */
  datatype ScanEnd = Failed | Ended(consumed: nat, complete: bool)

  /** The scan from entry `idx` on; the first `prioLen` entries are the priority ones. */
  function Scan(outcomes: seq<Outcome>, prioLen: nat, maxJobs: nat, idx: nat, jobs: nat, consumed: nat,
                complete: bool): ScanEnd
    decreases |outcomes| - idx
  {
    if idx >= |outcomes| then Ended(consumed, complete)
    else
      var consumed' := if idx < prioLen then idx else consumed;
      if jobs >= maxJobs then Ended(consumed', complete)
      else
        match outcomes[idx]
        case Refused => Failed
        case BudgetSpent => Ended(consumed', complete)
        case Polled(n) => Scan(outcomes, prioLen, maxJobs, idx + 1, jobs + n, consumed', complete || idx + 1 >= prioLen)
  }

  function ScanAll(outcomes: seq<Outcome>, prioLen: nat, maxJobs: nat): ScanEnd {
    Scan(outcomes, prioLen, maxJobs, 0, 0, 0, prioLen == 0)
  }

  /** `advance_cursor`: on by what was consumed, and by one at least. */
  function AdvancedBy(offset: nat, consumed: nat, len: nat): (next: nat)
    requires len > 0
    ensures next < len
  {
    (offset + Max(consumed, 1)) % len
  }

  /** The position at which the next scan starts. */
  function NextOffset(end: ScanEnd, offset: nat, len: nat): (next: nat)
    requires len > 0 && end.Ended?
    ensures next < len
  {
    if end.complete then 0 else AdvancedBy(offset, end.consumed, len)
  }

  class PriorityCursor {
    var content: Option<string>

    constructor (content: Option<string>)
      ensures this.content == content
    {
      this.content := content;
    }

    /** One scan of the priority list followed by other repositories; `outcomes` is what polling
        each entry would come to, in scan order. At least one job is asked for: the caller wants
        twice its worker limit. Returns the priority repositories polled, or `None` for an error. */
    method ListDemand(items: seq<string>, outcomes: seq<Outcome>, maxJobs: nat) returns (polled: Option<seq<string>>)
      requires |items| <= |outcomes| && maxJobs >= 1
      modifies this
      ensures var end := ScanAll(outcomes, |items|, maxJobs);
              if end.Failed? then polled == None && content == old(content)
              else if items == [] then polled == Some([]) && content == Some(Print(0))
              else
                var offset := Offset(old(content), |items|);
                && polled == Some(Read(items, offset, end))
                && content == Some(Print(NextOffset(end, offset, |items|)))
    {
      var offset, scan := 0, [];
      if items != [] {
        offset := Offset(content, |items|);
        scan := BuildWindow(items, offset, |items|);
      }
      var end := ScanEntries(outcomes, |items|, maxJobs);
      if end.Failed? {
        return None;
      }
      if items == [] {
        NothingLeftOut(outcomes, maxJobs, 0, 0, 0);
      }
      if end.complete {
        content := Some(Print(0));
        polled := Some(scan);
      } else {
        content := Some(Print(AdvancedBy(offset, end.consumed, |items|)));
        polled := Some(scan[..Min(Max(end.consumed, 1), |items|)]);
      }
    }
  }

  /** Without priority repositories every scan is complete. */
  lemma {:induction false} NothingLeftOut(outcomes: seq<Outcome>, maxJobs: nat, idx: nat, jobs: nat, consumed: nat)
    ensures var end := Scan(outcomes, 0, maxJobs, idx, jobs, consumed, true); end.Ended? ==> end.complete
    decreases |outcomes| - idx
  {
    if idx < |outcomes| && jobs < maxJobs && outcomes[idx].Polled? {
      NothingLeftOut(outcomes, maxJobs, idx + 1, jobs + outcomes[idx].jobs, consumed);
    }
  }

  /** The loop over the entries. */
  method ScanEntries(outcomes: seq<Outcome>, prioLen: nat, maxJobs: nat) returns (end: ScanEnd)
    ensures end == ScanAll(outcomes, prioLen, maxJobs)
  {
    var jobs: nat, consumed: nat, complete := 0, 0, prioLen == 0;
    var idx := 0;
    while idx < |outcomes|
      invariant idx <= |outcomes|
      invariant ScanAll(outcomes, prioLen, maxJobs) == Scan(outcomes, prioLen, maxJobs, idx, jobs, consumed, complete)
    {
      if idx < prioLen {
        consumed := idx;
      }
      if jobs >= maxJobs {
        break;
      }
      var outcome := outcomes[idx];
      if outcome.Refused? {
        return Failed;
      }
      if outcome.BudgetSpent? {
        break;
      }
      jobs := jobs + outcome.jobs;
      if idx + 1 >= prioLen {
        complete := true;
      }
      idx := idx + 1;
    }
    end := Ended(consumed, complete);
  }

  /** The priority repositories that a scan has polled, in order: those read to the end, and in
      any case the first, for which it has the whole budget. The entry on which a later budget
      runs out is not among them. */
  function Read(items: seq<string>, offset: nat, end: ScanEnd): seq<string>
    requires items != [] && end.Ended?
  {
    var w := Window(items, offset, |items|);
    if end.complete then w else w[..Min(Max(end.consumed, 1), |items|)]
  }

  // ---------------------------------------------------------------------------
  // One scan
  // ---------------------------------------------------------------------------

  /** A complete scan has read the whole list to the end; any other has read the entries by
      which the cursor moves on, save that the cursor always moves. */
  lemma {:induction false} ScanReads(outcomes: seq<Outcome>, prioLen: nat, maxJobs: nat, idx: nat, jobs: nat,
                                     consumed: nat, complete: bool)
    requires idx <= |outcomes| && prioLen <= |outcomes| && prioLen > 0 && maxJobs > 0
    requires complete <==> idx >= prioLen
    requires idx < prioLen ==> consumed == if idx == 0 then 0 else idx - 1
    requires forall k :: 0 <= k < idx ==> outcomes[k].Polled?
    ensures var end := Scan(outcomes, prioLen, maxJobs, idx, jobs, consumed, complete);
            end.Ended? ==>
              && (end.complete ==> forall k :: 0 <= k < prioLen ==> outcomes[k].Polled?)
              && (!end.complete ==> end.consumed < prioLen && forall k :: 0 <= k < end.consumed ==> outcomes[k].Polled?)
    decreases |outcomes| - idx
  {
    if idx < |outcomes| && jobs < maxJobs && outcomes[idx].Polled? {
      var consumed' := if idx < prioLen then idx else consumed;
      var complete' := complete || idx + 1 >= prioLen;
      ScanReads(outcomes, prioLen, maxJobs, idx + 1, jobs + outcomes[idx].jobs, consumed', complete');
    }
  }

  // ---------------------------------------------------------------------------
  // Consecutive scans
  // ---------------------------------------------------------------------------

  /** One scan as the environment sees it. */
  datatype Tick = Tick(outcomes: seq<Outcome>, maxJobs: nat)

  predicate Returns(items: seq<string>, tick: Tick) {
    && |items| <= |tick.outcomes| && tick.maxJobs >= 1
    && ScanAll(tick.outcomes, |items|, tick.maxJobs).Ended?
  }

  /** The priority repositories that one scan polls, and what it leaves in the cursor file. */
  function TickPolls(items: seq<string>, content: Option<string>, tick: Tick): seq<string>
    requires items != [] && Returns(items, tick)
  {
    Read(items, Offset(content, |items|), ScanAll(tick.outcomes, |items|, tick.maxJobs))
  }

  function TickLeaves(items: seq<string>, content: Option<string>, tick: Tick): Option<string>
    requires items != [] && Returns(items, tick)
  {
    Some(Print(NextOffset(ScanAll(tick.outcomes, |items|, tick.maxJobs), Offset(content, |items|), |items|)))
  }

  ghost predicate AllReturn(items: seq<string>, ticks: seq<Tick>) {
    forall k :: 0 <= k < |ticks| ==> Returns(items, ticks[k])
  }

  /** The repositories polled by a run of scans, the first of which finds `content` in the file. */
  ghost function PolledBy(items: seq<string>, content: Option<string>, ticks: seq<Tick>): set<string>
    requires items != [] && AllReturn(items, ticks)
    decreases |ticks|
  {
    if ticks == [] then {}
    else
      var first := set r | r in TickPolls(items, content, ticks[0]);
      first + PolledBy(items, TickLeaves(items, content, ticks[0]), ticks[1..])
  }

  lemma LeavesOffset(items: seq<string>, content: Option<string>, tick: Tick, next: nat)
    requires 0 < |items| <= U64_LIMIT && Returns(items, tick)
    requires next == NextOffset(ScanAll(tick.outcomes, |items|, tick.maxJobs), Offset(content, |items|), |items|)
    ensures Offset(TickLeaves(items, content, tick), |items|) == next
  {
    OffsetOfPrinted(next, |items|);
  }

  /** The entry at `pos`, `d` places after the start of a scan, is polled by it, or is still
      ahead of the next one, and nearer. */
  lemma OneScan(items: seq<string>, content: Option<string>, tick: Tick, d: nat, pos: nat) returns (step: nat)
    requires pos < |items| <= U64_LIMIT && Returns(items, tick) && IsAhead(Offset(content, |items|), d, pos, |items|)
    ensures items[pos] in TickPolls(items, content, tick)
            || (1 <= step <= d && IsAhead(Offset(TickLeaves(items, content, tick), |items|), d - step, pos, |items|))
  {
    var n := |items|;
    var offset, end := Offset(content, n), ScanAll(tick.outcomes, n, tick.maxJobs);
    ScanReads(tick.outcomes, n, tick.maxJobs, 0, 0, 0, false);
    step := Max(end.consumed, 1);
    if end.complete || d < step {
      InWindow(items, offset, n, d, pos);
      assert TickPolls(items, content, tick)[d] == items[pos];
    } else {
      LeavesOffset(items, content, tick, NextOffset(end, offset, n));
      AheadOfNext(offset, step, d, pos, n);
    }
  }

  /** The entry `d` places after the start of a run is polled within `d + 1` scans. */
  lemma {:induction false} PolledWithin(items: seq<string>, content: Option<string>, ticks: seq<Tick>, d: nat, pos: nat)
    requires pos < |items| <= U64_LIMIT && d < |ticks| && AllReturn(items, ticks)
    requires IsAhead(Offset(content, |items|), d, pos, |items|)
    ensures items[pos] in PolledBy(items, content, ticks)
    decreases |ticks|
  {
    var step := OneScan(items, content, ticks[0], d, pos);
    if items[pos] !in TickPolls(items, content, ticks[0]) {
      PolledWithin(items, TickLeaves(items, content, ticks[0]), ticks[1..], d - step, pos);
    }
  }

  /** No priority repository starves: any `n` consecutive scans that return, complete or cut
      short anywhere, poll each of the `n` repositories, whatever the cursor file held. */
  lemma NoStarvation(items: seq<string>, content: Option<string>, ticks: seq<Tick>, r: string)
    requires 0 < |items| <= U64_LIMIT && |ticks| >= |items| && r in items && AllReturn(items, ticks)
    ensures r in PolledBy(items, content, ticks)
  {
    var p :| 0 <= p < |items| && items[p] == r;
    PolledWithin(items, content, ticks, Distance(Offset(content, |items|), p, |items|), p);
  }

  /** Fewer scans may not do: if the budget always runs out on the first entry, `n - 1` scans
      poll only `n - 1` of `n` repositories. */
  lemma {:induction false} FewerScansMayStarve(items: seq<string>, content: Option<string>, ticks: seq<Tick>)
    requires items != [] && AllReturn(items, ticks)
    requires forall k :: 0 <= k < |ticks| ==> ticks[k].outcomes[0] == BudgetSpent
    ensures |PolledBy(items, content, ticks)| <= |ticks|
    decreases |ticks|
  {
    if ticks != [] {
      var read := TickPolls(items, content, ticks[0]);
      assert read == [read[0]];
      assert (set r | r in read) == {read[0]};
      FewerScansMayStarve(items, TickLeaves(items, content, ticks[0]), ticks[1..]);
    }
  }
}
