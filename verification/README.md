# Verified model of gha-runner-ctl

gha-runner-ctl keeps a fleet of ephemeral GitHub Actions runners. Several listen managers on one
host poll repositories for queued jobs, plan which worker containers to start and which to tear
down, and share one pool of CPU, memory and worker slots. Around that loop it paces its API calls
and registrations, rotates fairly through repositories, and redacts credentials from everything it
logs. This project models that logic in Dafny and proves what it guarantees.

`dafny verify dfyconfig.toml` checks the whole project.

## The parts

- **Planner** (`Planner`, `PlannerLaws`, `Convergence`): the scale decision of one tick, with the
  packing loop as a method proved against a function. The size of a job is an arbitrary function to
  a positive CPU share and a positive number of MiB, so every result holds for any size table. The
  1e-9 slack of each comparison is kept. `Convergence` follows ticks over time: need drops by
  exactly what was started until it is met or capacity is out.
- **Pool and fleet** (`Pool`, `Names`, `Fleet`, `FleetNames`): the claims as a class, and any number
  of managers as a transition system whose steps are the critical sections and container operations
  of the listen loop. The safety theorem covers every interleaving.
- **Fairness and pacing** (`RoundRobin`, `PriorityScan`, `Sweep`, `FailedPolls`, `Polling`, `RegPace`,
  `RegPaceLimits`, `Pacing`): the persisted cursors, the idle gate, the registration budget and the
  API pacer, each as a class with the fields of the original and as a transition system over whole
  runs.
- **Formats** (`Calendar`, `Rfc3339`, `Decimal`, `Memory`, `Base64`): day numbers under truncating
  division, the timestamp printer and parser, memory sizes, and base64 against a reference that
  regroups one stream of bits.
- **Redaction** (`Redact`, `MarkerTable`, `Bearer`, `RedactFreeText`, `RedactUnchanged`, `Classify`):
  find-and-replace loops over a changing text, in five marker passes with fourteen prefixes, a bearer
  pass and a word pass; which texts come out as they went in; and the classifier of single values.
- **Helpers**: `Wrappers`, `Arithmetic`, `Text`.

Some statements that the code's own documentation makes hold only under a condition. Each is
stated with its exact condition, for all inputs or all runs:

- A timestamp survives printing and parsing if and only if it is below 2^63 (`Rfc3339.RoundTrip`);
  above that the cast to a signed number wraps.
- `redact_free_text` returns if and only if the text is a PEM block or no bearer token that it
  takes, counted in bytes from the marker, ends inside a character (`RedactFreeText.ReturnsIff`).
  Whitespace before the token is skipped to find it but not to place its end, so some non-ASCII
  texts make the range panic (`Bearer.BearerCanPanic`); every ASCII text is fine.
- A bearer token that is redacted goes whole if and only if no whitespace stands before it beyond the
  space of the marker. Otherwise as many bytes stay behind the placeholder as that whitespace has
  (`Bearer.TokenRemnant`): `"Bearer "`, eight spaces and an eight-letter token keep the whole token.
- When the idle gate opens, each repository was selected by a poll of the current empty streak that
  returned. Over all runs, failed polls included, this holds if and only if every poll selects all
  repositories (`FailedPolls.GateHoldsIff`): a failed poll moves the cursor without counting. On a
  run in which no poll has failed since the last one that found jobs, it holds for any width
  (`Sweep.ExpiryMeansSweptAndIdle`). Selected repositories are also read to the end if the request
  budget of a poll allows five requests for each repository scanned (`Polling.ExpiryMeansPolled`); no
  smaller budget is enough for every way the requests may go (`Polling.BudgetCoversIff`).
- The registration budget and gap are documented as host-wide, but check and record are two
  critical sections. With N callers, the most that any hour sees in any run is exactly
  min(N*ceil(3600/min_gap), max_hour+N-1) (`RegPaceLimits.WorstHourHolds`,
  `RegPaceLimits.WorstHourIsReached`). So the budget is kept if and only if N = 1 or
  N*ceil(3600/min_gap) <= max_hour (`RegPaceLimits.BudgetKeptIff`), and the gap if and only if
  N = 1 (`RegPaceLimits.GapKeptIff`).
- Every running container holds a claim of its own size, in all interleavings, if and only if the
  managers' runner names differ and no container name is a prefix of another
  (`FleetNames.SafeIffGoodNames`).
- The pool's caps bind if and only if the memory cap is not the largest 64-bit number, which a
  saturating sum never exceeds, or the pool has room for at most one worker (`Pool.CapsBindIff`).
- `redact_free_text` returns a text as it is if and only if the text is no PEM block, contains no
  credential of the fourteen prefixes, every bearer token taken is the placeholder already, and no
  word is flagged (`RedactUnchanged.UnchangedIff`).

## Model

| member | source | states |
|---|---|---|
| Fleet.FleetIsSafe | src/lib.rs:5234-5323 | in every interleaving of any number of managers, with stale usage figures, failures and crashes: worker ids are unique, claims stay within max_cpus+1e-9, max_memory_mib and max_workers, and each running container holds a claim of its own CPU and of exactly the MiB that its memory text denotes |
| Fleet.StepKeepsInv | src/lib.rs:4977-5010 | each step of a manager (plan, reap, scale-in, release, claim, live-fit claim, up, failed up, skip, exit, crash) keeps that invariant |
| Fleet.RunningWithinCaps | src/lib.rs:5256-5277 | however the running containers are listed, what they were started with stays within the caps |
| Fleet.PrefixMeansOwn | src/lib.rs:5326-5354 | the test that a container's name starts with the base name accepts only a manager's own workers, when base names are no prefixes of each other |
| FleetNames.SafeIffGoodNames | src/lib.rs:4977-5010 | every running container holds its claim in every reachable state exactly when runner names differ and no container name is a prefix of another, for any caps with room for the smallest worker |
| FleetNames.PrefixBreaksSafety | src/lib.rs:4983-5005 | otherwise a manager may reap another's fresh claim between its claim and its up, and the container runs without one |
| FleetNames.SameRunnerBreaksSafety | src/lib.rs:5253-5266 | with one runner name for two managers, the second claim replaces the first, whose container is up |
| Fleet.FailedDownBreaksSafety | src/lib.rs:4998-5005 | releasing the claim of a container that is still up leaves it running without any claim; so safety rests on taking it down first |
| Pool.ResourcePool.TryClaim | src/pool.rs:513-551 | the claim is granted exactly when it meets all three caps beside the other workers' claims; the new state in both outcomes |
| Pool.ResourcePool.Release | src/pool.rs:553-558 | exactly the worker's claims are gone; all others stay, in order |
| Pool.ResourcePool.ReleaseContainer | src/pool.rs:560-565 | exactly the container's claims are gone; all others stay, in order |
| Pool.ResourcePool.Usage | src/pool.rs:505-511 | the sums of CPU and memory over all claims, and their number |
| Pool.TryClaimKeepsSound | src/pool.rs:523-551 | whatever is requested, worker ids stay unique and all caps hold afterwards, and only this worker's claims change |
| Pool.LargestCapIsNoCap | src/pool.rs:533-535 | with the largest 64-bit number as the cap, two claims are granted that hold more memory together, because the sum saturates |
| Pool.CapsBindIff | src/pool.rs:523-551 | with a CPU cap of at least 0, every claim of a 64-bit size leaves the caps met exactly when the memory cap is below the largest 64-bit number or at most one worker is allowed |
| Pool.RefusalDropsEarlierClaim | src/pool.rs:522-534 | a refused claim changes nothing exactly when the worker held no earlier claim |
| Pool.ReleaseKeepsSound | src/pool.rs:553-558 | releasing keeps unique ids and the caps |
| Planner.PlanScale | src/pool.rs:904-1193 | the method computes the planning function, branch by branch |
| Planner.PackQueue | src/pool.rs:1092-1133 | the packing loop, with its mutable budget, slots, plan and deferred list, computes the packing function |
| Planner.FitToBudget | src/pool.rs:635-653 | the shrunk size is at least the floor and at most what is free; refused exactly when the floor does not fit; unchanged when it fits whole |
| PlannerLaws.SlotsAreFresh | src/pool.rs:1050-1108 | planned slots are distinct, below max_local_workers and not held by any known worker; host and local counts stay in bounds |
| PlannerLaws.PackSlots | src/pool.rs:1100-1108 | the loop never stops for want of a slot while its budget lasts |
| PlannerLaws.PackingIsConservative | src/pool.rs:1092-1168 | planned memory plus leftover is exactly the free memory; planned CPU plus leftover is at least max(free,0) and at most that plus 1e-9 per spawn |
| PlannerLaws.PackingIsMaximal | src/pool.rs:1096-1168 | planned jobs are a subsequence of the queue at preferred size, or one shrunk first job when none fits whole; below the spawn budget no job left out fits the remainder |
| PlannerLaws.ReclaimedExactly | src/pool.rs:916-972 | exactly the running, not busy workers that are past the grace window or signalled completion are torn down, when mode and demand allow it |
| PlannerLaws.ReclaimIsSafe | src/pool.rs:991-1068 | with unique ids, no busy worker, none in its grace window or of unknown age, none not yet running and none that covers demand is torn down |
| PlannerLaws.NeverOverSpawns | src/pool.rs:1055-1090 | covering workers plus planned ones never exceed the larger of covering and desired |
| PlannerLaws.SpawnsWhenItCan | src/pool.rs:1058-1168 | with need, a free slot and the floor of the budget, at least one worker is planned |
| PlannerLaws.ReclaimsWhenItCannot | src/pool.rs:1063-1088 | without them, every worker that may be reclaimed is, and nothing is planned |
| Convergence.TickReducesNeed | src/pool.rs:1009-1056 | from one tick to the next on the same queue, the need drops by exactly the number of workers started |
| Convergence.RunConservesNeed | src/pool.rs:904-1193 | over any run, workers started and need left add up to the need at the start |
| Convergence.RunMeetsDemand | src/pool.rs:904-1193 | within as many ticks as workers were needed, the need is met or some tick lacks capacity |
| PriorityScan.PriorityCursor.ListDemand | src/lib.rs:4824-4905 | one scan: which priority repositories it has read and what is left in the cursor file, also when the list is empty; an error leaves the file alone |
| PriorityScan.ScanEntries | src/lib.rs:4836-4899 | the loop over the entries with its two early exits computes the scan function |
| PriorityScan.ScanReads | src/lib.rs:4840-4905 | a complete scan has read every priority repository to the end; a scan cut short has read to the end all entries by which the cursor moves on, unless it stopped at the first |
| PriorityScan.NoStarvation | src/lib.rs:4390-4416 | any n consecutive scans that return reach each of n repositories, from any cursor contents: each is read to the end, or stands first in a scan that spends its whole budget on it |
| PriorityScan.FewerScansMayStarve | src/lib.rs:4410-4416 | k scans may poll no more than k repositories, so n are needed |
| RoundRobin.OffsetOfPrinted | src/lib.rs:4395-4415 | a written cursor is read back as the same position |
| Sweep.RepoCursor.SelectReposForTick | src/lib.rs:4419-4442 | the repositories of a tick and the cursor left behind |
| Sweep.SweepSelectsAll | src/pool.rs:772-779 | over that many consecutive ticks every repository is selected, wherever the cursor stood |
| Sweep.ShorterSweepMisses | src/pool.rs:759-779 | with one tick fewer some repository of a list of distinct ones is left out |
| Sweep.IdleGate.Observe | src/lib.rs:5603-5625 | the streak counter and the idle clock, and when the idle time has expired |
| Sweep.ExpiryMeansSweptAndIdle | src/lib.rs:5481-5494 | if no poll has failed since the last one that found jobs, expiry means that a sweep of returning, empty polls selected every repository, that all polls since returned empty, and that idle_secs have passed since |
| Polling.ScanReadsAll | src/lib.rs:4836-4899 | a scan that returns within its request budget and with fewer jobs than asked for has read every entry to the end |
| Polling.BudgetCoversIff | src/lib.rs:2451-2475 | a budget of requests is enough for n repositories, however their polls go, exactly when it allows five for each |
| Polling.ExpiryMeansPolled | src/lib.rs:5481-5494 | with such a budget and no failed poll since the last one that found jobs, expiry means that every repository was read to the end by a poll, and that this poll and all since returned empty |
| FailedPolls.FailedPollHidesRepo | src/lib.rs:5564-5578 | for any list and any smaller width there is a run with failed polls in which the gate opens although no poll that returned ever selected some repository |
| FailedPolls.GateHoldsIff | src/lib.rs:5603-5625 | on every run, failed polls included, expiry implies that each repository was selected by a returning poll of the empty streak, exactly when the width is at least the number of repositories |
| RegPace.RegPaceState.PaceRegistration | src/lib.rs:2701-2729 | the budget check: over the hourly budget, too soon, or pass |
| RegPace.RegPaceState.CommitRegistrationSlot | src/lib.rs:2773-2790 | the record keeps the last hour and adds this registration |
| RegPace.HourlyBound | src/lib.rs:2679-2742 | with N callers in any interleaving, every 3600 s window holds at most max_hour+N-1 recorded registrations |
| RegPaceLimits.WorstHourHolds | src/lib.rs:2679-2742 | no run of N callers sees more than min(N*ceil(3600/min_gap), max_hour+N-1) recorded registrations in any hour |
| RegPaceLimits.WorstHourIsReached | src/lib.rs:2729-2790 | some run sees exactly as many |
| RegPaceLimits.BoundIsTight | src/lib.rs:2729-2790 | max_hour+N-1 in an hour is reached exactly when it is at most N*ceil(3600/min_gap) |
| RegPaceLimits.ShortGapReachesBound | src/lib.rs:2680-2682 | it is reached whenever max_hour registrations of one caller fit into an hour |
| RegPaceLimits.BudgetKeptIff | src/lib.rs:2679-2742 | the hourly budget holds host-wide in every run exactly when there is one caller, or the gap alone keeps all callers within it |
| RegPaceLimits.GapKeptIff | src/lib.rs:2717-2790 | the gap holds host-wide in every run exactly when there is one caller |
| RegPace.SingleCallerKeepsGap | src/lib.rs:2717-2727 | a single caller's recorded registrations are at least min_gap apart |
| Pacing.ApiPacer.WaitTurn | src/lib.rs:2451-2475 | the time at which a call may go out, after cool-down, budget and gap, and the new state |
| Pacing.ApiPacer.NoteSuccess | src/lib.rs:2477-2499 | a low quota orders a cool-down and doubles the back-off |
| Pacing.ApiPacer.NoteRateLimited | src/lib.rs:2501-2518 | the cool-down ordered by a rate limit |
| Pacing.PacerIsSafe | src/lib.rs:2409-2518 | over any run: the budget per poll, the gap, no call in a cool-down, cool-downs of 5 to 900 s that are never cut short, back-off doubled per throttle up to 900 s |
| Pacing.CallRateBound | src/lib.rs:2466-2473 | any window of T sees at most T/min_gap+1 calls |
| Calendar.EraIsFloor | src/fail_closed.rs:266-268 | the correction before the truncating division makes it floor, for negative numbers too |
| Calendar.CivilOfDaysOf | src/appauth.rs:1235-1243 | every Gregorian date of any year survives the trip through day numbers |
| Calendar.DaysOfCivilOf | src/fail_closed.rs:266-278 | every day number names a valid date and survives the trip back |
| Calendar.NextDayIsOneMore | src/appauth.rs:1235-1243 | the calendar successor of a date is exactly one day number later |
| Calendar.EpochIsZero | src/appauth.rs:1233-1243 | 1970-01-01 is day 0 |
| Rfc3339.ParseOfFormat | src/fail_closed.rs:252-261 | what parsing gives back for every 64-bit input of the printer, the wrapped ones included |
| Rfc3339.RoundTrip | src/appauth.rs:1209-1231 | parsing the printed timestamp gives it back if and only if it is below 2^63 |
| Memory.MemoryRoundTrip | src/pool.rs:663-669 | the memory text denotes exactly the MiB it was printed from; only 0 is refused |
| Base64.Encode | src/appauth.rs:535-552 | the chunk loop emits the alphabet text of the 6-bit groups of the input's bit stream |
| Base64.Decode | src/appauth.rs:363-390 | the loop over an accumulator that is never cleared yields the octets of the 6-bit stream, or the first invalid character |
| Base64.DecodeOfEncoded | src/appauth.rs:363-390 | decoding recovers every byte string from its encoding in the standard alphabet, with whitespace and padding anywhere |
| Base64.EncodedLength | src/appauth.rs:535-552 | the length is the unpadded one of RFC 4648, and only alphabet characters occur |
| Base64.DecodeFailsIff | src/appauth.rs:364-382 | decoding fails exactly when a character that is not skipped lies outside the alphabet |
| Redact.MaximalRunLen | src/dump_redact.rs:643-660 | the counting loop measures the longest run of body characters up to the cap, or nothing below the minimum |
| Redact.RedactByMarker | src/dump_redact.rs:670-700 | the in-place loop, for all prefixes, computes the scan function, and ends although the text may grow |
| Redact.SkippedIsNoMatch | src/dump_redact.rs:692-697 | stepping over a whole prefix skips no credential, although a prefix may overlap itself |
| Redact.ScanCleans | src/dump_redact.rs:675-700 | after a pass nothing matches its prefix any more |
| Redact.ScanOnlyReplacesSpans | src/dump_redact.rs:684-694 | a pass does nothing but replace whole credentials (prefix and longest body) by the mark; all other text stays |
| MarkerTable.TableIsSound | src/dump_redact.rs:737-781 | each of the fourteen prefixes meets the conditions under which a pass is complete |
| RedactFreeText.PassChangesIffMatch | src/dump_redact.rs:670-700 | a pass changes the text exactly when it contains a credential, and is idempotent |
| Bearer.RedactBearer | src/dump_redact.rs:707-731 | the bearer loop computes the scan function; a range that ends inside a character is a panic |
| Bearer.TokenRemnant | src/dump_redact.rs:715-725 | unless the range ends inside a character, the bytes of whitespace and token that stay are as many as the whitespace has; the token goes whole exactly when nothing stands before it |
| Bearer.AsciiRemnant | src/dump_redact.rs:715-725 | on ASCII text, the last w characters of a token after w spaces stay, or all of it |
| Bearer.TurnLeavesRemnant | src/dump_redact.rs:715-725 | the text a turn leaves is the text before, the mark, that remnant and the text after the token, or the turn panics |
| Bearer.BearerReturnsIff | src/dump_redact.rs:715-725 | the loop returns exactly when every token it takes ends between two characters |
| Bearer.BearerCanPanic | src/dump_redact.rs:717-725 | a text on which it does not return |
| RedactFreeText.RedactRemainingWordShapes | src/dump_redact.rs:919-976 | the index loop computes the word-wise rewriting |
| RedactFreeText.WordStageKeepsPieces | src/dump_redact.rs:919-976 | whitespace runs and unflagged words are unchanged, each flagged word is one placeholder, and a second run changes nothing |
| RedactFreeText.OutputHasNoCredential | src/dump_redact.rs:631-637 | for every input text the result contains none of the fourteen prefixes followed by its least number of body characters |
| RedactFreeText.RedactFreeText | src/dump_redact.rs:631-637 | the method runs the stages in order and its result is free of credentials |
| RedactFreeText.ReturnsIff | src/dump_redact.rs:631-781 | the scan returns exactly when the text is a PEM block or, once the marker passes are done, every bearer token taken ends between two characters |
| RedactUnchanged.UnchangedIff | src/dump_redact.rs:631-637 | a text comes out exactly as it went in if and only if it is no PEM block, no prefix matches, every bearer token taken is the mark already, and no word is flagged |
| RedactFreeText.AsciiReturns | src/dump_redact.rs:631-781 | it returns on every ASCII text |
| Classify.BoundedIsPiece | src/dump_redact.rs:391-396 | splitting isolates whatever stands between delimiters or the ends of the value |
| Classify.EmbeddedCredentialIsUnsafe | src/dump_redact.rs:186-266 | a value with a GitHub token, fine-grained PAT or AWS key id between scan delimiters or its ends is classified safe exactly when it is a vault or file reference |

## Left out

- HTTP, Podman and every other subprocess, the command line, the wake server, package updates and JSON: their results (job lists, container liveness, response headers, the clock) are inputs.
- Fleet: `down` is taken to stop the container and a failed `up` to leave none running; `Fleet.FailedDownBreaksSafety` shows what the first is for. The `recover` command, which may release a claim between claim and up, is not a step of the model.
- Fleet: of the two readings behind a snapshot, the claims and the liveness of own containers, one has to be right; if the claims cannot be read and the test misses a running container, a plan may reuse its slot. All other figures of a snapshot may be stale or wrong.
- Fleet: the CPU figure of a running container is the claimed one; the two-decimal text that Podman gets for it is not modelled.
- Fleet: a reap or scale-in step may take down any of the manager's own claims, whether or not it is stale; that a busy worker is spared is stated for the plan only, because reaping by age does not look at it.
- The reclaim of stale lock files: each critical section is one atomic step.
- Float rounding: CPU figures are exact reals.
- Integer widths: counts, sizes and clocks are unbounded, except where the code saturates, wraps or casts and the values can get there (the memory sums, the streak counter, the timestamp cast, the base64 accumulator). The 64-bit calendar arithmetic does not overflow in the model, and lists are shorter than 2^32.
- PriorityScan.NoStarvation: the first entry of a scan is credited although its budget may run out before it is read to the end. Scans that return an error leave the cursor and are not counted.
- Sweep.ExpiryMeansSweptAndIdle: a selected repository may go unread when the API budget of that tick runs out before it, unless the budget is that of `Polling.ExpiryMeansPolled`; `FailedPolls` speaks of selected repositories only. A repository whose answer is an API error that the scan passes over counts as read, and jobs of another affinity count towards the job limit alone.
- RegPace.HourlyBound: recorded registrations only; the record is skipped when its lock is busy. The results on the gap take the clock to be past 0, which the record reads as none yet.
- The size table, tier keywords and the parsing of CPU figures: the size of a job is a parameter.
- Shannon entropy, JWT, host name, path, image and basic-auth tests: arbitrary predicates in `RedactFreeText` and `Classify`.
- Classify.EmbeddedCredentialIsUnsafe: of Slack tokens only those that end in a letter, a digit or an underscore, because the scan trims a final dash.
- Bearer.TokenRemnant: the source means the whole token to go; what stays when whitespace precedes it is stated as the code has it, and not cleaned up by a later stage unless the word tests flag it.
- What `parse_rfc3339_utc` rejects: it accepts 31 February and negative hours, so only the round trip is stated.
- Image and label resolution, the retain marker, the failure tracker, the token cache and string validators: tables and one-step checks.
