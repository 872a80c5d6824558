/** The claims that several listen managers share: CPU, memory and worker count under fixed caps.
    Every operation runs under the pool's lock, so each is one atomic step. CPU figures are
    exact reals; memory is in whole MiB. */
module Pool {
  import opened Wrappers
  import opened Decimal

  datatype SizeTier = Micro | Small | Medium | Large | Xlarge | Gpu

  datatype Claim = Claim(
    workerId: string,
    container: string,
    cpus: real,
    mib: nat,
    tier: SizeTier,
    repo: Option<string>,
    claimedAt: nat)

  datatype Caps = Caps(maxCpus: real, maxMib: nat, maxWorkers: nat)

  /** The tolerance of every CPU comparison. */
  const SLACK: real := 0.000000001

  function CpusOf(claims: seq<Claim>): real {
    if claims == [] then 0.0 else claims[0].cpus + CpusOf(claims[1..])
  }

  function MibOf(claims: seq<Claim>): nat {
    if claims == [] then 0 else claims[0].mib + MibOf(claims[1..])
  }

  /** `retain(|c| c.worker_id != worker)`. */
  function WithoutWorker(claims: seq<Claim>, worker: string): seq<Claim> {
    if claims == [] then []
    else if claims[0].workerId == worker then WithoutWorker(claims[1..], worker)
    else [claims[0]] + WithoutWorker(claims[1..], worker)
  }

  /** `retain(|c| c.container != container)`. */
  function WithoutContainer(claims: seq<Claim>, container: string): seq<Claim> {
    if claims == [] then []
    else if claims[0].container == container then WithoutContainer(claims[1..], container)
    else [claims[0]] + WithoutContainer(claims[1..], container)
  }

  /** Addition of 64-bit unsigned numbers, stopping at the largest one. */
  function SaturatingAdd(a: nat, b: nat): nat {
    if a + b < U64_LIMIT then a + b else U64_LIMIT - 1
  }

  /** The three caps that a claim of this size has to meet beside `others`. */
  predicate Fits(others: seq<Claim>, cpus: real, mib: nat, caps: Caps) {
    && |others| < caps.maxWorkers
    && CpusOf(others) + cpus <= caps.maxCpus + SLACK
    && SaturatingAdd(MibOf(others), mib) <= caps.maxMib
  }

  /** The claims after `try_claim`. The worker's earlier claim is dropped before the caps are
      tested, and stays dropped when the new claim is refused. */
  function AfterTryClaim(claims: seq<Claim>, c: Claim, caps: Caps): seq<Claim> {
    var others := WithoutWorker(claims, c.workerId);
    if Fits(others, c.cpus, c.mib, caps) then others + [c] else others
  }

  class ResourcePool {
    var claims: seq<Claim>
    const caps: Caps

    constructor (caps: Caps)
      ensures this.caps == caps && claims == []
    {
      this.caps := caps;
      claims := [];
    }

    method Usage() returns (cpus: real, mib: nat, count: nat)
      ensures cpus == CpusOf(claims) && mib == MibOf(claims) && count == |claims|
    {
      cpus, mib, count := 0.0, 0, 0;
      while count < |claims|
        invariant count <= |claims|
        invariant cpus + CpusOf(claims[count..]) == CpusOf(claims)
        invariant mib + MibOf(claims[count..]) == MibOf(claims)
      {
        assert claims[count..][1..] == claims[count + 1..];
        cpus, mib := cpus + claims[count].cpus, mib + claims[count].mib;
        count := count + 1;
      }
    }

    /** `ok` exactly when the claim fits beside the claims of the other workers. */
    method TryClaim(c: Claim) returns (ok: bool)
      modifies this
      ensures claims == AfterTryClaim(old(claims), c, caps)
      ensures ok <==> Fits(WithoutWorker(old(claims), c.workerId), c.cpus, c.mib, caps)
      ensures ok ==> c in claims
    {
      claims := WithoutWorker(claims, c.workerId);
      var usedCpus, usedMib, count := Usage();
      if count >= caps.maxWorkers {
        return false;
      }
      if usedCpus + c.cpus > caps.maxCpus + SLACK {
        return false;
      }
      if SaturatingAdd(usedMib, c.mib) > caps.maxMib {
        return false;
      }
      claims := claims + [c];
      ok := true;
    }

    method Release(worker: string)
      modifies this
      ensures claims == WithoutWorker(old(claims), worker)
      ensures Subsequence(claims, old(claims))
      ensures forall c :: c in claims <==> c in old(claims) && c.workerId != worker
    {
      WithoutWorkerMeans(claims, worker);
      claims := WithoutWorker(claims, worker);
    }

    method ReleaseContainer(container: string)
      modifies this
      ensures claims == WithoutContainer(old(claims), container)
      ensures Subsequence(claims, old(claims))
      ensures forall c :: c in claims <==> c in old(claims) && c.container != container
    {
      WithoutContainerMeans(claims, container);
      claims := WithoutContainer(claims, container);
    }

    method Claims() returns (r: seq<Claim>)
      ensures r == claims
    {
      r := claims;
    }
  }

  // ---------------------------------------------------------------------------
  // What the operations keep
  // ---------------------------------------------------------------------------

  ghost predicate UniqueWorkers(claims: seq<Claim>) {
    forall i, j :: 0 <= i < j < |claims| ==> claims[i].workerId != claims[j].workerId
  }

  ghost predicate Positive(claims: seq<Claim>) {
    forall c :: c in claims ==> c.cpus > 0.0 && c.mib > 0
  }

  predicate WithinCaps(claims: seq<Claim>, caps: Caps) {
    && CpusOf(claims) <= caps.maxCpus + SLACK
    && MibOf(claims) <= caps.maxMib
    && |claims| <= caps.maxWorkers
  }

  ghost predicate Sound(claims: seq<Claim>, caps: Caps) {
    UniqueWorkers(claims) && Positive(claims) && WithinCaps(claims, caps)
  }

  /** `part` keeps some of `all`, in order and without repeating one. */
  ghost predicate Subsequence(part: seq<Claim>, all: seq<Claim>) {
    if part == [] then true
    else if all == [] then false
    else if part[0] == all[0] then Subsequence(part[1..], all[1..]) || Subsequence(part, all[1..])
    else Subsequence(part, all[1..])
  }

  lemma IndexOf(claims: seq<Claim>, c: Claim) returns (i: nat)
    requires c in claims
    ensures i < |claims| && claims[i] == c
  {
    i :| 0 <= i < |claims| && claims[i] == c;
  }

  lemma {:induction false} WithoutWorkerMeans(claims: seq<Claim>, worker: string)
    ensures var r := WithoutWorker(claims, worker);
            && Subsequence(r, claims)
            && forall c :: c in r <==> c in claims && c.workerId != worker
  {
    if claims != [] {
      WithoutWorkerMeans(claims[1..], worker);
      assert claims == [claims[0]] + claims[1..];
    }
  }

  lemma {:induction false} WithoutContainerMeans(claims: seq<Claim>, container: string)
    ensures var r := WithoutContainer(claims, container);
            && Subsequence(r, claims)
            && forall c :: c in r <==> c in claims && c.container != container
  {
    if claims != [] {
      WithoutContainerMeans(claims[1..], container);
      assert claims == [claims[0]] + claims[1..];
    }
  }

  /** Dropping claims breaks nothing. */
  lemma {:induction false} SubsequenceKeepsSound(part: seq<Claim>, all: seq<Claim>, caps: Caps)
    requires Subsequence(part, all) && UniqueWorkers(all) && Positive(all)
    ensures UniqueWorkers(part) && Positive(part)
    ensures CpusOf(part) <= CpusOf(all) && MibOf(part) <= MibOf(all) && |part| <= |all|
    ensures forall c :: c in part ==> c in all
  {
    if part == [] {
      CpusNonnegative(all);
    } else {
      assert Positive(all[1..]) by {
        forall c | c in all[1..] ensures c in all {}
      }
      assert UniqueWorkers(all[1..]);
      if part[0] == all[0] && Subsequence(part[1..], all[1..]) {
        SubsequenceKeepsSound(part[1..], all[1..], caps);
        assert part == [part[0]] + part[1..];
        forall i, j | 0 <= i < j < |part| ensures part[i].workerId != part[j].workerId {
          assert part[j] == part[1..][j - 1];
          if i == 0 {
            var k := IndexOf(all[1..], part[1..][j - 1]);
            assert all[k + 1] == part[j];
          } else {
            assert part[i] == part[1..][i - 1];
          }
        }
      } else {
        SubsequenceKeepsSound(part, all[1..], caps);
      }
    }
  }

  lemma {:induction false} CpusNonnegative(claims: seq<Claim>)
    requires Positive(claims)
    ensures CpusOf(claims) >= 0.0
  {
    if claims != [] {
      CpusNonnegative(claims[1..]);
    }
  }

  lemma {:induction false} SumsOfAppend(claims: seq<Claim>, c: Claim)
    ensures CpusOf(claims + [c]) == CpusOf(claims) + c.cpus
    ensures MibOf(claims + [c]) == MibOf(claims) + c.mib
  {
    if claims != [] {
      SumsOfAppend(claims[1..], c);
      assert (claims + [c])[1..] == claims[1..] + [c];
    }
  }

  lemma ReleaseKeepsSound(claims: seq<Claim>, worker: string, caps: Caps)
    requires Sound(claims, caps)
    ensures Sound(WithoutWorker(claims, worker), caps)
  {
    WithoutWorkerMeans(claims, worker);
    SubsequenceKeepsSound(WithoutWorker(claims, worker), claims, caps);
  }

  lemma ReleaseContainerKeepsSound(claims: seq<Claim>, container: string, caps: Caps)
    requires Sound(claims, caps)
    ensures Sound(WithoutContainer(claims, container), caps)
  {
    WithoutContainerMeans(claims, container);
    SubsequenceKeepsSound(WithoutContainer(claims, container), claims, caps);
  }

  /** Whatever was claimed before and however large the request: after `try_claim` the worker
      ids are unique and the caps hold, and only claims of this worker have changed. */
  lemma TryClaimKeepsSound(claims: seq<Claim>, c: Claim, caps: Caps)
    requires Sound(claims, caps) && c.cpus > 0.0 && c.mib > 0 && caps.maxMib < U64_LIMIT - 1
    ensures Sound(AfterTryClaim(claims, c, caps), caps)
    ensures forall d: Claim :: d.workerId != c.workerId ==> (d in AfterTryClaim(claims, c, caps) <==> d in claims)
    ensures forall d: Claim :: d.workerId == c.workerId && d in AfterTryClaim(claims, c, caps) ==> d == c
  {
    var others := WithoutWorker(claims, c.workerId);
    WithoutWorkerMeans(claims, c.workerId);
    ReleaseKeepsSound(claims, c.workerId, caps);
    SumsOfAppend(others, c);
    assert forall k :: 0 <= k < |others| ==> others[k] in others;
  }

  /** The bound on the cap is needed: the saturated sum never exceeds the largest 64-bit number,
      so with that as the cap two claims may hold more memory together. */
  lemma LargestCapIsNoCap(caps: Caps) returns (claims: seq<Claim>, c: Claim)
    requires caps.maxMib == U64_LIMIT - 1 && caps.maxCpus >= 0.0 && caps.maxWorkers >= 2
    ensures Sound(claims, caps) && c.cpus > 0.0 && 0 < c.mib < U64_LIMIT
    ensures MibOf(AfterTryClaim(claims, c, caps)) > caps.maxMib
  {
    var first := Claim("a", "a", SLACK / 2.0, U64_LIMIT - 1, Micro, None, 0);
    c := Claim("b", "b", SLACK / 2.0, 1, Micro, None, 0);
    claims := [first];
    assert WithoutWorker(claims, "b") == claims by {
      NothingToDrop(claims, "b");
    }
    SumsOfAppend(claims, c);
    assert CpusOf(claims) == SLACK / 2.0 && MibOf(claims) == U64_LIMIT - 1;
  }

  /** Every granted claim leaves the claims sound. */
  ghost predicate ClaimsStaySound(caps: Caps) {
    forall claims, c: Claim :: Sound(claims, caps) && c.cpus > 0.0 && 0 < c.mib < U64_LIMIT ==>
      Sound(AfterTryClaim(claims, c, caps), caps)
  }

  /** Beside no other claim even the largest cap binds, because nothing is added up. */
  lemma SingleWorkerIsSafe(claims: seq<Claim>, c: Claim, caps: Caps)
    requires Sound(claims, caps) && c.cpus > 0.0 && 0 < c.mib < U64_LIMIT && caps.maxWorkers <= 1
    ensures Sound(AfterTryClaim(claims, c, caps), caps)
  {
    var others := WithoutWorker(claims, c.workerId);
    ReleaseKeepsSound(claims, c.workerId, caps);
    if Fits(others, c.cpus, c.mib, caps) {
      assert others == [];
      SumsOfAppend(others, c);
    }
  }

  /** The caps bind for all claims of 64-bit sizes exactly when the memory cap is not the largest
      64-bit number, or the pool has room for one worker at most. */
  lemma CapsBindIff(caps: Caps)
    requires caps.maxMib < U64_LIMIT && caps.maxCpus >= 0.0
    ensures ClaimsStaySound(caps) <==> caps.maxMib < U64_LIMIT - 1 || caps.maxWorkers <= 1
  {
    if caps.maxMib < U64_LIMIT - 1 || caps.maxWorkers <= 1 {
      forall claims, c: Claim | Sound(claims, caps) && c.cpus > 0.0 && 0 < c.mib < U64_LIMIT
        ensures Sound(AfterTryClaim(claims, c, caps), caps)
      {
        if caps.maxWorkers <= 1 {
          SingleWorkerIsSafe(claims, c, caps);
        } else {
          TryClaimKeepsSound(claims, c, caps);
        }
      }
    } else {
      var claims, c := LargestCapIsNoCap(caps);
      assert !Sound(AfterTryClaim(claims, c, caps), caps);
    }
  }

  /** A refused claim is not free of effect: the worker's earlier claim is gone. */
  lemma RefusalDropsEarlierClaim(claims: seq<Claim>, c: Claim, caps: Caps)
    requires !Fits(WithoutWorker(claims, c.workerId), c.cpus, c.mib, caps)
    ensures AfterTryClaim(claims, c, caps) == claims <==> forall d :: d in claims ==> d.workerId != c.workerId
  {
    WithoutWorkerMeans(claims, c.workerId);
    if forall d :: d in claims ==> d.workerId != c.workerId {
      NothingToDrop(claims, c.workerId);
    }
  }

  lemma {:induction false} NothingToDrop(claims: seq<Claim>, worker: string)
    requires forall d :: d in claims ==> d.workerId != worker
    ensures WithoutWorker(claims, worker) == claims
  {
    if claims != [] {
      NothingToDrop(claims[1..], worker);
    }
  }

  /** Of any list of distinct claims that are all held, the sizes stay within the caps. */
  lemma {:induction false} HeldWithinTotals(part: seq<Claim>, claims: seq<Claim>)
    requires forall c :: c in part ==> c in claims
    requires UniqueWorkers(part) && Positive(claims)
    ensures CpusOf(part) <= CpusOf(claims) && MibOf(part) <= MibOf(claims) && |part| <= |claims|
    decreases |part|
  {
    if part == [] {
      CpusNonnegative(claims);
    } else {
      var i := IndexOf(claims, part[0]);
      var rest := claims[..i] + claims[i + 1..];
      SumsOfRemove(claims, i);
      forall c | c in part[1..] ensures c in rest {
        var j := IndexOf(part[1..], c);
        assert part[j + 1] == c;
        var k := IndexOf(claims, c);
        assert k != i;
        assert if k < i then rest[k] == c else rest[k - 1] == c;
      }
      HeldWithinTotals(part[1..], rest);
    }
  }

  lemma DistinctContainers(part: seq<Claim>, claims: seq<Claim>)
    requires UniqueWorkers(claims) && forall k :: 0 <= k < |part| ==> part[k] in claims
    requires forall i, j :: 0 <= i < j < |part| ==> part[i].container != part[j].container
    ensures UniqueWorkers(part)
  {
    forall i, j | 0 <= i < j < |part| ensures part[i].workerId != part[j].workerId {
      var p := IndexOf(claims, part[i]);
      var q := IndexOf(claims, part[j]);
      assert p != q;
    }
  }

  lemma {:induction false} SumsOfRemove(claims: seq<Claim>, i: nat)
    requires i < |claims|
    ensures CpusOf(claims[..i] + claims[i + 1..]) == CpusOf(claims) - claims[i].cpus
    ensures MibOf(claims[..i] + claims[i + 1..]) == MibOf(claims) - claims[i].mib
  {
    if i == 0 {
      assert claims[..0] + claims[1..] == claims[1..];
    } else {
      SumsOfRemove(claims[1..], i - 1);
      var rest := claims[..i] + claims[i + 1..];
      assert rest[1..] == claims[1..][..i - 1] + claims[1..][i..];
    }
  }
}
