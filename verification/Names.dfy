/** Names of pool workers and their containers: a base name, "-w", and the slot number. */
module Names {
  import opened Decimal

  function WorkerName(base: string, slot: nat): string {
    base + "-w" + Print(slot)
  }

  lemma WorkerNameInjective(base: string, i: nat, j: nat)
    requires WorkerName(base, i) == WorkerName(base, j)
    ensures i == j
  {
    var a, b := WorkerName(base, i), WorkerName(base, j);
    assert a[|base| + 2..] == Print(i) && b[|base| + 2..] == Print(j);
    PrintInjective(i, j);
  }

  /** The base of a name is what precedes the last dash. */
  lemma SameNameSameBase(a: string, b: string, i: nat, j: nat)
    requires WorkerName(a, i) == WorkerName(b, j) && |a| <= |b|
    ensures a == b
  {
    var x := WorkerName(a, i);
    if |a| < |b| {
      assert x[|b|] == '-';
      var k := |b| - |a| - 2;
      assert k >= 0 ==> Print(i)[k] == '-' && Print(i)[k] in Print(i);
    } else {
      assert a == x[..|a|] == b;
    }
  }

  predicate PrefixFree(a: string, b: string) {
    !(a <= b) && !(b <= a)
  }

  /** Workers of managers whose base names are no prefixes of each other differ. */
  lemma ForeignNamesDiffer(a: string, b: string, i: nat, j: nat)
    requires PrefixFree(a, b)
    ensures WorkerName(a, i) != WorkerName(b, j) && !(a <= WorkerName(b, j))
  {
    var x, y := WorkerName(a, i), WorkerName(b, j);
    assert a <= x && b <= y;
    if |a| <= |b| {
      assert b[..|a|] == y[..|a|];
    } else {
      assert b != a[..|b|];
      var k :| 0 <= k < |b| && a[k] != b[k];
      assert y[k] == b[k];
    }
  }
}
