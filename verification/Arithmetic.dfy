/** Bounded arithmetic and facts about division that several modules share. */
module Arithmetic {

  function Min(a: nat, b: nat): nat { if a < b then a else b }
  function Max(a: nat, b: nat): nat { if a < b then b else a }
  function MinReal(a: real, b: real): real { if a < b then a else b }
  function MaxReal(a: real, b: real): real { if a < b then b else a }
  function SaturatingSub(a: nat, b: nat): nat { if a > b then a - b else 0 }

  function Clamp(x: nat, low: nat, high: nat): nat
    requires low <= high
  {
    Max(low, Min(x, high))
  }

  /** `m` steps added up. */
  function Times(step: nat, m: nat): nat {
    if m == 0 then 0 else step + Times(step, m - 1)
  }

  lemma {:induction false} TimesIsProduct(step: nat, m: nat)
    ensures Times(step, m) == m * step
  {
    if m > 0 {
      TimesIsProduct(step, m - 1);
      assert m * step == (m - 1) * step + step;
    }
  }

  lemma MonotoneMul(a: int, b: int, k: int)
    requires a <= b && k > 0
    ensures a * k <= b * k
  {
  }

  lemma FloorUnique(x: int, q: int, length: int)
    requires length > 0 && q * length <= x < q * length + length
    ensures x / length == q
  {
    var p := x / length;
    if p < q {
      MonotoneMul(p + 1, q, length);
    } else if q < p {
      MonotoneMul(q + 1, p, length);
    }
  }

  lemma ModUnique(x: int, q: int, length: int, r: int)
    requires length > 0 && 0 <= r < length && x == q * length + r
    ensures x % length == r && x / length == q
  {
    FloorUnique(x, q, length);
  }

  /** Reducing modulo a multiple first changes nothing. */
  lemma ModOfMod(x: nat, m: nat, q: nat)
    requires m > 0 && q > 0
    ensures m * q > 0 && x % (m * q) % m == x % m
  {
    MonotoneMul(1, q, m);
    var k, r := x / (m * q), x % (m * q);
    var j, s := r / m, r % m;
    assert x == m * q * k + r && r == m * j + s;
    assert m * q * k == q * k * m;
    assert (q * k + j) * m == q * k * m + j * m;
    ModUnique(x, q * k + j, m, s);
  }
}
