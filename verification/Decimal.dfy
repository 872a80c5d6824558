/** Decimal numerals as the original prints and parses them. */
module Decimal {
  import opened Wrappers

  const U64_LIMIT: int := 0x1_0000_0000_0000_0000
  const I64_LIMIT: int := 0x8000_0000_0000_0000

  predicate IsDigit(c: char) {
    '0' <= c <= '9'
  }

  predicate AllDigits(s: string) {
    forall c :: c in s ==> IsDigit(c)
  }

  function DigitValue(c: char): (d: nat)
    requires IsDigit(c)
    ensures d < 10
  {
    c as int - '0' as int
  }

  function Digit(d: nat): (c: char)
    requires d < 10
    ensures IsDigit(c) && DigitValue(c) == d
  {
    ('0' as int + d) as char
  }

  /** The shortest numeral of `n`. */
  function Print(n: nat): (s: string)
    ensures s != [] && AllDigits(s)
  {
    if n < 10 then [Digit(n)] else Print(n / 10) + [Digit(n % 10)]
  }

  function Value(s: string): nat
    requires AllDigits(s)
  {
    if s == [] then 0 else Value(s[..|s| - 1]) * 10 + DigitValue(s[|s| - 1])
  }

  lemma {:induction false} ValueOfPrint(n: nat)
    ensures Value(Print(n)) == n
  {
    var s := Print(n);
    if n >= 10 {
      assert s[..|s| - 1] == Print(n / 10);
      ValueOfPrint(n / 10);
    }
  }

  /** Distinct numbers print differently. */
  lemma PrintInjective(m: nat, n: nat)
    requires Print(m) == Print(n)
    ensures m == n
  {
    ValueOfPrint(m);
    ValueOfPrint(n);
  }

  /** `{:0w}` on a non-negative number. */
  function ZeroPad(s: string, width: nat): (r: string)
    requires AllDigits(s)
    ensures AllDigits(r) && |r| >= width && |r| >= |s|
    decreases width - |s|
  {
    if |s| >= width then s else ZeroPad(['0'] + s, width)
  }

  lemma {:induction false} LeadingZero(s: string)
    requires AllDigits(s)
    ensures Value(['0'] + s) == Value(s)
  {
    var z := ['0'] + s;
    if s == [] {
      assert z[..0] == [];
    } else {
      assert z[..|z| - 1] == ['0'] + s[..|s| - 1];
      LeadingZero(s[..|s| - 1]);
    }
  }

  lemma {:induction false} ValueOfZeroPad(s: string, width: nat)
    requires AllDigits(s)
    ensures Value(ZeroPad(s, width)) == Value(s)
    decreases width - |s|
  {
    if |s| < width {
      LeadingZero(s);
      ValueOfZeroPad(['0'] + s, width);
    }
  }

  /** `{:0w}` on a signed number: the sign counts toward the width and precedes the zeros. */
  function PrintPadded(n: int, width: nat): (s: string)
    ensures s != []
  {
    if n >= 0 then ZeroPad(Print(n), width)
    else ['-'] + ZeroPad(Print(-n), if width > 0 then width - 1 else 0)
  }

  function ParseDigits(s: string): Option<nat> {
    if s != [] && AllDigits(s) then Some(Value(s)) else None
  }

  /** `str::parse::<u64>`: an optional plus sign, at least one digit, no overflow. */
  function ParseU64(s: string): Option<nat> {
    match ParseDigits(if s != [] && s[0] == '+' then s[1..] else s)
    case Some(v) => if v < U64_LIMIT then Some(v) else None
    case None => None
  }

  /** `str::parse::<i64>`: an optional sign, at least one digit, no overflow. */
  function ParseI64(s: string): Option<int> {
    var negative := s != [] && s[0] == '-';
    match ParseDigits(if s != [] && s[0] in "+-" then s[1..] else s)
    case None => None
    case Some(v) =>
      var n := if negative then 0 - v else v;
      if -I64_LIMIT <= n < I64_LIMIT then Some(n) else None
  }

  lemma ParseI64OfPrintPadded(n: nat, width: nat)
    requires n < I64_LIMIT
    ensures ParseI64(PrintPadded(n, width)) == Some(n)
  {
    var s := PrintPadded(n, width);
    assert s[0] in s;
    ValueOfZeroPad(Print(n), width);
    ValueOfPrint(n);
  }

  lemma ParseU64OfPrint(n: nat)
    requires n < U64_LIMIT
    ensures ParseU64(Print(n)) == Some(n)
  {
    var s := Print(n);
    assert s[0] in s;
    ValueOfPrint(n);
  }
}
