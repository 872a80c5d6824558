/** Memory sizes as text: the claim is kept in MiB, Podman is handed a string. */
module Memory {
  import opened Wrappers
  import opened Decimal
  import opened Text

  function ToAsciiLower(c: char): char {
    if 'A' <= c <= 'Z' then (c as int + 32) as char else c
  }

  function LowerAll(s: string): (r: string)
    ensures |r| == |s|
  {
    seq(|s|, i requires 0 <= i < |s| => ToAsciiLower(s[i]))
  }

  predicate IsAsciiAlphabetic(c: char) {
    'a' <= c <= 'z' || 'A' <= c <= 'Z'
  }

  /** Where the unit starts: the first ASCII letter, or the end of the text. */
  function UnitStart(s: string): (i: nat)
    ensures i <= |s|
    ensures forall k :: 0 <= k < i ==> !IsAsciiAlphabetic(s[k])
    ensures i < |s| ==> IsAsciiAlphabetic(s[i])
  {
    if s == [] || IsAsciiAlphabetic(s[0]) then 0 else 1 + UnitStart(s[1..])
  }

  function SaturatingMul(a: nat, b: nat): nat {
    if a * b < U64_LIMIT then a * b else U64_LIMIT - 1
  }

  function Scale(n: nat, mibUnit: string): Option<nat> {
    if mibUnit in {"", "m", "mb", "mi"} then Some(n)
    else if mibUnit in {"g", "gb", "gi"} then Some(SaturatingMul(n, 1024))
    else if mibUnit in {"k", "kb", "ki"} then Some(if n / 1024 > 1 then n / 1024 else 1)
    else if mibUnit in {"t", "tb", "ti"} then Some(SaturatingMul(n, 1024 * 1024))
    else if mibUnit == "b" then Some(1)
    else None
  }

  function ParseMemoryMib(text: string): Option<nat> {
    var s := LowerAll(Trim(text));
    if s == [] then None
    else
      var i := UnitStart(s);
      match ParseU64(s[..i])
      case None => None
      case Some(n) => if n == 0 then None else Scale(n, s[i..])
  }

  function FormatMemoryMib(m: nat): string {
    if m >= 1024 && m % 1024 == 0 then Print(m / 1024) + "g" else Print(m) + "m"
  }

  /** A numeral followed by a one-letter lower-case unit is read back as that number in that unit. */
  lemma ParseOfNumeral(n: nat, mibUnit: char)
    requires n < U64_LIMIT && 'a' <= mibUnit <= 'z'
    ensures ParseMemoryMib(Print(n) + [mibUnit]) == if n == 0 then None else Scale(n, [mibUnit])
  {
    var digits := Print(n);
    var s := digits + [mibUnit];
    assert digits[0] in digits;
    assert TrimStart(s) == s && TrimEnd(s) == s;
    assert forall k :: 0 <= k < |digits| ==> digits[k] in digits;
    assert LowerAll(s) == s;
    var i := UnitStart(s);
    assert IsAsciiAlphabetic(s[|digits|]);
    assert forall k :: 0 <= k < |digits| ==> !IsAsciiAlphabetic(s[k]);
    assert i == |digits|;
    assert s[..i] == digits && s[i..] == [mibUnit];
    ParseU64OfPrint(n);
  }

  /** The string handed to Podman denotes exactly the MiB claimed; only 0 is refused. */
  lemma MemoryRoundTrip(m: nat)
    requires m < U64_LIMIT
    ensures ParseMemoryMib(FormatMemoryMib(m)) == if m == 0 then None else Some(m)
  {
    if m >= 1024 && m % 1024 == 0 {
      ParseOfNumeral(m / 1024, 'g');
      assert "g" == ['g'];
    } else {
      ParseOfNumeral(m, 'm');
      assert "m" == ['m'];
    }
  }
}
