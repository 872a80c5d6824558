/** Lists visited in rotation, from a position that is kept in a file. */
module RoundRobin {
  import opened Wrappers
  import opened Decimal
  import opened Text
  import opened Arithmetic

  /** The start position: a missing or unreadable file means 0, and any number is reduced. */
  function Offset(content: Option<string>, len: nat): (offset: nat)
    requires len > 0
    ensures offset < len
  {
    match content
    case None => 0
    case Some(text) => (match ParseU64(Trim(text)) case None => 0 case Some(n) => n) % len
  }

  lemma OffsetOfPrinted(n: nat, len: nat)
    requires n < len <= U64_LIMIT
    ensures Offset(Some(Print(n)), len) == n
  {
    var s := Print(n);
    assert s[0] in s && s[|s| - 1] in s;
    assert TrimStart(s) == s && TrimEnd(s) == s;
    ParseU64OfPrint(n);
    ModUnique(n, 0, len, n);
  }

  /** `take` items from `offset` on, around the end of the list. */
  function Window(items: seq<string>, offset: nat, take: nat): (w: seq<string>)
    requires items != []
    ensures |w| == take
  {
    seq(take, i => items[(offset + i) % |items|])
  }

  method BuildWindow(items: seq<string>, offset: nat, take: nat) returns (w: seq<string>)
    requires items != []
    ensures w == Window(items, offset, take)
  {
    w := [];
    for i := 0 to take
      invariant w == Window(items, offset, i)
    {
      w := w + [items[(offset + i) % |items|]];
    }
  }

  /** Position `pos` lies `d` places after `offset`, going around at `n`. */
  predicate IsAhead(offset: nat, d: nat, pos: nat, n: nat) {
    offset < n && d < n && pos < n && (offset + d == pos || offset + d == pos + n)
  }

  lemma AheadIsMod(offset: nat, d: nat, pos: nat, n: nat)
    requires IsAhead(offset, d, pos, n)
    ensures (offset + d) % n == pos
  {
    ModUnique(offset + d, if offset + d == pos then 0 else 1, n, pos);
  }

  function Distance(offset: nat, pos: nat, n: nat): (d: nat)
    requires offset < n && pos < n
    ensures IsAhead(offset, d, pos, n)
  {
    if pos >= offset then pos - offset else pos + n - offset
  }

  /** Moving on by `step` brings it that much nearer. */
  lemma AheadOfNext(offset: nat, step: nat, d: nat, pos: nat, n: nat)
    requires IsAhead(offset, d, pos, n) && step <= d
    ensures IsAhead((offset + step) % n, d - step, pos, n)
  {
    var wraps := offset + step >= n;
    ModUnique(offset + step, if wraps then 1 else 0, n, if wraps then offset + step - n else offset + step);
  }

  /** The item is in the window once the window is wide enough. */
  lemma InWindow(items: seq<string>, offset: nat, take: nat, d: nat, pos: nat)
    requires pos < |items| && IsAhead(offset, d, pos, |items|) && d < take
    ensures Window(items, offset, take)[d] == items[pos]
  {
    AheadIsMod(offset, d, pos, |items|);
  }
}
