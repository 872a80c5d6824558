/** String helpers of the original's standard library: trimming and splitting. */
module Text {
  import opened Wrappers

  /** `char::is_whitespace`: the Unicode White_Space property. */
  predicate IsWhitespace(c: char) {
    || '\U{0009}' <= c <= '\U{000D}' || c == ' ' || c == '\U{0085}' || c == '\U{00A0}' || c == '\U{1680}'
    || '\U{2000}' <= c <= '\U{200A}' || c == '\U{2028}' || c == '\U{2029}' || c == '\U{202F}'
    || c == '\U{205F}' || c == '\U{3000}'
  }

  function TrimStart(s: string): string {
    if s != [] && IsWhitespace(s[0]) then TrimStart(s[1..]) else s
  }

  function TrimEnd(s: string): string {
    if s != [] && IsWhitespace(s[|s| - 1]) then TrimEnd(s[..|s| - 1]) else s
  }

  function Trim(s: string): string {
    TrimEnd(TrimStart(s))
  }

  predicate StartsWith(s: string, prefix: string) {
    prefix <= s
  }

  function FirstIndex(s: string, c: char): (r: Option<nat>)
    ensures r.Some? ==> r.value < |s| && s[r.value] == c && c !in s[..r.value]
    ensures r.None? ==> c !in s
  {
    if s == [] then None
    else if s[0] == c then Some(0)
    else
      match FirstIndex(s[1..], c)
      case None => None
      case Some(i) => assert s[..i + 1] == [s[0]] + s[1..][..i]; Some(i + 1)
  }

  lemma FirstIndexAt(a: string, c: char, b: string)
    requires c !in a
    ensures FirstIndex(a + [c] + b, c) == Some(|a|)
  {
    var s := a + [c] + b;
    assert s[|a|] == c;
    assert forall i :: 0 <= i < |a| ==> s[i] == a[i];
  }

  /** `str::split(c)`: the pieces between the occurrences of `c`; never empty. */
  function Split(s: string, c: char): (parts: seq<string>)
    ensures parts != []
  {
    match FirstIndex(s, c)
    case None => [s]
    case Some(i) => [s[..i]] + Split(s[i + 1..], c)
  }

  lemma SplitAt(a: string, c: char, b: string)
    requires c !in a
    ensures Split(a + [c] + b, c) == [a] + Split(b, c)
  {
    FirstIndexAt(a, c, b);
    var s := a + [c] + b;
    assert s[..|a|] == a && s[|a| + 1..] == b;
  }

  lemma SplitNone(a: string, c: char)
    requires c !in a
    ensures Split(a, c) == [a]
  {
  }

  /** Bytes of a character in UTF-8. */
  function Utf8Length(c: char): (n: nat)
    ensures 1 <= n <= 4
  {
    if c < '\U{0080}' then 1 else if c < '\U{0800}' then 2 else if c < '\U{10000}' then 3 else 4
  }

  function ByteLength(s: string): nat {
    if s == [] then 0 else Utf8Length(s[0]) + ByteLength(s[1..])
  }

  /** The number of characters in the first `n` bytes; none when byte `n` is inside a character. */
  function CharsInBytes(s: string, n: nat): (r: Option<nat>)
    ensures r.Some? ==> r.value <= |s|
  {
    if n == 0 then Some(0)
    else if s == [] || Utf8Length(s[0]) > n then None
    else
      match CharsInBytes(s[1..], n - Utf8Length(s[0]))
      case None => None
      case Some(k) => Some(k + 1)
  }

  /** Length of the leading run of whitespace (or of other characters). */
  function Leading(s: string, white: bool): (n: nat)
    ensures n <= |s|
  {
    if s == [] || IsWhitespace(s[0]) != white then 0 else 1 + Leading(s[1..], white)
  }

  /** `split_whitespace().next()`, or nothing. */
  function FirstWord(s: string): string {
    var rest := s[Leading(s, true)..];
    rest[..Leading(rest, false)]
  }

  ghost predicate IsAscii(s: string) {
    forall k :: 0 <= k < |s| ==> Utf8Length(s[k]) == 1
  }

  lemma {:induction false} AsciiBytes(s: string)
    requires IsAscii(s)
    ensures ByteLength(s) == |s|
  {
    if s != [] {
      AsciiBytes(s[1..]);
    }
  }

  lemma {:induction false} AsciiChars(s: string, n: nat)
    requires IsAscii(s) && n <= |s|
    ensures CharsInBytes(s, n) == Some(n)
  {
    if n > 0 {
      AsciiChars(s[1..], n - 1);
    }
  }

  // ---------------------------------------------------------------------------
  // Runs and byte counts
  // ---------------------------------------------------------------------------

  /** All whitespace, or none. */
  predicate IsRun(s: string, white: bool) {
    forall k :: 0 <= k < |s| ==> IsWhitespace(s[k]) == white
  }

  predicate Stops(s: string, white: bool) {
    s == [] || IsWhitespace(s[0]) != white
  }

  lemma {:induction false} LeadingOfRun(a: string, b: string, white: bool)
    requires IsRun(a, white) && Stops(b, white)
    ensures Leading(a + b, white) == |a|
  {
    if a == [] {
      assert a + b == b;
    } else {
      LeadingOfRun(a[1..], b, white);
      assert (a + b)[1..] == a[1..] + b;
    }
  }

  lemma FirstWordOf(space: string, word: string, rest: string)
    requires IsRun(space, true) && IsRun(word, false) && word != [] && Stops(rest, false)
    ensures FirstWord(space + word + rest) == word
  {
    var s := space + word + rest;
    assert s == space + (word + rest) && s[|space|..] == word + rest;
    LeadingOfRun(space, word + rest, true);
    LeadingOfRun(word, rest, false);
  }

  lemma {:induction false} BytesOfConcat(a: string, b: string)
    ensures ByteLength(a + b) == ByteLength(a) + ByteLength(b)
  {
    if a == [] {
      assert a + b == b;
    } else {
      BytesOfConcat(a[1..], b);
      assert (a + b)[1..] == a[1..] + b;
    }
  }

  lemma {:induction false} BytesAtLeastChars(s: string)
    ensures |s| <= ByteLength(s)
  {
    if s != [] {
      BytesAtLeastChars(s[1..]);
    }
  }

  lemma {:induction false} CharsInBytesMeans(s: string, n: nat)
    ensures var k := CharsInBytes(s, n); k.Some? ==> ByteLength(s[..k.value]) == n
  {
    if n > 0 && s != [] && Utf8Length(s[0]) <= n {
      CharsInBytesMeans(s[1..], n - Utf8Length(s[0]));
      var k := CharsInBytes(s[1..], n - Utf8Length(s[0]));
      if k.Some? {
        assert s[..k.value + 1][1..] == s[1..][..k.value];
      }
    }
  }

  lemma {:induction false} CharsOfPrefix(a: string, b: string)
    ensures CharsInBytes(a + b, ByteLength(a)) == Some(|a|)
  {
    if a != [] {
      CharsOfPrefix(a[1..], b);
      assert (a + b)[1..] == a[1..] + b;
    }
  }
}
