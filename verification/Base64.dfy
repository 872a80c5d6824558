/** Base64: the unpadded URL-safe encoder and the lenient standard-alphabet decoder of appauth.rs. */
module Base64 {
  import opened Arithmetic
  import opened Wrappers

  type byte = x: int | 0 <= x < 256
  type sextet = x: int | 0 <= x < 64

  datatype Decoded = Bytes(bytes: seq<byte>) | InvalidChar(c: char)

  // ---------------------------------------------------------------------------
  // Reference meaning: RFC 4648 regroups one stream of bits.
  // ---------------------------------------------------------------------------

  /** The `k` low bits of `v`, most significant first. */
  function Bits(v: nat, k: nat): (b: seq<bool>)
    ensures |b| == k
  {
    if k == 0 then [] else Bits(v / 2, k - 1) + [v % 2 == 1]
  }

  function Number(b: seq<bool>): nat {
    if b == [] then 0 else 2 * Number(b[..|b| - 1]) + (if b[|b| - 1] then 1 else 0)
  }

  function Pow2(k: nat): (p: nat)
    ensures p >= 1
  {
    if k == 0 then 1 else 2 * Pow2(k - 1)
  }

  function Zeros(k: nat): (z: seq<bool>)
    ensures |z| == k
  {
    seq(k, _ => false)
  }

  function BitsOfBytes(bytes: seq<byte>): (b: seq<bool>)
    ensures |b| == 8 * |bytes|
  {
    if bytes == [] then [] else Bits(bytes[0], 8) + BitsOfBytes(bytes[1..])
  }

  function BitsOfSextets(xs: seq<sextet>): (b: seq<bool>)
    ensures |b| == 6 * |xs|
  {
    if xs == [] then [] else Bits(xs[0], 6) + BitsOfSextets(xs[1..])
  }

  lemma {:induction false} NumberBound(b: seq<bool>)
    ensures Number(b) < Pow2(|b|)
  {
    if b != [] {
      NumberBound(b[..|b| - 1]);
    }
  }

  lemma Pow2Values()
    ensures Pow2(6) == 64 && Pow2(8) == 256 && Pow2(12) == 4096 && Pow2(16) == 65536 && Pow2(18) == 262144
  {
    assert Pow2(4) == 16;
    assert Pow2(14) == 16384;
  }

  function Sextet(b: seq<bool>): sextet
    requires |b| == 6
  {
    NumberBound(b); Pow2Values(); Number(b)
  }

  function Octet(b: seq<bool>): byte
    requires |b| == 8
  {
    NumberBound(b); Pow2Values(); Number(b)
  }

  /** Groups of six; the last one is filled with zero bits. */
  function Sextets(b: seq<bool>): (xs: seq<sextet>)
    ensures |xs| == (|b| + 5) / 6
  {
    if b == [] then []
    else if |b| < 6 then [Sextet(b + Zeros(6 - |b|))]
    else [Sextet(b[..6])] + Sextets(b[6..])
  }

  /** Groups of eight; an incomplete last group is dropped. */
  function Octets(b: seq<bool>): (bytes: seq<byte>)
    ensures |bytes| == |b| / 8
  {
    if |b| < 8 then [] else [Octet(b[..8])] + Octets(b[8..])
  }

  // ---------------------------------------------------------------------------
  // Alphabets
  // ---------------------------------------------------------------------------

  const UPPER: string := "ABCDEFGHIJKLMNOPQRSTUVWXYZ"
  const LOWER: string := "abcdefghijklmnopqrstuvwxyz"
  const DIGITS: string := "0123456789"
  const B64URL: string := UPPER + LOWER + DIGITS + "-_"

  function ValueOf(c: char): Option<sextet> {
    if 'A' <= c <= 'Z' then Some(c as int - 'A' as int)
    else if 'a' <= c <= 'z' then Some(c as int - 'a' as int + 26)
    else if '0' <= c <= '9' then Some(c as int - '0' as int + 52)
    else if c == '+' then Some(62)
    else if c == '/' then Some(63)
    else None
  }

  /** ASCII whitespace and padding are ignored wherever they stand. */
  predicate Skipped(c: char) {
    c in {' ', '\t', '\n', '\U{000C}', '\r', '='}
  }

  /** From the URL-safe alphabet of section 5 to the standard one of section 4. */
  function ToStandard(c: char): char {
    if c == '-' then '+' else if c == '_' then '/' else c
  }

  function AlphabetChar(x: sextet): char {
    B64URL[x]
  }

  function AlphabetText(xs: seq<sextet>): (s: string)
    ensures |s| == |xs|
  {
    seq(|xs|, i requires 0 <= i < |xs| => AlphabetChar(xs[i]))
  }

  function Standardised(s: string): (r: string)
    ensures |r| == |s|
  {
    seq(|s|, i requires 0 <= i < |s| => ToStandard(s[i]))
  }

  function Stripped(s: string): string {
    if s == [] then []
    else Stripped(s[..|s| - 1]) + (if Skipped(s[|s| - 1]) then [] else [s[|s| - 1]])
  }

  lemma AlphabetInverse(x: sextet)
    ensures ValueOf(ToStandard(AlphabetChar(x))) == Some(x)
    ensures !Skipped(ToStandard(AlphabetChar(x)))
  {
    if x < 26 {
      UpperLetter(x);
    } else if x < 52 {
      LowerLetter(x - 26);
    } else if x < 62 {
      DigitCharacter(x - 52);
    }
  }

  lemma UpperLetter(i: nat)
    requires i < 26
    ensures AlphabetChar(i) == ('A' as int + i) as char
  {
    var c := UPPER[i];
    assert c as int == 'A' as int + i;
  }

  lemma LowerLetter(i: nat)
    requires i < 26
    ensures AlphabetChar(i + 26) == ('a' as int + i) as char
  {
    var c := LOWER[i];
    assert c as int == 'a' as int + i;
  }

  lemma DigitCharacter(i: nat)
    requires i < 10
    ensures AlphabetChar(i + 52) == ('0' as int + i) as char
  {
    var c := DIGITS[i];
    assert c as int == '0' as int + i;
  }

  // ---------------------------------------------------------------------------
  // What the two loops compute
  // ---------------------------------------------------------------------------

  function Encoded(bytes: seq<byte>): string {
    AlphabetText(Sextets(BitsOfBytes(bytes)))
  }

  datatype Values = Values(xs: seq<sextet>) | Bad(c: char)

  /** The values of the characters kept, or the first character outside the alphabet. */
  function ValuesOf(s: string): Values {
    if s == [] then Values([])
    else
      var c := s[|s| - 1];
      match ValuesOf(s[..|s| - 1])
      case Bad(d) => Bad(d)
      case Values(xs) =>
        if Skipped(c) then Values(xs)
        else
          match ValueOf(c)
          case None => Bad(c)
          case Some(v) => Values(xs + [v])
  }

  function DecodeResult(s: string): Decoded {
    match ValuesOf(s)
    case Bad(c) => InvalidChar(c)
    case Values(xs) => Bytes(Octets(BitsOfSextets(xs)))
  }

  // ---------------------------------------------------------------------------
  // Bit-stream lemmas
  // ---------------------------------------------------------------------------

  lemma {:induction false} NumberOfBits(v: nat, k: nat)
    requires v < Pow2(k)
    ensures Number(Bits(v, k)) == v
  {
    if k > 0 {
      var b := Bits(v, k);
      assert b[..k - 1] == Bits(v / 2, k - 1);
      NumberOfBits(v / 2, k - 1);
    }
  }

  lemma {:induction false} BitsOfNumber(b: seq<bool>)
    ensures Bits(Number(b), |b|) == b
  {
    if b != [] {
      BitsOfNumber(b[..|b| - 1]);
      assert b == b[..|b| - 1] + [b[|b| - 1]];
    }
  }

  lemma DoubleInside(x: nat, p: nat)
    ensures x * (2 * p) == 2 * (x * p)
  {
  }

  lemma {:induction false} NumberOfConcat(a: seq<bool>, b: seq<bool>)
    ensures Number(a + b) == Number(a) * Pow2(|b|) + Number(b)
  {
    if b == [] {
      assert a + b == a;
    } else {
      var n := |b| - 1;
      assert (a + b)[..|a + b| - 1] == a + b[..n];
      NumberOfConcat(a, b[..n]);
      DoubleInside(Number(a), Pow2(n));
    }
  }

  lemma {:induction false} SextetsConcat(a: seq<bool>, b: seq<bool>)
    requires |a| % 6 == 0
    ensures Sextets(a + b) == Sextets(a) + Sextets(b)
  {
    if a == [] {
      assert a + b == b;
    } else {
      assert (a + b)[..6] == a[..6] && (a + b)[6..] == a[6..] + b;
      SextetsConcat(a[6..], b);
    }
  }

  lemma {:induction false} OctetsConcat(a: seq<bool>, b: seq<bool>)
    requires |a| % 8 == 0
    ensures Octets(a + b) == Octets(a) + Octets(b)
  {
    if a == [] {
      assert a + b == b;
    } else {
      assert (a + b)[..8] == a[..8] && (a + b)[8..] == a[8..] + b;
      OctetsConcat(a[8..], b);
    }
  }

  lemma {:induction false} BitsOfBytesConcat(a: seq<byte>, b: seq<byte>)
    ensures BitsOfBytes(a + b) == BitsOfBytes(a) + BitsOfBytes(b)
  {
    if a == [] {
      assert a + b == b;
    } else {
      assert (a + b)[1..] == a[1..] + b;
      BitsOfBytesConcat(a[1..], b);
    }
  }

  lemma {:induction false} BitsOfSextetsConcat(a: seq<sextet>, b: seq<sextet>)
    ensures BitsOfSextets(a + b) == BitsOfSextets(a) + BitsOfSextets(b)
  {
    if a == [] {
      assert a + b == b;
    } else {
      assert (a + b)[1..] == a[1..] + b;
      BitsOfSextetsConcat(a[1..], b);
    }
  }

  /** Cutting into sextets and writing their bits again only adds the fill bits. */
  lemma {:induction false} BitsOfCut(b: seq<bool>)
    ensures BitsOfSextets(Sextets(b)) == b + Zeros(6 * ((|b| + 5) / 6) - |b|)
  {
    if b == [] {
    } else if |b| < 6 {
      BitsOfNumber(b + Zeros(6 - |b|));
      var xs := Sextets(b);
      assert xs[1..] == [];
    } else {
      var xs := Sextets(b);
      assert xs[1..] == Sextets(b[6..]);
      BitsOfNumber(b[..6]);
      BitsOfCut(b[6..]);
      assert b == b[..6] + b[6..];
      assert 6 * ((|b| + 5) / 6) - |b| == 6 * ((|b[6..]| + 5) / 6) - |b[6..]|;
    }
  }

  /** Cutting the bits of bytes into octets gives the bytes back, whatever short tail follows. */
  lemma {:induction false} OctetsOfBytes(bytes: seq<byte>, tail: seq<bool>)
    requires |tail| < 8
    ensures Octets(BitsOfBytes(bytes) + tail) == bytes
  {
    if bytes == [] {
      assert BitsOfBytes(bytes) + tail == tail;
    } else {
      var b := BitsOfBytes(bytes) + tail;
      assert b[..8] == Bits(bytes[0], 8);
      assert b[8..] == BitsOfBytes(bytes[1..]) + tail;
      Pow2Values();
      NumberOfBits(bytes[0], 8);
      OctetsOfBytes(bytes[1..], tail);
    }
  }

  // ---------------------------------------------------------------------------
  // Main results
  // ---------------------------------------------------------------------------

  lemma {:induction false} ValuesIgnoreSkipped(s: string)
    ensures ValuesOf(s) == ValuesOf(Stripped(s))
  {
    if s != [] {
      ValuesIgnoreSkipped(s[..|s| - 1]);
      var r := Stripped(s);
      if Skipped(s[|s| - 1]) {
        assert r == Stripped(s[..|s| - 1]);
      } else {
        assert r[..|r| - 1] == Stripped(s[..|s| - 1]);
      }
    }
  }

  lemma {:induction false} ValuesOfAlphabet(xs: seq<sextet>)
    ensures ValuesOf(Standardised(AlphabetText(xs))) == Values(xs)
  {
    var s := Standardised(AlphabetText(xs));
    if xs != [] {
      var n := |xs| - 1;
      assert s[..n] == Standardised(AlphabetText(xs[..n]));
      ValuesOfAlphabet(xs[..n]);
      AlphabetInverse(xs[n]);
      assert xs == xs[..n] + [xs[n]];
    }
  }

  /** Decoding recovers every byte string from its encoding in the standard alphabet,
      with whitespace and padding characters anywhere. */
  lemma DecodeOfEncoded(bytes: seq<byte>, text: string)
    requires Stripped(text) == Standardised(Encoded(bytes))
    ensures DecodeResult(text) == Bytes(bytes)
  {
    var xs := Sextets(BitsOfBytes(bytes));
    ValuesIgnoreSkipped(text);
    ValuesOfAlphabet(xs);
    BitsOfCut(BitsOfBytes(bytes));
    OctetsOfBytes(bytes, Zeros(6 * ((8 * |bytes| + 5) / 6) - 8 * |bytes|));
  }

  /** The length RFC 4648 gives without padding: four characters per three bytes, two or
      three for a remainder of one or two. */
  lemma EncodedLength(bytes: seq<byte>)
    ensures |Encoded(bytes)| == 4 * (|bytes| / 3) + [0, 2, 3][|bytes| % 3]
    ensures forall c :: c in Encoded(bytes) ==> c in B64URL
  {
  }

  /** Decoding fails exactly when a character that is not skipped lies outside the alphabet. */
  lemma {:induction false} DecodeFailsIff(s: string)
    ensures DecodeResult(s).Bytes? <==> forall c :: c in s && !Skipped(c) ==> ValueOf(c).Some?
  {
    if s != [] {
      DecodeFailsIff(s[..|s| - 1]);
      assert s == s[..|s| - 1] + [s[|s| - 1]];
    }
  }

  // ---------------------------------------------------------------------------
  // The encoder loop
  // ---------------------------------------------------------------------------

  lemma BitsSplit(x: nat, j: nat, y: nat, k: nat, n: nat)
    requires x < Pow2(j) && y < Pow2(k) && n == x * Pow2(k) + y
    ensures Bits(n, j + k) == Bits(x, j) + Bits(y, k)
  {
    var b := Bits(x, j) + Bits(y, k);
    assert Number(b) == n by {
      NumberOfBits(x, j);
      NumberOfBits(y, k);
      NumberOfConcat(Bits(x, j), Bits(y, k));
    }
    assert |b| == j + k;
    BitsOfNumber(b);
  }

  lemma ThreeBytes(b0: byte, b1: byte, b2: byte)
    ensures BitsOfBytes([b0, b1, b2]) == Bits(b0, 8) + (Bits(b1, 8) + Bits(b2, 8))
  {
    assert [b0, b1, b2][1..] == [b1, b2] && [b1, b2][1..] == [b2];
    assert BitsOfBytes([b2]) == Bits(b2, 8);
  }

  lemma BitsOfTriple(b0: byte, b1: byte, b2: byte)
    ensures BitsOfBytes([b0, b1, b2]) == Bits(Group(b0, b1, b2), 24)
  {
    Pow2Values();
    ThreeBytes(b0, b1, b2);
    BitsSplit(b1, 8, b2, 8, b1 * 256 + b2);
    BitsSplit(b0, 8, b1 * 256 + b2, 16, b0 * 65536 + b1 * 256 + b2);
  }

  lemma BitsOfFour(a: sextet, b: sextet, c: sextet, d: sextet)
    ensures Bits(a * 262144 + b * 4096 + c * 64 + d, 24) == Bits(a, 6) + Bits(b, 6) + Bits(c, 6) + Bits(d, 6)
  {
    Pow2Values();
    BitsSplit(a, 6, b, 6, a * 64 + b);
    BitsSplit(a * 64 + b, 12, c, 6, a * 4096 + b * 64 + c);
    BitsSplit(a * 4096 + b * 64 + c, 18, d, 6, a * 262144 + b * 4096 + c * 64 + d);
  }

  lemma SextetsOfTriple(n: nat)
    requires n < 0x100_0000
    ensures Sextets(Bits(n, 24)) == [n / 262144 % 64, n / 4096 % 64, n / 64 % 64, n % 64]
  {
    var a, b, c, d := n / 262144 % 64, n / 4096 % 64, n / 64 % 64, n % 64;
    Quotients(n);
    BitsOfFour(a, b, c, d);
    FourSextets(a, b, c, d);
  }

  lemma Quotients(n: nat)
    requires n < 0x100_0000
    ensures n == n / 262144 % 64 * 262144 + n / 4096 % 64 * 4096 + n / 64 % 64 * 64 + n % 64
  {
    assert n / 64 / 64 == n / 4096 && n / 4096 / 64 == n / 262144;
  }

  lemma FourSextets(a: sextet, b: sextet, c: sextet, d: sextet)
    ensures Sextets(Bits(a, 6) + Bits(b, 6) + Bits(c, 6) + Bits(d, 6)) == [a, b, c, d]
  {
    Pow2Values();
    NumberOfBits(a, 6);
    NumberOfBits(b, 6);
    NumberOfBits(c, 6);
    NumberOfBits(d, 6);
    FourGroups(Bits(a, 6), Bits(b, 6), Bits(c, 6), Bits(d, 6));
  }

  lemma FourGroups(a: seq<bool>, b: seq<bool>, c: seq<bool>, d: seq<bool>)
    requires |a| == 6 && |b| == 6 && |c| == 6 && |d| == 6
    ensures Sextets(a + b + c + d) == [Sextet(a), Sextet(b), Sextet(c), Sextet(d)]
  {
    OneGroup(a, b + c + d);
    OneGroup(b, c + d);
    OneGroup(c, d);
    OneGroup(d, []);
    assert a + b + c + d == a + (b + c + d) && b + c + d == b + (c + d) && d + [] == d;
  }

  lemma OneGroup(a: seq<bool>, rest: seq<bool>)
    requires |a| == 6
    ensures Sextets(a + rest) == [Sextet(a)] + Sextets(rest)
  {
    assert (a + rest)[..6] == a && (a + rest)[6..] == rest;
  }

  /** The 24-bit group of a chunk; missing bytes count as zero. */
  function Group(b0: int, b1: int, b2: int): int {
    b0 * 65536 + b1 * 256 + b2
  }

  /** The characters the source pushes for one chunk of one to three bytes. */
  function ChunkText(chunk: seq<byte>): (s: string)
    requires 1 <= |chunk| <= 3
    ensures |s| == |chunk| + 1
  {
    var b1 := if |chunk| > 1 then chunk[1] else 0;
    var b2 := if |chunk| > 2 then chunk[2] else 0;
    var n := Group(chunk[0], b1, b2);
    [AlphabetChar(n / 262144 % 64), AlphabetChar(n / 4096 % 64)]
    + (if |chunk| > 1 then [AlphabetChar(n / 64 % 64)] else [])
    + (if |chunk| > 2 then [AlphabetChar(n % 64)] else [])
  }

  /** A chunk is written as the sextets of its own bits. */
  lemma ChunkIsEncoded(chunk: seq<byte>)
    requires 1 <= |chunk| <= 3
    ensures ChunkText(chunk) == Encoded(chunk)
  {
    var b1: byte := if |chunk| > 1 then chunk[1] else 0;
    var b2: byte := if |chunk| > 2 then chunk[2] else 0;
    var full := [chunk[0], b1, b2];
    var n := Group(chunk[0], b1, b2);
    BitsOfTriple(chunk[0], b1, b2);
    SextetsOfTriple(n);
    PrefixSextets(chunk, full);
  }

  /** Filling a chunk with zero bytes does not change the sextets it really has. */
  lemma PrefixSextets(chunk: seq<byte>, full: seq<byte>)
    requires 1 <= |chunk| <= 3 && |full| == 3 && chunk <= full
    requires forall i :: |chunk| <= i < 3 ==> full[i] == 0
    ensures Sextets(BitsOfBytes(chunk)) == Sextets(BitsOfBytes(full))[..|chunk| + 1]
  {
    var fill := full[|chunk|..];
    assert full == chunk + fill;
    BitsOfBytesConcat(chunk, fill);
    ZeroBytes(fill);
    FilledSextets(BitsOfBytes(chunk), 8 * |fill|);
  }

  lemma {:induction false} ZeroBytes(fill: seq<byte>)
    requires forall i :: 0 <= i < |fill| ==> fill[i] == 0
    ensures BitsOfBytes(fill) == Zeros(8 * |fill|)
  {
    if fill != [] {
      ZeroBytes(fill[1..]);
      ZeroBits(8);
    }
  }

  lemma {:induction false} ZeroBits(k: nat)
    ensures Bits(0, k) == Zeros(k)
  {
    if k > 0 {
      ZeroBits(k - 1);
    }
  }

  lemma {:induction false} FilledSextets(b: seq<bool>, k: nat)
    ensures |Sextets(b)| <= |Sextets(b + Zeros(k))|
    ensures Sextets(b) == Sextets(b + Zeros(k))[..|Sextets(b)|]
  {
    var c := b + Zeros(k);
    if b == [] {
    } else if |b| < 6 {
      if |c| < 6 {
        assert c + Zeros(6 - |c|) == b + Zeros(6 - |b|);
      } else {
        assert c[..6] == b + Zeros(6 - |b|);
      }
    } else {
      assert c[..6] == b[..6] && c[6..] == b[6..] + Zeros(k);
      FilledSextets(b[6..], k);
    }
  }

  lemma AlphabetTextConcat(xs: seq<sextet>, ys: seq<sextet>)
    ensures AlphabetText(xs + ys) == AlphabetText(xs) + AlphabetText(ys)
  {
  }

  lemma SextetTextConcat(x: seq<bool>, y: seq<bool>)
    requires |x| % 6 == 0
    ensures AlphabetText(Sextets(x + y)) == AlphabetText(Sextets(x)) + AlphabetText(Sextets(y))
  {
    SextetsConcat(x, y);
    AlphabetTextConcat(Sextets(x), Sextets(y));
  }

  lemma EncodedConcat(a: seq<byte>, b: seq<byte>)
    requires |a| % 3 == 0
    ensures Encoded(a + b) == Encoded(a) + Encoded(b)
  {
    BitsOfBytesConcat(a, b);
    SextetTextConcat(BitsOfBytes(a), BitsOfBytes(b));
  }

  lemma EncodedStep(bytes: seq<byte>, i: nat, end: nat)
    requires i < end <= |bytes| && i % 3 == 0
    ensures Encoded(bytes[..end]) == Encoded(bytes[..i]) + Encoded(bytes[i..end])
  {
    assert bytes[..end] == bytes[..i] + bytes[i..end];
    EncodedConcat(bytes[..i], bytes[i..end]);
  }

  /** One pass of the chunk loop: two to four characters are pushed. */
  method PushChunk(before: string, chunk: seq<byte>) returns (out: string)
    requires 1 <= |chunk| <= 3
    ensures out == before + Encoded(chunk)
  {
    ChunkIsEncoded(chunk);
    var b0 := chunk[0];
    var b1 := if |chunk| > 1 then chunk[1] else 0;
    var b2 := if |chunk| > 2 then chunk[2] else 0;
    var n := Group(b0, b1, b2);
    out := before + [AlphabetChar(n / 262144 % 64)];
    out := out + [AlphabetChar(n / 4096 % 64)];
    if |chunk| > 1 {
      out := out + [AlphabetChar(n / 64 % 64)];
    }
    if |chunk| > 2 {
      out := out + [AlphabetChar(n % 64)];
    }
  }

  method Encode(bytes: seq<byte>) returns (out: string)
    ensures out == Encoded(bytes)
  {
    out := [];
    assert Encoded(bytes[..0]) == [];
    var i := 0;
    while i < |bytes|
      invariant 0 <= i <= |bytes|
      invariant i < |bytes| ==> i % 3 == 0
      invariant out == Encoded(bytes[..i])
    {
      var end := if i + 3 <= |bytes| then i + 3 else |bytes|;
      EncodedStep(bytes, i, end);
      out := PushChunk(out, bytes[i..end]);
      i := end;
    }
    assert bytes[..i] == bytes;
  }

  // ---------------------------------------------------------------------------
  // The decoder loop
  // ---------------------------------------------------------------------------

  const U32: nat := 0x1_0000_0000

  /** The bits not yet written out are the low bits of the accumulator, whatever is above them. */
  ghost predicate Pending(buf: nat, bits: nat, stream: seq<bool>)
  {
    && bits in {0, 2, 4, 6}
    && bits == |stream| % 8
    && buf % Pow2(bits) == Number(stream[|stream| - bits..])
  }

  lemma Pow2Small()
    ensures Pow2(0) == 1 && Pow2(2) == 4 && Pow2(4) == 16 && Pow2(6) == 64
    ensures Pow2(8) == 256 && Pow2(10) == 1024 && Pow2(12) == 4096
  {
    Pow2Values();
  }

  /** Shifting in a sextet, with the high bits of the accumulator lost. */
  lemma ShiftIn(buf: nat, p: nat, q: nat, v: sextet)
    requires p > 0 && q > 0 && p * q == 67108864
    ensures (buf * 64 % U32 + v) % (p * 64) == buf % p * 64 + v
  {
    var c := buf % 67108864;
    ModUnique(buf * 64, buf / 67108864, U32, c * 64);
    ModOfMod(buf, p, q);
    var j, s := c / p, c % p;
    assert c == p * j + s && s == buf % p;
    assert c * 64 + v == j * (p * 64) + (s * 64 + v);
    ModUnique(c * 64 + v, j, p * 64, s * 64 + v);
  }

  /** What is pending after whole bytes adds at most one byte, when there are eight bits of it. */
  lemma OctetsOfPending(whole: seq<bool>, t: seq<bool>)
    requires |whole| % 8 == 0 && |t| < 16
    ensures Octets(whole + t) == Octets(whole) + (if |t| >= 8 then [Octet(t[..8])] else [])
  {
    OctetsConcat(whole, t);
    ShortOctets(t);
  }

  lemma ShortOctets(t: seq<bool>)
    requires |t| < 16
    ensures Octets(t) == if |t| >= 8 then [Octet(t[..8])] else []
  {
    if |t| >= 8 {
      assert Octets(t[8..]) == [];
    }
  }

  /** Number of a stream cut in two: quotient and remainder by the weight of the second part. */
  lemma NumberCut(t: seq<bool>, k: nat)
    requires k <= |t|
    ensures Number(t[..k]) == Number(t) / Pow2(|t| - k) && Number(t[k..]) == Number(t) % Pow2(|t| - k)
  {
    assert t == t[..k] + t[k..];
    NumberOfConcat(t[..k], t[k..]);
    NumberBound(t[k..]);
    ModUnique(Number(t), Number(t[..k]), Pow2(|t| - k), Number(t[k..]));
  }

  /** What the shift, the mask and the smaller bit count mean when a byte is complete. */
  lemma TakeByte(buf: nat, bits: nat, t: seq<bool>)
    requires bits in {8, 10, 12} && |t| == bits && buf % Pow2(bits) == Number(t)
    ensures buf / Pow2(bits - 8) % 256 == Octet(t[..8])
    ensures buf % Pow2(bits - 8) == Number(t[8..])
  {
    Pow2Small();
    NumberCut(t, 8);
    if bits == 8 {
    } else if bits == 10 {
      HighByte(buf, 4);
    } else {
      HighByte(buf, 16);
    }
  }

  lemma HighByte(buf: nat, p: nat)
    requires p in {4, 16}
    ensures buf / p % 256 == buf % (p * 256) / p
    ensures buf % p == buf % (p * 256) % p
  {
    var k, r := buf / (p * 256), buf % (p * 256);
    assert buf == p * 256 * k + r;
    var j, s := r / p, r % p;
    assert r == p * j + s;
    ModUnique(buf, 256 * k + j, p, s);
    ModUnique(256 * k + j, k, 256, j);
  }

  /** Fewer than eight bits pending after the shift: nothing is written. */
  lemma NoByteYet(buf: nat, stream: seq<bool>, more: seq<bool>)
    requires |stream| % 8 == 0 && |more| == 6 && buf % Pow2(6) == Number(more)
    ensures Pending(buf, 6, stream + more) && Octets(stream + more) == Octets(stream)
  {
    assert (stream + more)[|stream + more| - 6..] == more;
    OctetsOfPending(stream, more);
  }

  /** Eight bits or more pending: the oldest eight are written. */
  lemma ByteTaken(buf: nat, bits: nat, whole: seq<bool>, tail: seq<bool>, t: seq<bool>)
    requires bits in {8, 10, 12} && |whole| % 8 == 0 && |tail| < 8 && |t| == bits && buf % Pow2(bits) == Number(t)
    ensures Octets(whole + t) == Octets(whole + tail) + [buf / Weight(bits - 8) % 256]
    ensures buf % Pow2(bits - 8) == Number(t[8..])
  {
    OctetsOfPending(whole, tail);
    OctetsOfPending(whole, t);
    TakeByte(buf, bits, t);
  }

  lemma CutStream(stream: seq<bool>, bits: nat, more: seq<bool>)
    requires bits <= |stream| && bits + |more| >= 8
    ensures var whole, tail := stream[..|stream| - bits], stream[|stream| - bits..];
            && stream == whole + tail && stream + more == whole + (tail + more)
            && (stream + more)[|stream + more| - (bits + |more| - 8)..] == (tail + more)[8..]
  {
  }

  lemma ByteComplete(buf: nat, bits: nat, stream: seq<bool>, more: seq<bool>)
    requires bits in {2, 4, 6} && bits == |stream| % 8 && |more| == 6
    requires buf % Pow2(bits + 6) == Number(stream[|stream| - bits..] + more)
    ensures Pending(buf, bits - 2, stream + more)
    ensures Octets(stream + more) == Octets(stream) + [buf / Weight(bits - 2) % 256]
  {
    var whole, tail := stream[..|stream| - bits], stream[|stream| - bits..];
    CutStream(stream, bits, more);
    ByteTaken(buf, bits + 6, whole, tail, tail + more);
  }

  /** The part of the loop that takes a sextet: the accumulator's high bits may be lost,
      the bytes written are those of the bit stream. */
  method PushSextet(buf0: nat, bits0: nat, out0: seq<byte>, v: sextet, ghost stream: seq<bool>)
    returns (buf: nat, bits: nat, out: seq<byte>)
    requires Pending(buf0, bits0, stream) && out0 == Octets(stream)
    ensures Pending(buf, bits, stream + Bits(v, 6)) && out == Octets(stream + Bits(v, 6))
  {
    out := out0;
    buf := buf0 * 64 % U32 + v;
    bits := bits0 + 6;
    StepFacts(buf0, bits0, stream, v);
    if bits >= 8 {
      ByteComplete(buf, bits0, stream, Bits(v, 6));
      bits := bits - 8;
      out := out + [buf / Weight(bits) % 256];
    } else {
      NoByteYet(buf, stream, Bits(v, 6));
    }
  }

  method Decode(input: string) returns (result: Decoded)
    ensures result == DecodeResult(input)
  {
    var out: seq<byte> := [];
    var buf: nat := 0;
    var bits: nat := 0;
    ghost var xs: seq<sextet> := [];
    var i := 0;
    while i < |input|
      invariant 0 <= i <= |input|
      invariant ValuesOf(input[..i]) == Values(xs)
      invariant Pending(buf, bits, BitsOfSextets(xs))
      invariant out == Octets(BitsOfSextets(xs))
    {
      var c := input[i];
      assert input[..i + 1][..i] == input[..i] && input[..i + 1][i] == c;
      i := i + 1;
      if Skipped(c) {
        continue;
      }
      match ValueOf(c) {
        case None =>
          FirstBadStays(input, i);
          return InvalidChar(c);
        case Some(v) =>
          buf, bits, out := PushSextet(buf, bits, out, v, BitsOfSextets(xs));
          ExtendStream(xs, v);
          xs := xs + [v];
      }
    }
    assert input[..i] == input;
    result := Bytes(out);
  }

  /** The right shift by `bits`, as a divisor. */
  function Weight(bits: nat): (w: nat)
    requires bits in {0, 2, 4}
    ensures w == Pow2(bits)
  {
    Pow2Small();
    if bits == 0 then 1 else if bits == 2 then 4 else 16
  }

  lemma ExtendStream(xs: seq<sextet>, v: sextet)
    ensures BitsOfSextets(xs + [v]) == BitsOfSextets(xs) + Bits(v, 6)
  {
    BitsOfSextetsConcat(xs, [v]);
    assert [v][1..] == [];
    assert BitsOfSextets([v]) == Bits(v, 6);
  }

  /** The accumulator after the shift holds the pending bits followed by the sextet. */
  lemma StepFacts(buf: nat, bits: nat, stream: seq<bool>, v: sextet)
    requires Pending(buf, bits, stream)
    ensures (buf * 64 % U32 + v) % Pow2(bits + 6) == Number(stream[|stream| - bits..] + Bits(v, 6))
    ensures bits == 0 ==> stream[|stream| - bits..] + Bits(v, 6) == Bits(v, 6)
  {
    Pow2Small();
    NumberOfBits(v, 6);
    NumberOfConcat(stream[|stream| - bits..], Bits(v, 6));
    if bits == 0 {
      ShiftIn(buf, 1, 67108864, v);
    } else if bits == 2 {
      ShiftIn(buf, 4, 16777216, v);
    } else if bits == 4 {
      ShiftIn(buf, 16, 4194304, v);
    } else {
      ShiftIn(buf, 64, 1048576, v);
    }
  }

  /** Once a bad character has been met the result no longer changes. */
  lemma {:induction false} FirstBadStays(s: string, i: nat)
    requires i <= |s| && ValuesOf(s[..i]).Bad?
    ensures ValuesOf(s) == ValuesOf(s[..i])
  {
    if i < |s| {
      assert s[..|s| - 1][..i] == s[..i];
      FirstBadStays(s[..|s| - 1], i);
    } else {
      assert s[..i] == s;
    }
  }
}
