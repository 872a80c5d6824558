/** The three stages of free-text redaction, and what holds of their result. */
module RedactFreeText {
  import opened Wrappers
  import opened Text
  import opened Redact
  import opened MarkerTable
  import opened Bearer

  // ---------------------------------------------------------------------------
  // Stage 2a: the five marker passes
  // ---------------------------------------------------------------------------

  function ScanMarkers(s: string, ms: seq<Marker>): string
    requires forall j :: 0 <= j < |ms| ==> NonEmptyPrefixes(ms[j].prefixes)
    decreases |ms|
  {
    if ms == [] then s else ScanMarkers(ScanPrefixes(s, ms[0].prefixes, ms[0]), ms[1..])
  }

  lemma {:induction false} PrefixesKeepClean(s: string, prefixes: seq<string>, m: Marker, q: string, n: Marker)
    requires NonEmptyPrefixes(prefixes) && Inert(m.mark, q, n) && Clean(s, q, n)
    ensures Clean(ScanPrefixes(s, prefixes, m), q, n)
    decreases |prefixes|
  {
    if prefixes != [] {
      ScanKeepsClean(s, prefixes[0], m, 0, q, n);
      PrefixesKeepClean(ScanPrefix(s, prefixes[0], m, 0), prefixes[1..], m, q, n);
    }
  }

  /** A pass leaves no match of any of its prefixes. */
  lemma {:induction false} PrefixesClean(s: string, prefixes: seq<string>, m: Marker, p: string)
    requires NonEmptyPrefixes(prefixes) && p in prefixes && Sound(p, m)
    ensures Clean(ScanPrefixes(s, prefixes, m), p, m)
    decreases |prefixes|
  {
    var next := ScanPrefix(s, prefixes[0], m, 0);
    if p == prefixes[0] {
      ScanCleans(s, p, m, 0);
      PrefixesKeepClean(next, prefixes[1..], m, p, m);
    } else {
      PrefixesClean(next, prefixes[1..], m, p);
    }
  }

  lemma {:induction false} PrefixesOfClean(s: string, prefixes: seq<string>, m: Marker)
    requires NonEmptyPrefixes(prefixes) && m.min <= m.cap
    requires forall p :: p in prefixes ==> Clean(s, p, m)
    ensures ScanPrefixes(s, prefixes, m) == s
    decreases |prefixes|
  {
    if prefixes != [] {
      ScanOfClean(s, prefixes[0], m, 0);
      PrefixesOfClean(s, prefixes[1..], m);
    }
  }

  lemma TablePrefixesNonEmpty(m: Marker)
    requires m in MARKERS
    ensures NonEmptyPrefixes(m.prefixes)
  {
    forall j | 0 <= j < |m.prefixes| ensures m.prefixes[j] != [] {
      PrefixIsPlain(m.prefixes[j], m);
    }
  }

  /** One pass changes the text exactly when there is something to redact, and is idempotent. */
  lemma PassChangesIffMatch(s: string, m: Marker)
    requires m in MARKERS
    ensures NonEmptyPrefixes(m.prefixes)
    ensures var out := ScanPrefixes(s, m.prefixes, m);
            && (out == s <==> forall p :: p in m.prefixes ==> Clean(s, p, m))
            && ScanPrefixes(out, m.prefixes, m) == out
  {
    TablePrefixesNonEmpty(m);
    var out := ScanPrefixes(s, m.prefixes, m);
    forall p | p in m.prefixes ensures Clean(out, p, m) {
      TableIsSound(p, m);
      PrefixesClean(s, m.prefixes, m, p);
    }
    PrefixIsPlain(m.prefixes[0], m);
    PrefixesOfClean(out, m.prefixes, m);
    if forall p :: p in m.prefixes ==> Clean(s, p, m) {
      PrefixesOfClean(s, m.prefixes, m);
    }
  }

  lemma {:induction false} MarkersKeepClean(s: string, ms: seq<Marker>, q: string, n: Marker)
    requires (forall j :: 0 <= j < |ms| ==> ms[j] in MARKERS && NonEmptyPrefixes(ms[j].prefixes))
    requires InTable(q, n) && Clean(s, q, n)
    ensures Clean(ScanMarkers(s, ms), q, n)
    decreases |ms|
  {
    if ms != [] {
      MarkIsInert(ms[0], q, n);
      PrefixesKeepClean(s, ms[0].prefixes, ms[0], q, n);
      MarkersKeepClean(ScanPrefixes(s, ms[0].prefixes, ms[0]), ms[1..], q, n);
    }
  }

  lemma {:induction false} MarkersClean(s: string, ms: seq<Marker>, q: string, n: Marker)
    requires (forall j :: 0 <= j < |ms| ==> ms[j] in MARKERS && NonEmptyPrefixes(ms[j].prefixes))
    requires n in ms && InTable(q, n)
    ensures Clean(ScanMarkers(s, ms), q, n)
    decreases |ms|
  {
    var next := ScanPrefixes(s, ms[0].prefixes, ms[0]);
    if n == ms[0] {
      TableIsSound(q, n);
      PrefixesClean(s, n.prefixes, n, q);
      MarkersKeepClean(next, ms[1..], q, n);
    } else {
      MarkersClean(next, ms[1..], q, n);
    }
  }

  // ---------------------------------------------------------------------------
  // Stage 3: words
  // ---------------------------------------------------------------------------

  /** The shape tests of a word, left uninterpreted. */
  datatype WordTests = WordTests(
    isJwt: string -> bool,
    isBasicAuthUrl: string -> bool,
    isStructurallySafe: string -> bool,
    hasHighEntropyWindow: string -> bool)
  {
    /** The shape a word is replaced for, if any; an earlier placeholder is left alone. */
    function Flag(word: string): Option<Shape> {
      if Find(word, "REDACTED", 0).Some? then None
      else if isJwt(word) then Some(Jwt)
      else if isBasicAuthUrl(word) then Some(BasicAuthUrl)
      else if !isStructurallySafe(word) && hasHighEntropyWindow(word) then Some(HighEntropy)
      else None
    }

    function Rewrite(word: string): (r: string)
    {
      match Flag(word)
      case None => word
      case Some(shape) => shape.Placeholder()
    }
  }

  /** Length of the first maximal run: whitespace, or a word. */
  function PieceLength(s: string): (n: nat)
    requires s != []
    ensures 1 <= n <= |s|
  {
    Leading(s, IsWhitespace(s[0]))
  }

  /** The maximal runs of whitespace and of other characters, in order. */
  function Pieces(s: string): seq<string> {
    if s == [] then [] else [s[..PieceLength(s)]] + Pieces(s[PieceLength(s)..])
  }

  function Concat(pieces: seq<string>): string {
    if pieces == [] then [] else pieces[0] + Concat(pieces[1..])
  }

  predicate IsSpace(piece: string) {
    piece != [] && IsWhitespace(piece[0])
  }

  function RewritePiece(piece: string, tests: WordTests): string {
    if IsSpace(piece) then piece else tests.Rewrite(piece)
  }

  function RewritePieces(pieces: seq<string>, tests: WordTests): (r: seq<string>)
    ensures |r| == |pieces|
    ensures forall k :: 0 <= k < |pieces| ==> r[k] == RewritePiece(pieces[k], tests)
  {
    if pieces == [] then [] else [RewritePiece(pieces[0], tests)] + RewritePieces(pieces[1..], tests)
  }

  function RedactWords(s: string, tests: WordTests): string {
    Concat(RewritePieces(Pieces(s), tests))
  }

  lemma FirstPiece(text: string, start: nat, white: bool)
    requires start < |text| && IsWhitespace(text[start]) == white
    ensures var n := Leading(text[start..], white);
            var piece := text[start..start + n];
            && n >= 1
            && IsSpace(piece) == white
            && Pieces(text[start..]) == [piece] + Pieces(text[start + n..])
  {
    var s := text[start..];
    var n := Leading(s, white);
    assert s[..n] == text[start..start + n] && s[n..] == text[start + n..];
  }

  lemma WordsStep(text: string, start: nat, i: nat, tests: WordTests)
    requires start < |text| && i == start + Leading(text[start..], IsWhitespace(text[start]))
    ensures start < i <= |text| && IsSpace(text[start..i]) == IsWhitespace(text[start])
    ensures RedactWords(text[start..], tests) == RewritePiece(text[start..i], tests) + RedactWords(text[i..], tests)
  {
    FirstPiece(text, start, IsWhitespace(text[start]));
    var ps := Pieces(text[start..]);
    assert ps[1..] == Pieces(text[i..]);
    assert RewritePieces(ps, tests)[1..] == RewritePieces(Pieces(text[i..]), tests);
  }

  /** Where a run that starts at `start` ends. */
  method RunEnd(text: string, start: nat, white: bool) returns (i: nat)
    requires start <= |text|
    ensures i == start + Leading(text[start..], white)
  {
    i := start;
    while i < |text| && IsWhitespace(text[i]) == white
      invariant start <= i <= |text|
      invariant Leading(text[start..], white) == i - start + Leading(text[i..], white)
    {
      assert text[i..][1..] == text[i + 1..];
      i := i + 1;
    }
  }

  /** One turn of the word loop: the run at `start` is copied when it is whitespace, else tested. */
  method RewriteRun(text: string, start: nat, tests: WordTests) returns (i: nat, r: string)
    requires start < |text|
    ensures start < i <= |text|
    ensures RedactWords(text[start..], tests) == r + RedactWords(text[i..], tests)
  {
    var white := IsWhitespace(text[start]);
    i := RunEnd(text, start, white);
    WordsStep(text, start, i, tests);
    if white {
      r := text[start..i];
    } else {
      r := tests.Rewrite(text[start..i]);
    }
  }

  /** The indexed loop over runs. */
  method RedactRemainingWordShapes(text: string, tests: WordTests) returns (out: string)
    ensures out == RedactWords(text, tests)
  {
    out := [];
    var i: nat := 0;
    while i < |text|
      invariant 0 <= i <= |text|
      invariant out + RedactWords(text[i..], tests) == RedactWords(text, tests)
    {
      var next, r := RewriteRun(text, i, tests);
      out := out + r;
      i := next;
    }
  }

  // ---------------------------------------------------------------------------
  // What the word stage keeps
  // ---------------------------------------------------------------------------

  /** Printable ASCII: in particular no whitespace. */
  predicate Printable(s: string) {
    forall k :: 0 <= k < |s| ==> '!' <= s[k] <= '~'
  }

  lemma PlaceholderPrintable(shape: Shape)
    ensures Printable(shape.Placeholder()) && |shape.Placeholder()| > 12
  {
    assert Printable("***REDACTED(") && Printable(")***");
    NamePrintable(shape);
  }

  lemma NamePrintable(shape: Shape)
    ensures Printable(shape.Name())
  {
    if shape.GithubFineGrainedPat? || shape.AwsAccessKeyId? || shape.RunnerTokenEnv? {
      LongNamesPrintable();
    }
  }

  lemma LongNamesPrintable()
    ensures Printable("github_fine_grained_pat") && Printable("aws_access_key_id") && Printable("runner_token_env")
  {
  }

  lemma PlaceholderIsMarked(shape: Shape)
    ensures Find(shape.Placeholder(), "REDACTED", 0).Some?
  {
    var s := shape.Placeholder();
    assert s[3..3 + 8] == "***REDACTED("[3..11] == "REDACTED";
    assert Occurs(s, "REDACTED", 3);
    FindIsFirst(s, "REDACTED", 0);
  }

  ghost predicate Homogeneous(piece: string) {
    piece != [] && Leading(piece, IsSpace(piece)) == |piece|
  }

  /** Non-empty runs of one kind, no two neighbours of the same kind. */
  ghost predicate Alternating(pieces: seq<string>) {
    && (forall k :: 0 <= k < |pieces| ==> Homogeneous(pieces[k]))
    && (forall k :: 0 <= k < |pieces| - 1 ==> IsSpace(pieces[k]) != IsSpace(pieces[k + 1]))
  }

  lemma {:induction false} LeadingConcat(a: string, b: string, white: bool)
    requires Leading(a, white) == |a|
    requires b != [] ==> IsWhitespace(b[0]) != white
    ensures Leading(a + b, white) == |a|
  {
    if a == [] {
      assert a + b == b;
    } else {
      assert (a + b)[1..] == a[1..] + b;
      LeadingConcat(a[1..], b, white);
    }
  }

  lemma {:induction false} PiecesOfConcat(pieces: seq<string>)
    requires Alternating(pieces)
    ensures Pieces(Concat(pieces)) == pieces
  {
    if pieces != [] {
      var first, rest := pieces[0], pieces[1..];
      var tail := Concat(rest);
      if rest != [] {
        assert tail[0] == rest[0][0];
        assert IsSpace(pieces[1]) != IsSpace(pieces[0]);
      }
      LeadingConcat(first, tail, IsSpace(first));
      assert (first + tail)[..|first|] == first && (first + tail)[|first|..] == tail;
      assert Alternating(rest) by {
        assert forall k :: 0 <= k < |rest| ==> rest[k] == pieces[k + 1];
      }
      PiecesOfConcat(rest);
    }
  }

  lemma {:induction false} LeadingStops(s: string, white: bool)
    ensures var n := Leading(s, white);
            Leading(s[..n], white) == n && (n < |s| ==> IsWhitespace(s[n]) != white)
  {
    var n := Leading(s, white);
    if n > 0 {
      LeadingStops(s[1..], white);
      assert s[..n][1..] == s[1..][..n - 1];
    }
  }

  /** The pieces are the text, cut into alternating runs. */
  lemma {:induction false} PiecesPartition(s: string)
    ensures Concat(Pieces(s)) == s && Alternating(Pieces(s))
  {
    if s != [] {
      var n := PieceLength(s);
      LeadingStops(s, IsWhitespace(s[0]));
      PiecesPartition(s[n..]);
      var ps := Pieces(s);
      assert ps[1..] == Pieces(s[n..]);
      if |ps| > 1 {
        assert s[n..] == Concat(ps[1..]);
        assert ps[1][0] == s[n];
      }
      assert forall k :: 1 <= k < |ps| ==> ps[k] == ps[1..][k - 1];
    }
  }

  lemma {:induction false} PrintableLeading(s: string)
    requires Printable(s)
    ensures Leading(s, false) == |s|
  {
    if s != [] {
      PrintableLeading(s[1..]);
    }
  }

  lemma RewriteKeepsKind(piece: string, tests: WordTests)
    requires Homogeneous(piece)
    ensures var r := RewritePiece(piece, tests);
            && Homogeneous(r) && IsSpace(r) == IsSpace(piece)
            && RewritePiece(r, tests) == r
  {
    if !IsSpace(piece) && tests.Flag(piece).Some? {
      var shape := tests.Flag(piece).value;
      PlaceholderPrintable(shape);
      PrintableLeading(shape.Placeholder());
      PlaceholderIsMarked(shape);
    }
  }

  /** The word stage keeps the pieces in place: every whitespace run and every unflagged word
      is unchanged, every flagged word is one placeholder, and a second run changes nothing. */
  lemma WordStageKeepsPieces(s: string, tests: WordTests)
    ensures var out := RedactWords(s, tests);
            && Pieces(out) == RewritePieces(Pieces(s), tests)
            && RedactWords(out, tests) == out
  {
    PiecesPartition(s);
    var ps := Pieces(s);
    var rs := RewritePieces(ps, tests);
    forall k | 0 <= k < |rs|
      ensures Homogeneous(rs[k]) && IsSpace(rs[k]) == IsSpace(ps[k]) && RewritePiece(rs[k], tests) == rs[k]
    {
      RewriteKeepsKind(ps[k], tests);
    }
    PiecesOfConcat(rs);
    assert RewritePieces(rs, tests) == rs;
  }

  lemma {:induction false} PiecesKeepClean(done: string, pieces: seq<string>, tests: WordTests, q: string, n: Marker)
    requires InTable(q, n) && Clean(done + Concat(pieces), q, n)
    ensures Clean(done + Concat(RewritePieces(pieces, tests)), q, n)
    decreases |pieces|
  {
    if pieces != [] {
      var r := RewritePiece(pieces[0], tests);
      assert done + Concat(pieces) == done + pieces[0] + Concat(pieces[1..]);
      PieceKeepsClean(done, pieces[0], Concat(pieces[1..]), tests, q, n);
      PiecesKeepClean(done + r, pieces[1..], tests, q, n);
      RewrittenTail(done, pieces, tests);
    }
  }

  lemma RewrittenTail(done: string, pieces: seq<string>, tests: WordTests)
    requires pieces != []
    ensures done + Concat(RewritePieces(pieces, tests)) ==
            done + RewritePiece(pieces[0], tests) + Concat(RewritePieces(pieces[1..], tests))
  {
    var rs := RewritePieces(pieces, tests);
    assert rs[1..] == RewritePieces(pieces[1..], tests);
  }

  lemma PieceKeepsClean(done: string, piece: string, rest: string, tests: WordTests, q: string, n: Marker)
    requires InTable(q, n) && Clean(done + piece + rest, q, n)
    ensures Clean(done + RewritePiece(piece, tests) + rest, q, n)
  {
    if !IsSpace(piece) && tests.Flag(piece).Some? {
      var shape := tests.Flag(piece).value;
      PlaceholderIsInert(shape, q, n);
      MiddleKeepsClean(done, piece, rest, shape.Placeholder(), q, n);
    }
  }

  lemma MiddleKeepsClean(a: string, mid: string, b: string, mark: string, q: string, n: Marker)
    requires Inert(mark, q, n) && Clean(a + mid + b, q, n)
    ensures Clean(a + mark + b, q, n)
  {
    var s := a + mid + b;
    assert Splice(s, |a|, |a + mid|, mark) == a + mark + b;
    SpliceKeepsClean(s, |a|, |a + mid|, mark, q, n);
  }

  lemma WordsKeepClean(s: string, tests: WordTests, q: string, n: Marker)
    requires InTable(q, n) && Clean(s, q, n)
    ensures Clean(RedactWords(s, tests), q, n)
  {
    PiecesPartition(s);
    assert [] + Concat(Pieces(s)) == s;
    PiecesKeepClean([], Pieces(s), tests, q, n);
    assert [] + RedactWords(s, tests) == RedactWords(s, tests);
  }

  // ---------------------------------------------------------------------------
  // The whole scan
  // ---------------------------------------------------------------------------

  predicate IsPemBlock(s: string) {
    Find(s, "-----BEGIN ", 0).Some? || Find(s, "PRIVATE KEY", 0).Some?
  }

  lemma TableNonEmpty()
    ensures forall j :: 0 <= j < |MARKERS| ==> NonEmptyPrefixes(MARKERS[j].prefixes)
  {
    forall j | 0 <= j < |MARKERS| ensures NonEmptyPrefixes(MARKERS[j].prefixes) {
      TablePrefixesNonEmpty(MARKERS[j]);
    }
  }

  function RedactPrefixedShapes(s: string): Option<string> {
    TableNonEmpty();
    ScanBearer(ScanMarkers(s, MARKERS), BEARER, BearerToken.Placeholder(), TokenAfter, 0)
  }

  /** `None` is the panic of the bearer loop. */
  function RedactText(s: string, tests: WordTests): Option<string> {
    if IsPemBlock(s) then Some(PemBlock.Placeholder())
    else
      match RedactPrefixedShapes(s)
      case None => None
      case Some(t) => Some(RedactWords(t, tests))
  }

  /** No credential of the fourteen prefixes survives, for any input text. */
  lemma OutputHasNoCredential(s: string, tests: WordTests, q: string, n: Marker)
    requires InTable(q, n) && RedactText(s, tests).Some?
    ensures Clean(RedactText(s, tests).value, q, n)
  {
    if IsPemBlock(s) {
      PlaceholderIsInert(PemBlock, q, n);
    } else {
      TableNonEmpty();
      var marked := ScanMarkers(s, MARKERS);
      MarkersClean(s, MARKERS, q, n);
      PlaceholderIsInert(BearerToken, q, n);
      BearerKeepsClean(marked, BEARER, BearerToken.Placeholder(), TokenAfter, 0, q, n);
      WordsKeepClean(RedactPrefixedShapes(s).value, tests, q, n);
    }
  }

  // ---------------------------------------------------------------------------
  // When the scan returns
  // ---------------------------------------------------------------------------

  lemma TurnKeepsAscii(s: string, p: string, m: Marker, start: nat, turn: Turn)
    requires p != [] && IsAscii(s) && IsAscii(m.mark) && turn == NextTurn(s, p, m, start) && turn.Go?
    ensures IsAscii(turn.text)
  {
  }

  lemma {:induction false} PrefixKeepsAscii(s: string, p: string, m: Marker, start: nat)
    requires p != [] && IsAscii(s) && IsAscii(m.mark)
    ensures IsAscii(ScanPrefix(s, p, m, start))
    decreases |s| - start
  {
    var turn := NextTurn(s, p, m, start);
    if turn.Go? {
      TurnKeepsAscii(s, p, m, start, turn);
      PrefixKeepsAscii(turn.text, p, m, turn.next);
    }
  }

  lemma {:induction false} PrefixesKeepAscii(s: string, prefixes: seq<string>, m: Marker)
    requires NonEmptyPrefixes(prefixes) && IsAscii(s) && IsAscii(m.mark)
    ensures IsAscii(ScanPrefixes(s, prefixes, m))
    decreases |prefixes|
  {
    if prefixes != [] {
      PrefixKeepsAscii(s, prefixes[0], m, 0);
      PrefixesKeepAscii(ScanPrefix(s, prefixes[0], m, 0), prefixes[1..], m);
    }
  }

  lemma {:induction false} MarkersKeepAscii(s: string, ms: seq<Marker>)
    requires (forall j :: 0 <= j < |ms| ==> ms[j] in MARKERS && NonEmptyPrefixes(ms[j].prefixes)) && IsAscii(s)
    ensures IsAscii(ScanMarkers(s, ms))
    decreases |ms|
  {
    if ms != [] {
      var shape := MarkIsPlaceholder(ms[0]);
      PlaceholderPrintable(shape);
      PrefixesKeepAscii(s, ms[0].prefixes, ms[0]);
      MarkersKeepAscii(ScanPrefixes(s, ms[0].prefixes, ms[0]), ms[1..]);
    }
  }

  lemma AsciiMarked(s: string)
    requires IsAscii(s)
    ensures NonEmptyTable() && IsAscii(ScanMarkers(s, MARKERS)) && IsAscii(BearerToken.Placeholder())
  {
    TableNonEmpty();
    MarkersKeepAscii(s, MARKERS);
    PlaceholderPrintable(BearerToken);
  }

  /** The scan returns on every ASCII text. */
  lemma AsciiReturns(s: string, tests: WordTests)
    requires IsAscii(s)
    ensures RedactText(s, tests).Some?
  {
    AsciiMarked(s);
    AsciiReturnsAtAll(ScanMarkers(s, MARKERS), BearerToken.Placeholder());
  }

  /** The scan returns exactly when the text is a PEM block or every bearer token that it takes,
      once the other credentials are replaced, ends between two characters. */
  lemma ReturnsIff(s: string, tests: WordTests)
    ensures NonEmptyTable()
    ensures RedactText(s, tests).Some? <==>
            IsPemBlock(s) || TokensEndBetweenChars(ScanMarkers(s, MARKERS), BEARER, TokenAfter)
  {
    TableNonEmpty();
    var marked := ScanMarkers(s, MARKERS);
    assert marked[0..] == marked;
    BearerReturnsIff(marked, BEARER, BearerToken.Placeholder(), TokenAfter, 0, marked);
  }

  predicate NonEmptyTable() {
    forall j :: 0 <= j < |MARKERS| ==> NonEmptyPrefixes(MARKERS[j].prefixes)
  }

  /** The entry point: PEM material first, then the three stages. */
  method RedactFreeText(text: string, tests: WordTests) returns (result: Option<string>)
    ensures result == RedactText(text, tests)
    ensures result.Some? ==> forall q, n :: InTable(q, n) ==> Clean(result.value, q, n)
  {
    TableNonEmpty();
    if IsPemBlock(text) {
      result := Some(PemBlock.Placeholder());
    } else {
      var out := text;
      for j := 0 to |MARKERS|
        invariant ScanMarkers(out, MARKERS[j..]) == ScanMarkers(text, MARKERS)
      {
        out := RedactByMarker(out, MARKERS[j]);
      }
      result := RedactBearer(out, BEARER, BearerToken.Placeholder());
      if result.Some? {
        var words := RedactRemainingWordShapes(result.value, tests);
        result := Some(words);
      }
    }
    forall q, n | result.Some? && InTable(q, n) ensures Clean(result.value, q, n) {
      OutputHasNoCredential(text, tests, q, n);
    }
  }
}
