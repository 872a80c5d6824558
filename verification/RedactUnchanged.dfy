/** Which texts free-text redaction leaves exactly as they are. */
module RedactUnchanged {
  import opened Wrappers
  import opened Text
  import opened Redact
  import opened MarkerTable
  import opened Bearer
  import opened RedactFreeText

  // ---------------------------------------------------------------------------
  // Nothing to redact
  // ---------------------------------------------------------------------------

  /** No word is flagged. */
  ghost predicate Unflagged(s: string, tests: WordTests) {
    forall piece :: piece in Pieces(s) && !IsSpace(piece) ==> tests.Flag(piece).None?
  }

  /** How far the token after a marker reaches if cutting it out for the mark changes nothing. */
  function SameCut(after: string, mark: string, token: Tokenizer): (n: Option<nat>)
    requires Proper(token)
    ensures n.Some? ==> n.value <= |after|
  {
    match token(after)
    case Short => Some(0)
    case InsideChar => None
    case Chars(n) => if after[..n] == mark then Some(n) else None
  }

  /** Every bearer token that the loop takes from `start` on is the mark already. */
  predicate OnlyMarks(s: string, marker: string, mark: string, token: Tokenizer, start: nat)
    requires marker != [] && Proper(token)
    decreases |s| - start
  {
    match Find(s, marker, start)
    case None => true
    case Some(i) =>
      var at := i + |marker|;
      match SameCut(s[at..], mark, token)
      case None => false
      case Some(n) => OnlyMarks(s, marker, mark, token, at + n)
  }

  ghost predicate NoMarker(s: string) {
    forall q, n :: InTable(q, n) ==> Clean(s, q, n)
  }

  // ---------------------------------------------------------------------------
  // Words
  // ---------------------------------------------------------------------------

  lemma UnflaggedKeeps(s: string, tests: WordTests)
    requires Unflagged(s, tests)
    ensures RedactWords(s, tests) == s
  {
    PiecesPartition(s);
    var ps := Pieces(s);
    assert forall k :: 0 <= k < |ps| ==> ps[k] in ps;
    assert RewritePieces(ps, tests) == ps;
  }

  lemma KeptIsUnflagged(s: string, tests: WordTests)
    requires RedactWords(s, tests) == s
    ensures Unflagged(s, tests)
  {
    WordStageKeepsPieces(s, tests);
    var ps := Pieces(s);
    forall piece | piece in ps && !IsSpace(piece) ensures tests.Flag(piece).None? {
      var k :| 0 <= k < |ps| && ps[k] == piece;
      assert RewritePieces(ps, tests)[k] == RewritePiece(piece, tests) == piece;
      FlaggedChanges(piece, tests);
    }
  }

  lemma FlaggedChanges(word: string, tests: WordTests)
    ensures tests.Flag(word).Some? ==> tests.Rewrite(word) != word
  {
    if tests.Flag(word).Some? {
      PlaceholderIsMarked(tests.Flag(word).value);
    }
  }

  lemma {:induction false} LeadingAll(s: string, white: bool)
    requires Leading(s, white) == |s|
    ensures IsRun(s, white)
  {
    if s != [] {
      LeadingAll(s[1..], white);
      assert forall k :: 1 <= k < |s| ==> s[k] == s[1..][k - 1];
    }
  }

  /** The first piece of a text is that of any longer text, unless the text is a single run. */
  lemma FirstPieceOfJoin(x: string, z: string)
    requires x != [] && PieceLength(x) < |x|
    ensures var n := PieceLength(x); Pieces(x + z) == [x[..n]] + Pieces(x[n..] + z)
  {
    var n, white := PieceLength(x), IsWhitespace(x[0]);
    LeadingStops(x, white);
    LeadingConcat(x[..n], x[n..] + z, white);
    assert x + z == x[..n] + (x[n..] + z);
    assert (x + z)[..n] == x[..n] && (x + z)[n..] == x[n..] + z;
  }

  /** A text of one run is one piece, of the kind of its last character. */
  lemma SingleRun(x: string)
    requires x != [] && PieceLength(x) == |x|
    ensures Pieces(x) == [x] && IsSpace(x) == IsWhitespace(x[|x| - 1])
  {
    LeadingAll(x, IsWhitespace(x[0]));
    assert x[..|x|] == x && x[|x|..] == [];
  }

  /** A text that ends in whitespace keeps its words when more is appended. */
  lemma {:induction false} WordsOfPrefix(x: string, z: string, piece: string)
    requires x != [] && IsWhitespace(x[|x| - 1]) && piece in Pieces(x) && !IsSpace(piece)
    ensures piece in Pieces(x + z)
    decreases |x|
  {
    var n := PieceLength(x);
    if n < |x| {
      FirstPieceOfJoin(x, z);
      if piece != x[..n] {
        WordsOfPrefix(x[n..], z, piece);
      }
    } else {
      SingleRun(x);
    }
  }

  lemma WordsHead(s: string, head: string, tail: string, tests: WordTests)
    requires s != [] && head == s[..PieceLength(s)] && tail == s[PieceLength(s)..]
    ensures RedactWords(s, tests) == RewritePiece(head, tests) + RedactWords(tail, tests)
  {
    assert s[0..] == s && s[0..PieceLength(s)] == head;
    WordsStep(s, 0, PieceLength(s), tests);
  }

  lemma JoinHead(x: string, y: string)
    requires x != [] && (PieceLength(x) < |x| || (y != [] ==> IsWhitespace(x[|x| - 1]) != IsWhitespace(y[0])))
    ensures PieceLength(x + y) == PieceLength(x)
  {
    var n, white := PieceLength(x), IsWhitespace(x[0]);
    LeadingStops(x, white);
    LeadingAll(x[..n], white);
    assert x + y == x[..n] + (x[n..] + y);
    LeadingConcat(x[..n], x[n..] + y, white);
  }

  /** `w` takes a text piece by piece, each by `r`. */
  ghost predicate ByPieces(w: string -> string, r: string -> string, s: string) {
    if s == [] then w(s) == []
    else w(s) == r(s[..PieceLength(s)]) + w(s[PieceLength(s)..])
  }

  lemma JoinSlices(x: string, y: string, head: string, tail: string)
    requires x != [] && (PieceLength(x) < |x| || (y != [] ==> IsWhitespace(x[|x| - 1]) != IsWhitespace(y[0])))
    requires head == x[..PieceLength(x)] && tail == x[PieceLength(x)..]
    ensures PieceLength(x + y) == |head| && (x + y)[..|head|] == head && (x + y)[|head|..] == tail + y
    ensures tail != [] ==> tail[|tail| - 1] == x[|x| - 1]
  {
    JoinHead(x, y);
  }

  lemma {:induction false} JoinByPieces(w: string -> string, r: string -> string, x: string, y: string)
    requires forall s :: ByPieces(w, r, s)
    requires x != [] && y != [] && IsWhitespace(x[|x| - 1]) != IsWhitespace(y[0])
    ensures w(x + y) == w(x) + w(y)
    decreases |x|
  {
    var head, tail := x[..PieceLength(x)], x[PieceLength(x)..];
    JoinSlices(x, y, head, tail);
    assert ByPieces(w, r, x + y) && ByPieces(w, r, x);
    if tail == [] {
      assert tail + y == y && ByPieces(w, r, tail);
    } else {
      JoinByPieces(w, r, tail, y);
    }
  }

  /** Where a word begins after whitespace, or whitespace after a word, the stage works apart. */
  lemma WordsJoin(x: string, y: string, tests: WordTests)
    requires x != [] && y != [] && IsWhitespace(x[|x| - 1]) != IsWhitespace(y[0])
    ensures RedactWords(x + y, tests) == RedactWords(x, tests) + RedactWords(y, tests)
  {
    var w, r := s => RedactWords(s, tests), piece => RewritePiece(piece, tests);
    forall s ensures ByPieces(w, r, s) {
      if s != [] {
        WordsHead(s, s[..PieceLength(s)], s[PieceLength(s)..], tests);
      }
    }
    JoinByPieces(w, r, x, y);
  }

  // ---------------------------------------------------------------------------
  // The bearer loop on a text that ends up unchanged
  // ---------------------------------------------------------------------------

  lemma SameSplice(s: string, at: nat, n: nat, mark: string)
    requires at + n <= |s| && s[at..][..n] == mark
    ensures Splice(s, at, at + n, mark) == s && |mark| == n
  {
    assert s[at..at + n] == mark;
    assert s[..at] + s[at..at + n] + s[at + n..] == s;
  }

  lemma SameAt(s: string, mark: string, token: Tokenizer, at: nat, n: nat)
    requires at <= |s| && Proper(token) && SameCut(s[at..], mark, token) == Some(n)
    ensures BearerAt(s, mark, token, at) == BearerGo(s, at + n)
  {
    var t := token(s[at..]);
    if t.Chars? {
      SameSplice(s, at, n, mark);
    }
  }

  /** A turn leaves what lies before the marker, and at least one character of it. */
  ghost predicate KeepsFront(turn: BearerTurn, s: string, start: nat) {
    turn.BearerGo? ==>
      && start < |s| && start < turn.next <= |turn.text| && turn.text[..start + 1] == s[..start + 1]
      && |turn.text| - turn.next < |s| - start
  }

  lemma TurnKeepsFront(s: string, marker: string, mark: string, token: Tokenizer, start: nat)
    requires marker != [] && Proper(token) && start <= |s|
    ensures KeepsFront(NextBearer(s, marker, mark, token, start), s, start)
  {
    var found := Find(s, marker, start);
    if found.Some? {
      var at := found.value + |marker|;
      var t := token(s[at..]);
      if t.Chars? {
        var text := Splice(s, at, at + t.n, mark);
        assert text[..start + 1] == s[..start + 1];
      }
    }
  }

  /** `scan` is the loop over the turns `next`. */
  ghost predicate Loops(scan: (string, nat) -> Option<string>, next: (string, nat) -> BearerTurn, s: string,
                        start: nat) {
    && (start <= |s| ==> KeepsFront(next(s, start), s, start))
    && scan(s, start) ==
       match next(s, start)
       case BearerDone => Some(s)
       case BearerPanics => None
       case BearerGo(text, i) => scan(text, i)
  }

  /** A turn that does nothing but move on, to where again all tokens are marks. */
  ghost predicate MovesOn(turn: BearerTurn, only: nat -> bool, s: string, start: nat) {
    turn == BearerDone || (turn.BearerGo? && turn.text == s && start < turn.next <= |s| && only(turn.next))
  }

  lemma {:induction false} KeptByLoop(scan: (string, nat) -> Option<string>, next: (string, nat) -> BearerTurn,
                                      only: nat -> bool, s: string, start: nat)
    requires forall t, i :: Loops(scan, next, t, i)
    requires forall i :: 0 <= i <= |s| && only(i) ==> MovesOn(next(s, i), only, s, i)
    requires start <= |s| && only(start)
    ensures scan(s, start) == Some(s)
    decreases |s| - start
  {
    assert Loops(scan, next, s, start);
    assert MovesOn(next(s, start), only, s, start);
    if next(s, start).BearerGo? {
      KeptByLoop(scan, next, only, s, next(s, start).next);
    }
  }

  // The next two predicates say what a definition unfolds to, so that the lemmas below need not.

  ghost predicate TurnIs(turn: BearerTurn, s: string, marker: string, mark: string, token: Tokenizer, start: nat)
    requires Proper(token)
  {
    match Find(s, marker, start)
    case None => turn == BearerDone
    case Some(i) => turn == BearerAt(s, mark, token, i + |marker|)
  }

  ghost predicate OnlyIs(only: nat -> bool, s: string, marker: string, mark: string, token: Tokenizer, start: nat)
    requires Proper(token)
  {
    match Find(s, marker, start)
    case None => only(start)
    case Some(i) =>
      match SameCut(s[i + |marker|..], mark, token)
      case None => !only(start)
      case Some(n) => only(start) == only(i + |marker| + n)
  }

  lemma MarksMoveOn(turn: BearerTurn, only: nat -> bool, s: string, marker: string, mark: string, token: Tokenizer,
                    start: nat)
    requires marker != [] && Proper(token) && TurnIs(turn, s, marker, mark, token, start)
    requires only(start) && OnlyIs(only, s, marker, mark, token, start)
    ensures MovesOn(turn, only, s, start)
  {
    var found := Find(s, marker, start);
    if found.Some? {
      var at := found.value + |marker|;
      SameAt(s, mark, token, at, SameCut(s[at..], mark, token).value);
    }
  }

  /** A text whose tokens are all marks already is left alone. */
  lemma OnlyMarksKeeps(s: string, marker: string, mark: string, token: Tokenizer)
    requires marker != [] && Proper(token) && OnlyMarks(s, marker, mark, token, 0)
    ensures ScanBearer(s, marker, mark, token, 0) == Some(s)
  {
    var scan := (t: string, i: nat) => ScanBearer(t, marker, mark, token, i);
    var next := (t: string, i: nat) => NextBearer(t, marker, mark, token, i);
    var only := (i: nat) => OnlyMarks(s, marker, mark, token, i);
    forall t: string, i: nat ensures Loops(scan, next, t, i) {
      if i <= |t| {
        TurnKeepsFront(t, marker, mark, token, i);
      }
    }
    forall i: nat | i <= |s| && only(i) ensures MovesOn(next(s, i), only, s, i) {
      MarksMoveOn(next(s, i), only, s, marker, mark, token, i);
    }
    KeptByLoop(scan, next, only, s, 0);
  }

  /** What lies before `next` is kept, and the character there, if there is one. */
  predicate FrontKept(text: string, b: string, next: nat) {
    next <= |text| && if next == |text| then b == text else |b| > next && b[..next + 1] == text[..next + 1]
  }

  lemma {:induction false} FrontByLoop(scan: (string, nat) -> Option<string>, next: (string, nat) -> BearerTurn,
                                       s: string, start: nat)
    requires forall t, i :: Loops(scan, next, t, i)
    requires start <= |s| && scan(s, start).Some?
    ensures var b := scan(s, start).value;
            FrontKept(s, b, start)
    decreases |s| - start
  {
    assert Loops(scan, next, s, start);
    var turn := next(s, start);
    if turn.BearerGo? {
      FrontByLoop(scan, next, turn.text, turn.next);
      var b := scan(s, start).value;
      assert b[..start + 1] == b[..turn.next][..start + 1] == turn.text[..turn.next][..start + 1];
    }
  }

  // ---------------------------------------------------------------------------
  // Only marks can come out as they went in
  // ---------------------------------------------------------------------------

  /** A placeholder: one word that the word stage leaves alone. */
  predicate IsMark(mark: string) {
    mark != [] && IsRun(mark, false) && ByteLength(mark) >= MIN_BEARER && Find(mark, "REDACTED", 0).Some?
  }

  lemma {:induction false} FindInLonger(a: string, b: string, p: string, start: nat)
    requires Find(a, p, start).Some?
    ensures Find(a + b, p, start).Some?
    decreases |a| - start
  {
    if Occurs(a, p, start) {
      assert (a + b)[start..start + |p|] == a[start..start + |p|];
    } else {
      FindInLonger(a, b, p, start + 1);
    }
  }

  lemma RunOfLeading(c: string)
    ensures var k := Leading(c, false); IsRun(c[..k], false) && Stops(c[k..], false)
  {
    LeadingStops(c, false);
    LeadingAll(c[..Leading(c, false)], false);
  }

  /** The word that begins with a mark stays, and whitespace or nothing follows it. */
  lemma MarkedWord(mark: string, c: string, tests: WordTests) returns (word: string, rest: string)
    requires IsMark(mark)
    ensures word == mark + c[..Leading(c, false)] && IsRun(word, false) && Stops(rest, false)
    ensures RedactWords(mark + c, tests) == word + rest
  {
    var k := Leading(c, false);
    RunOfLeading(c);
    word := mark + c[..k];
    var y, tail := mark + c, c[k..];
    assert y == word + tail;
    LeadingOfRun(word, tail, false);
    assert y[..|word|] == word && y[|word|..] == tail;
    WordsHead(y, word, tail, tests);
    FindInLonger(mark, c[..k], "REDACTED", 0);
    rest := RedactWords(tail, tests);
    SpaceFirst(tail, tests);
  }

  lemma SpaceFirst(tail: string, tests: WordTests)
    requires Stops(tail, false)
    ensures Stops(RedactWords(tail, tests), false)
  {
    if tail != [] {
      var n := PieceLength(tail);
      WordsHead(tail, tail[..n], tail[n..], tests);
    }
  }

  lemma PrefixUnflagged(x: string, z: string, tests: WordTests)
    requires x != [] && IsWhitespace(x[|x| - 1]) && Unflagged(x + z, tests)
    ensures RedactWords(x, tests) == x
  {
    forall piece | piece in Pieces(x) && !IsSpace(piece) ensures tests.Flag(piece).None? {
      WordsOfPrefix(x, z, piece);
    }
    UnflaggedKeeps(x, tests);
  }

  /** What follows the front of an unchanged text is what the word stage makes of the rest. */
  lemma RestUnchanged(x: string, z: string, y: string, tests: WordTests)
    requires x != [] && y != [] && IsWhitespace(x[|x| - 1]) && !IsWhitespace(y[0])
    requires RedactWords(x + y, tests) == x + z && Unflagged(x + z, tests)
    ensures z == RedactWords(y, tests)
  {
    WordsJoin(x, y, tests);
    PrefixUnflagged(x, z, tests);
    assert (x + z)[|x|..] == z && (x + RedactWords(y, tests))[|x|..] == RedactWords(y, tests);
  }

  /** The text `b` that the loop makes of `s` comes out of the word stage as `s`. */
  ghost predicate ComesOut(b: string, s: string, tests: WordTests) {
    RedactWords(b, tests) == s && Unflagged(s, tests)
  }

  /** If a text `x + z` comes out unchanged although `n` characters of `z` were cut for the mark,
      these were the mark. `c` is what the loop made of the rest, with the first character kept. */
  lemma CutWasMark(s: string, x: string, z: string, n: nat, mark: string, b: string, c: string, tests: WordTests)
    requires IsMark(mark) && x != [] && IsWhitespace(x[|x| - 1])
    requires TokenAfter(z) == Chars(n) && n <= |z|
    requires ComesOut(b, s, tests) && b == x + (mark + c) && s == x + z
    requires if n == |z| then c == [] else c != [] && c[0] == z[n]
    ensures z[..n] == mark
  {
    RestUnchanged(x, z, mark + c, tests);
    var word, rest := MarkedWord(mark, c, tests);
    WordTaken(z, word, rest, mark);
    if n < |z| {
      assert z[n] == rest[0];
    }
    assert c[..0] == [];
  }

  /** A token at the very start of what follows the marker is taken whole. */
  lemma WordTaken(z: string, word: string, rest: string, mark: string)
    requires z == word + rest && IsRun(word, false) && Stops(rest, false) && mark <= word && IsMark(mark)
    ensures TokenAfter(z) == Chars(|word|) && z[..|word|] == word && z[|word|..] == rest
  {
    BytesOfConcat(mark, word[|mark|..]);
    assert word == mark + word[|mark|..];
    assert z == [] + word + rest;
    TokenRemnant([], word, rest);
  }

  // ---------------------------------------------------------------------------
  // The whole scan
  // ---------------------------------------------------------------------------

  lemma FrontOfSplice(s: string, at: nat, n: nat, mark: string, text: string, b: string)
    requires at + n <= |s| && text == Splice(s, at, at + n, mark) && FrontKept(text, b, at + |mark|)
    ensures var next := at + |mark|;
            && next <= |b| && b == s[..at] + (mark + b[next..])
            && (if n == |s[at..]| then b[next..] == [] else b[next..] != [] && b[next..][0] == s[at..][n])
  {
    var next := at + |mark|;
    assert text[..next] == s[..at] + mark;
    if next < |text| {
      assert b[..next] == b[..next + 1][..next] == text[..next + 1][..next] == text[..next];
      assert b[next] == b[..next + 1][next] == text[..next + 1][next] == text[next] == s[at + n];
    }
    assert b == b[..next] + b[next..];
  }

  lemma OccursAt(s: string, p: string, i: nat, k: nat)
    requires k < |p|
    ensures Occurs(s, p, i) ==> s[i + k] == p[k]
  {
    if Occurs(s, p, i) {
      assert s[i..i + |p|][k] == s[i + k];
    }
  }

  /** A marker ends at `at`, and its token reaches over `n` characters. */
  predicate HasCut(s: string, marker: string, token: Tokenizer, at: nat, n: nat) {
    && |marker| <= at <= |s| && Occurs(s, marker, at - |marker|)
    && token(s[at..]) == Chars(n) && at + n <= |s|
  }

  /** A cut that lets the loop end with `b` changes nothing. */
  ghost predicate CutIsHarmless(s: string, marker: string, mark: string, token: Tokenizer, b: string, at: nat, n: nat) {
    HasCut(s, marker, token, at, n) && FrontKept(Splice(s, at, at + n, mark), b, at + |mark|) ==> s[at..][..n] == mark
  }

  lemma CutIsUndone(s: string, x: string, z: string, at: nat, n: nat, mark: string, text: string, b: string,
                    tests: WordTests)
    requires at + n <= |s| && x == s[..at] && z == s[at..] && x != [] && IsWhitespace(x[|x| - 1]) && IsMark(mark)
    requires TokenAfter(z) == Chars(n) && ComesOut(b, s, tests)
    requires text == Splice(s, at, at + n, mark) && FrontKept(text, b, at + |mark|)
    ensures z[..n] == mark
  {
    FrontOfSplice(s, at, n, mark, text, b);
    assert s == x + z;
    CutWasMark(s, x, z, n, mark, b, b[at + |mark|..], tests);
  }

  lemma CutsAreHarmless(s: string, marker: string, mark: string, b: string, tests: WordTests, at: nat, n: nat)
    requires marker != [] && IsWhitespace(marker[|marker| - 1]) && IsMark(mark) && ComesOut(b, s, tests)
    ensures CutIsHarmless(s, marker, mark, TokenAfter, b, at, n)
  {
    if HasCut(s, marker, TokenAfter, at, n) && FrontKept(Splice(s, at, at + n, mark), b, at + |mark|) {
      OccursAt(s, marker, at - |marker|, |marker| - 1);
      CutIsUndone(s, s[..at], s[at..], at, n, mark, Splice(s, at, at + n, mark), b, tests);
    }
  }

  /** A turn of such a loop: it ends, or moves on over a token that is the mark. */
  ghost predicate Reveals(turn: BearerTurn, only: nat -> bool, s: string, start: nat) {
    if turn == BearerDone then only(start)
    else turn.BearerGo? && turn.text == s && start < turn.next <= |s| && (only(turn.next) ==> only(start))
  }

  lemma {:induction false} MarksByLoop(scan: (string, nat) -> Option<string>, next: (string, nat) -> BearerTurn,
                                       only: nat -> bool, s: string, b: string, start: nat)
    requires forall t, i :: Loops(scan, next, t, i)
    requires forall i :: 0 <= i <= |s| && scan(s, i) == Some(b) ==> Reveals(next(s, i), only, s, i)
    requires start <= |s| && scan(s, start) == Some(b)
    ensures only(start)
    decreases |s| - start
  {
    assert Loops(scan, next, s, start);
    assert Reveals(next(s, start), only, s, start);
    if next(s, start).BearerGo? {
      MarksByLoop(scan, next, only, s, b, next(s, start).next);
    }
  }

  /** The turn of a loop that ends with `b` is harmless, or panics. */
  lemma TurnCut(s: string, marker: string, mark: string, token: Tokenizer, b: string, at: nat)
    requires Proper(token) && |marker| <= at <= |s| && Occurs(s, marker, at - |marker|)
    requires forall k, n :: CutIsHarmless(s, marker, mark, token, b, k, n)
    requires token(s[at..]).Chars? ==> FrontKept(Splice(s, at, at + token(s[at..]).n, mark), b, at + |mark|)
    ensures token(s[at..]) != InsideChar ==> SameCut(s[at..], mark, token).Some?
  {
    var t := token(s[at..]);
    if t.Chars? {
      assert CutIsHarmless(s, marker, mark, token, b, at, t.n);
    }
  }

  /** The loop leaves what lies before its position, and the character there: a marker comes first. */
  ghost predicate FrontStays(scan: (string, nat) -> Option<string>, s: string, start: nat) {
    start <= |s| && scan(s, start).Some? ==> FrontKept(s, scan(s, start).value, start)
  }

  /** The turn of a loop that ends with `b` does not panic, and keeps the front, also when it cuts. */
  lemma TurnFront(scan: (string, nat) -> Option<string>, next: (string, nat) -> BearerTurn,
                  s: string, mark: string, token: Tokenizer, b: string, start: nat, at: nat)
    requires forall t, i :: FrontStays(scan, t, i)
    requires Proper(token) && at <= |s| && Loops(scan, next, s, start)
    requires scan(s, start) == Some(b) && next(s, start) == BearerAt(s, mark, token, at)
    ensures token(s[at..]) != InsideChar
    ensures token(s[at..]).Chars? ==> FrontKept(Splice(s, at, at + token(s[at..]).n, mark), b, at + |mark|)
  {
    var t := token(s[at..]);
    if t.Chars? {
      assert FrontStays(scan, Splice(s, at, at + t.n, mark), at + |mark|);
    }
  }

  /** The token of the next marker, if there is one, is the mark or too short. */
  predicate NextIsMark(s: string, marker: string, mark: string, token: Tokenizer, start: nat)
    requires Proper(token)
  {
    match Find(s, marker, start)
    case None => true
    case Some(i) => SameCut(s[i + |marker|..], mark, token).Some?
  }

  lemma CutIsMark(scan: (string, nat) -> Option<string>, next: (string, nat) -> BearerTurn, s: string,
                  marker: string, mark: string, token: Tokenizer, b: string, start: nat, at: nat)
    requires forall t, i :: FrontStays(scan, t, i)
    requires Proper(token) && forall k, n :: CutIsHarmless(s, marker, mark, token, b, k, n)
    requires Loops(scan, next, s, start) && scan(s, start) == Some(b)
    requires |marker| <= at <= |s| && Occurs(s, marker, at - |marker|) && next(s, start) == BearerAt(s, mark, token, at)
    ensures SameCut(s[at..], mark, token).Some?
  {
    TurnFront(scan, next, s, mark, token, b, start, at);
    TurnCut(s, marker, mark, token, b, at);
  }

  lemma HarmlessCut(scan: (string, nat) -> Option<string>, next: (string, nat) -> BearerTurn, s: string,
                    marker: string, mark: string, token: Tokenizer, b: string, start: nat)
    requires forall t, i :: FrontStays(scan, t, i)
    requires marker != [] && Proper(token) && forall k, n :: CutIsHarmless(s, marker, mark, token, b, k, n)
    requires start <= |s| && Loops(scan, next, s, start) && scan(s, start) == Some(b)
    requires TurnIs(next(s, start), s, marker, mark, token, start)
    ensures NextIsMark(s, marker, mark, token, start)
  {
    var found := Find(s, marker, start);
    if found.Some? {
      var at := found.value + |marker|;
      FindIsFirst(s, marker, start);
      CutIsMark(scan, next, s, marker, mark, token, b, start, at);
    }
  }

  lemma MarkReveals(turn: BearerTurn, only: nat -> bool, s: string, marker: string, mark: string, token: Tokenizer,
                    start: nat)
    requires marker != [] && Proper(token) && TurnIs(turn, s, marker, mark, token, start)
    requires NextIsMark(s, marker, mark, token, start) && OnlyIs(only, s, marker, mark, token, start)
    ensures Reveals(turn, only, s, start)
  {
    var found := Find(s, marker, start);
    if found.Some? {
      var at := found.value + |marker|;
      SameAt(s, mark, token, at, SameCut(s[at..], mark, token).value);
    }
  }

  /** If what the loop makes of `s` comes out of the word stage as `s`, the loop found only marks. */
  lemma BearerUndone(s: string, marker: string, mark: string, b: string, tests: WordTests)
    requires marker != [] && IsWhitespace(marker[|marker| - 1]) && IsMark(mark) && ComesOut(b, s, tests)
    requires ScanBearer(s, marker, mark, TokenAfter, 0) == Some(b)
    ensures OnlyMarks(s, marker, mark, TokenAfter, 0)
  {
    forall k: nat, n: nat ensures CutIsHarmless(s, marker, mark, TokenAfter, b, k, n) {
      CutsAreHarmless(s, marker, mark, b, tests, k, n);
    }
    HarmlessMeansMarks(s, marker, mark, TokenAfter, b);
  }

  lemma OnlyByLoop(scan: (string, nat) -> Option<string>, next: (string, nat) -> BearerTurn, only: nat -> bool,
                   s: string, marker: string, mark: string, token: Tokenizer, b: string)
    requires marker != [] && Proper(token) && forall k, n :: CutIsHarmless(s, marker, mark, token, b, k, n)
    requires forall t, i :: Loops(scan, next, t, i)
    requires forall i :: TurnIs(next(s, i), s, marker, mark, token, i) && OnlyIs(only, s, marker, mark, token, i)
    requires scan(s, 0) == Some(b)
    ensures only(0)
  {
    forall t: string, i: nat ensures FrontStays(scan, t, i) {
      if i <= |t| && scan(t, i).Some? {
        FrontByLoop(scan, next, t, i);
      }
    }
    forall i: nat | i <= |s| && scan(s, i) == Some(b) ensures Reveals(next(s, i), only, s, i) {
      assert TurnIs(next(s, i), s, marker, mark, token, i);
      HarmlessCut(scan, next, s, marker, mark, token, b, i);
      MarkReveals(next(s, i), only, s, marker, mark, token, i);
    }
    MarksByLoop(scan, next, only, s, b, 0);
  }

  lemma HarmlessMeansMarks(s: string, marker: string, mark: string, token: Tokenizer, b: string)
    requires marker != [] && Proper(token) && forall k, n :: CutIsHarmless(s, marker, mark, token, b, k, n)
    requires ScanBearer(s, marker, mark, token, 0) == Some(b)
    ensures OnlyMarks(s, marker, mark, token, 0)
  {
    var scan := (t: string, i: nat) => ScanBearer(t, marker, mark, token, i);
    var next := (t: string, i: nat) => NextBearer(t, marker, mark, token, i);
    var only := (i: nat) => OnlyMarks(s, marker, mark, token, i);
    forall t: string, i: nat ensures Loops(scan, next, t, i) {
      if i <= |t| {
        TurnKeepsFront(t, marker, mark, token, i);
      }
    }
    forall i: nat ensures TurnIs(next(s, i), s, marker, mark, token, i) && OnlyIs(only, s, marker, mark, token, i) {
    }
    OnlyByLoop(scan, next, only, s, marker, mark, token, b);
  }

  // ---------------------------------------------------------------------------
  // The exact condition
  // ---------------------------------------------------------------------------

  lemma {:induction false} MarkersOfClean(s: string, ms: seq<Marker>)
    requires (forall j :: 0 <= j < |ms| ==> ms[j] in MARKERS && NonEmptyPrefixes(ms[j].prefixes)) && NoMarker(s)
    ensures ScanMarkers(s, ms) == s
    decreases |ms|
  {
    if ms != [] {
      var m := ms[0];
      forall p | p in m.prefixes ensures Clean(s, p, m) {
        assert InTable(p, m);
      }
      TableCaps(m);
      PrefixesOfClean(s, m.prefixes, m);
      MarkersOfClean(s, ms[1..]);
    }
  }

  lemma TableCaps(m: Marker)
    requires m in MARKERS
    ensures m.min <= m.cap
  {
  }

  lemma HarmlessIsNoPem(s: string)
    requires NoPrefixInside(s)
    ensures !IsPemBlock(s)
  {
    NotFound(s, "-----BEGIN ", 0);
    NotFound(s, "PRIVATE KEY", 8);
  }

  /** A text with no prefix inside has no '-' and no 'K'. */
  lemma NotFound(s: string, p: string, k: nat)
    requires NoPrefixInside(s) && k < |p| && (p[k] == '-' || p[k] == 'K')
    ensures Find(s, p, 0).None?
  {
    forall i: nat ensures !Occurs(s, p, i) {
      OccursAt(s, p, i, k);
      assert i + k < |s| ==> HarmlessAt(s, i + k);
    }
    FindIsFirst(s, p, 0);
  }

  lemma BearerMarkIsMark()
    ensures IsMark(BearerToken.Placeholder()) && IsWhitespace(BEARER[|BEARER| - 1])
  {
    var mark := BearerToken.Placeholder();
    PlaceholderPrintable(BearerToken);
    PlaceholderIsMarked(BearerToken);
    BytesAtLeastChars(mark);
    PrintableLeading(mark);
    LeadingAll(mark, false);
  }

  // The stages are given by their results, so that none of them is unfolded below.

  lemma StagesOf(s: string, tests: WordTests, marked: string, b: Option<string>)
    requires NonEmptyTable() && marked == ScanMarkers(s, MARKERS)
    requires b == ScanBearer(marked, BEARER, BearerToken.Placeholder(), TokenAfter, 0)
    ensures RedactText(s, tests) == if IsPemBlock(s) then Some(PemBlock.Placeholder())
                                    else match b case None => None case Some(t) => Some(RedactWords(t, tests))
  {
  }

  lemma NoPemOut(s: string, tests: WordTests)
    requires RedactText(s, tests) == Some(s)
    ensures !IsPemBlock(s)
  {
    PlaceholderHasNoPrefix(PemBlock);
    HarmlessIsNoPem(PemBlock.Placeholder());
  }

  lemma NoMarkerOut(s: string, tests: WordTests)
    requires RedactText(s, tests) == Some(s)
    ensures NoMarker(s)
  {
    forall q, n | InTable(q, n) ensures Clean(s, q, n) {
      OutputHasNoCredential(s, tests, q, n);
    }
  }

  /** A text with no credential of the fourteen prefixes reaches the bearer loop as it is. */
  lemma StagesOfClean(s: string, tests: WordTests, b: Option<string>)
    requires NoMarker(s) && !IsPemBlock(s)
    requires b == ScanBearer(s, BEARER, BearerToken.Placeholder(), TokenAfter, 0)
    ensures RedactText(s, tests) == match b case None => None case Some(t) => Some(RedactWords(t, tests))
  {
    TableNonEmpty();
    MarkersOfClean(s, MARKERS);
    StagesOf(s, tests, s, b);
  }

  lemma WordsOut(s: string, t: string, tests: WordTests)
    requires RedactWords(t, tests) == s
    ensures ComesOut(t, s, tests)
  {
    WordStageKeepsPieces(t, tests);
    KeptIsUnflagged(s, tests);
  }

  /** The scan leaves a text exactly as it is if and only if it is no PEM block, contains no
      credential of the fourteen prefixes, every bearer token taken is the mark already, and
      no word is flagged. */
  lemma UnchangedIff(s: string, tests: WordTests)
    ensures RedactText(s, tests) == Some(s) <==>
            && !IsPemBlock(s) && NoMarker(s) && Unflagged(s, tests)
            && OnlyMarks(s, BEARER, BearerToken.Placeholder(), TokenAfter, 0)
  {
    var mark := BearerToken.Placeholder();
    var b := ScanBearer(s, BEARER, mark, TokenAfter, 0);
    if RedactText(s, tests) == Some(s) {
      NoPemOut(s, tests);
      NoMarkerOut(s, tests);
    }
    if !IsPemBlock(s) && NoMarker(s) {
      StagesOfClean(s, tests, b);
      UnchangedAfterMarkers(s, mark, tests, b);
    }
  }

  lemma UnchangedAfterMarkers(s: string, mark: string, tests: WordTests, b: Option<string>)
    requires mark == BearerToken.Placeholder() && b == ScanBearer(s, BEARER, mark, TokenAfter, 0)
    ensures (b.Some? && RedactWords(b.value, tests) == s) <==>
            (Unflagged(s, tests) && OnlyMarks(s, BEARER, mark, TokenAfter, 0))
  {
    BearerMarkIsMark();
    if b.Some? && RedactWords(b.value, tests) == s {
      WordsOut(s, b.value, tests);
      BearerUndone(s, BEARER, mark, b.value, tests);
    }
    if Unflagged(s, tests) && OnlyMarks(s, BEARER, mark, TokenAfter, 0) {
      OnlyMarksKeeps(s, BEARER, mark, TokenAfter);
      UnflaggedKeeps(s, tests);
    }
  }
}
