/** The search-and-replace loop for bearer tokens. How far the token after a marker reaches is a
    parameter of the loop; `TokenAfter` is the measure that the program uses. */
module Bearer {
  import opened Wrappers
  import opened Text
  import opened Redact

  const BEARER: string := "Bearer "
  const MIN_BEARER: nat := 8

  /** The token after a marker: too short to redact; reaching into the middle of a character; or
      so many characters. */
  datatype Token = Short | InsideChar | Chars(n: nat)

  type Tokenizer = string -> Token

  ghost predicate Proper(token: Tokenizer) {
    forall after :: token(after).Chars? ==> token(after).n <= |after|
  }

  /** Whitespace before the token is skipped to find it, and yet its byte length is counted from
      the marker on; the count may end inside a character. */
  function TokenAfter(after: string): (t: Token)
    ensures t.Chars? ==> t.n <= |after|
  {
    var tail := ByteLength(FirstWord(after));
    if tail < MIN_BEARER then Short
    else
      match CharsInBytes(after, tail)
      case None => InsideChar
      case Some(k) => Chars(k)
  }

  // ---------------------------------------------------------------------------
  // The loop
  // ---------------------------------------------------------------------------

  /** What one turn leaves behind. A range that ends inside a character panics. */
  datatype BearerTurn = BearerDone | BearerPanics | BearerGo(text: string, next: nat)

  /** The turn after the marker that ends at `at`. The marker itself stays. */
  function BearerAt(s: string, mark: string, token: Tokenizer, at: nat): (turn: BearerTurn)
    requires at <= |s| && Proper(token)
    ensures turn.BearerGo? ==> |turn.text| - turn.next <= |s| - at
  {
    match token(s[at..])
    case Short => BearerGo(s, at)
    case InsideChar => BearerPanics
    case Chars(n) => BearerGo(Splice(s, at, at + n, mark), at + |mark|)
  }

  function NextBearer(s: string, marker: string, mark: string, token: Tokenizer, start: nat): (turn: BearerTurn)
    requires marker != [] && Proper(token)
    ensures turn.BearerGo? ==> |turn.text| - turn.next < |s| - start
  {
    match Find(s, marker, start)
    case None => BearerDone
    case Some(i) => BearerAt(s, mark, token, i + |marker|)
  }

  /** The loop from position `start`; `None` is a panic. */
  function ScanBearer(s: string, marker: string, mark: string, token: Tokenizer, start: nat): Option<string>
    requires marker != [] && Proper(token)
    decreases |s| - start
  {
    match NextBearer(s, marker, mark, token, start)
    case BearerDone => Some(s)
    case BearerPanics => None
    case BearerGo(text, next) => ScanBearer(text, marker, mark, token, next)
  }

  method MeasureToken(rest: string) returns (t: Token)
    ensures t == TokenAfter(rest)
  {
    var tail := FirstWord(rest);
    if ByteLength(tail) < MIN_BEARER {
      return Short;
    }
    var chars := CharsInBytes(rest, ByteLength(tail));
    t := if chars.None? then InsideChar else Chars(chars.value);
  }

  /** The body of the loop: find the marker, measure the word after it, edit the text. */
  method RedactBearerOnce(text: string, marker: string, mark: string, start: nat) returns (turn: BearerTurn)
    requires marker != []
    ensures turn == NextBearer(text, marker, mark, TokenAfter, start)
  {
    var found := Find(text, marker, start);
    if found.None? {
      return BearerDone;
    }
    var at := found.value + |marker|;
    var token := MeasureToken(text[at..]);
    match token {
      case Short => turn := BearerGo(text, at);
      case InsideChar => turn := BearerPanics;
      case Chars(n) => turn := BearerGo(Splice(text, at, at + n, mark), at + |mark|);
    }
  }

  /** The loop, edited in place like the marker loop. */
  method RedactBearer(text: string, marker: string, mark: string) returns (result: Option<string>)
    requires marker != []
    ensures result == ScanBearer(text, marker, mark, TokenAfter, 0)
  {
    var out := text;
    var startSearch: nat := 0;
    while startSearch < |out|
      invariant ScanBearer(out, marker, mark, TokenAfter, startSearch) == ScanBearer(text, marker, mark, TokenAfter, 0)
      decreases |out| - startSearch
    {
      var turn := RedactBearerOnce(out, marker, mark, startSearch);
      if turn.BearerDone? {
        return Some(out);
      }
      if turn.BearerPanics? {
        return None;
      }
      out, startSearch := turn.text, turn.next;
    }
    result := Some(out);
  }

  // ---------------------------------------------------------------------------
  // It completes no other credential
  // ---------------------------------------------------------------------------

  lemma BearerTurnKeepsClean(s: string, marker: string, mark: string, token: Tokenizer, start: nat, turn: BearerTurn,
                             q: string, n: Marker)
    requires marker != [] && Proper(token) && Inert(mark, q, n) && Clean(s, q, n)
    requires turn == NextBearer(s, marker, mark, token, start) && turn.BearerGo?
    ensures Clean(turn.text, q, n)
  {
    var at := Find(s, marker, start).value + |marker|;
    var t := token(s[at..]);
    if t.Chars? {
      SpliceKeepsClean(s, at, at + t.n, mark, q, n);
    }
  }

  lemma {:induction false} BearerKeepsClean(s: string, marker: string, mark: string, token: Tokenizer, start: nat,
                                            q: string, n: Marker)
    requires marker != [] && Proper(token) && Inert(mark, q, n) && Clean(s, q, n)
    requires ScanBearer(s, marker, mark, token, start).Some?
    ensures Clean(ScanBearer(s, marker, mark, token, start).value, q, n)
    decreases |s| - start
  {
    var turn := NextBearer(s, marker, mark, token, start);
    if turn.BearerGo? {
      BearerTurnKeepsClean(s, marker, mark, token, start, turn, q, n);
      BearerKeepsClean(turn.text, marker, mark, token, turn.next, q, n);
    }
  }

  // ---------------------------------------------------------------------------
  // What it leaves of the token
  // ---------------------------------------------------------------------------

  /** After a marker: whitespace, a word long enough to be taken, and what follows the word. */
  predicate IsAfterMarker(space: string, word: string, rest: string) {
    IsRun(space, true) && IsRun(word, false) && Stops(rest, false) && ByteLength(word) >= MIN_BEARER
  }

  /** What stays of the whitespace and the word when `n` characters from the marker on are cut. */
  function Remnant(space: string, word: string, n: nat): string
    requires n <= |space + word|
  {
    (space + word)[n..]
  }

  /** Unless the cut ends inside a character, as many bytes of whitespace and token stay as there
      is whitespace before the token. So the whole token goes exactly when nothing stands before it. */
  lemma TokenRemnant(space: string, word: string, rest: string)
    requires IsAfterMarker(space, word, rest)
    ensures var token := TokenAfter(space + word + rest);
            && token != Short
            && (token.Chars? ==>
                  && token.n <= |space + word|
                  && (space + word + rest)[token.n..] == Remnant(space, word, token.n) + rest
                  && ByteLength(Remnant(space, word, token.n)) == ByteLength(space)
                  && (Remnant(space, word, token.n) == [] <==> space == []))
            && (space == [] ==> token == Chars(|word|))
  {
    var both, after := space + word, space + word + rest;
    FirstWordOf(space, word, rest);
    BytesOfConcat(space, word);
    var k := CharsInBytes(after, ByteLength(word));
    CharsInBytesMeans(after, ByteLength(word));
    if k.Some? {
      if k.value > |both| {
        CutBeyond(both, rest, k.value);
      }
      CutInside(both, rest, k.value);
      BytesOfCut(both, k.value);
      BytesAtLeastChars(space);
      BytesAtLeastChars(both[k.value..]);
    }
    if space == [] {
      assert after == word + rest;
      CharsOfPrefix(word, rest);
    }
  }

  /** A cut beyond `both` takes more bytes than `both` has. */
  lemma CutBeyond(both: string, rest: string, k: nat)
    requires |both| < k <= |both + rest|
    ensures ByteLength((both + rest)[..k]) > ByteLength(both)
  {
    var more := rest[..k - |both|];
    assert (both + rest)[..k] == both + more;
    BytesOfConcat(both, more);
    BytesAtLeastChars(more);
  }

  lemma CutInside(both: string, rest: string, k: nat)
    requires k <= |both|
    ensures (both + rest)[k..] == both[k..] + rest && (both + rest)[..k] == both[..k]
  {
  }

  lemma BytesOfCut(both: string, k: nat)
    requires k <= |both|
    ensures ByteLength(both[..k]) + ByteLength(both[k..]) == ByteLength(both)
  {
    var a, b := both[..k], both[k..];
    BytesOfConcat(a, b);
    assert a + b == both;
  }

  /** On ASCII text the last min(|space|, |word|) characters of the token stay. */
  lemma AsciiRemnant(space: string, word: string, rest: string)
    requires IsAfterMarker(space, word, rest) && IsAscii(space) && IsAscii(word)
    ensures TokenAfter(space + word + rest) == Chars(|word|)
    ensures Remnant(space, word, |word|) ==
            if |space| <= |word| then word[|word| - |space|..] else space[|word|..] + word
  {
    var after := space + word + rest;
    FirstWordOf(space, word, rest);
    AsciiBytes(word);
    var first := after[..|word|];
    assert IsAscii(first);
    AsciiBytes(first);
    CharsOfPrefix(first, after[|word|..]);
    assert after == first + after[|word|..];
  }

  /** The text that one turn leaves: the mark stands in for the cut, the remnant stays. */
  lemma TurnLeavesRemnant(before: string, space: string, word: string, rest: string, mark: string)
    requires IsAfterMarker(space, word, rest)
    ensures var token, at := TokenAfter(space + word + rest), |before|;
            BearerAt(before + (space + word + rest), mark, TokenAfter, at) ==
            if token.Chars? && token.n <= |space + word| then
              BearerGo(before + mark + (Remnant(space, word, token.n) + rest), at + |mark|)
            else BearerPanics
  {
    TokenRemnant(space, word, rest);
    var after := space + word + rest;
    var s := before + after;
    assert s[|before|..] == after;
    var token := TokenAfter(after);
    if token.Chars? {
      assert s[..|before|] == before && s[|before| + token.n..] == after[token.n..];
    }
  }

  // ---------------------------------------------------------------------------
  // When it returns
  // ---------------------------------------------------------------------------

  /** What is still to be searched after the first marker and its token. */
  datatype Rest = NoMarker | Broken | Left(text: string)

  function RestAfter(after: string, token: Tokenizer): (r: Rest)
    requires Proper(token)
    ensures r.Left? ==> |r.text| <= |after|
  {
    match token(after)
    case Short => Left(after)
    case InsideChar => Broken
    case Chars(n) => Left(after[n..])
  }

  function NextRest(rest: string, marker: string, token: Tokenizer): (r: Rest)
    requires marker != [] && Proper(token)
    ensures r.Left? ==> |r.text| < |rest|
  {
    match Find(rest, marker, 0)
    case None => NoMarker
    case Some(i) => RestAfter(rest[i + |marker|..], token)
  }

  /** Each token that the loop takes ends between two characters. No mark is involved. */
  predicate TokensEndBetweenChars(rest: string, marker: string, token: Tokenizer)
    requires marker != [] && Proper(token)
    decreases |rest|
  {
    match NextRest(rest, marker, token)
    case NoMarker => true
    case Broken => false
    case Left(text) => TokensEndBetweenChars(text, marker, token)
  }

  lemma {:induction false} FindInRest(s: string, rest: string, p: string, start: nat, from: nat)
    requires p != [] && start <= |s| && rest == s[start..]
    ensures Find(s, p, start + from) ==
            match Find(rest, p, from) case None => None case Some(i) => Some(start + i)
    decreases |rest| - from
  {
    if from + |p| <= |rest| {
      assert rest[from..from + |p|] == s[start + from..start + from + |p|];
      if !Occurs(rest, p, from) {
        FindInRest(s, rest, p, start, from + 1);
      }
    }
  }

  lemma RestSlice(s: string, rest: string, start: nat, k: nat)
    requires start <= |s| && rest == s[start..] && k <= |rest|
    ensures rest[k..] == s[start + k..]
  {
  }

  /** What a turn leaves to be searched is a part of the text as it was. */
  ghost predicate Leaves(turn: BearerTurn, rest: Rest) {
    match rest
    case NoMarker => turn == BearerDone
    case Broken => turn == BearerPanics
    case Left(text) => turn.BearerGo? && turn.next <= |turn.text| && turn.text[turn.next..] == text
  }

  lemma BearerAtLeaves(s: string, mark: string, token: Tokenizer, at: nat)
    requires at <= |s| && Proper(token)
    ensures Leaves(BearerAt(s, mark, token, at), RestAfter(s[at..], token))
  {
  }

  // The next two only unfold a definition, so that the lemmas after them need not.

  lemma NextBearerAt(s: string, marker: string, mark: string, token: Tokenizer, start: nat, i: nat, turn: BearerTurn)
    requires marker != [] && Proper(token) && Find(s, marker, start) == Some(i)
    requires turn == BearerAt(s, mark, token, i + |marker|)
    ensures NextBearer(s, marker, mark, token, start) == turn
  {
  }

  lemma NextRestAt(rest: string, marker: string, token: Tokenizer, i: nat, after: string, next: Rest)
    requires marker != [] && Proper(token) && Find(rest, marker, 0) == Some(i)
    requires after == rest[i + |marker|..] && next == RestAfter(after, token)
    ensures NextRest(rest, marker, token) == next
  {
  }

  lemma FoundLeavesRest(s: string, marker: string, mark: string, token: Tokenizer, start: nat, rest: string, i: nat,
                        at: nat)
    requires marker != [] && Proper(token) && Find(rest, marker, 0) == Some(i)
    requires Find(s, marker, start) == Some(start + i)
    requires at == start + i + |marker| && rest[i + |marker|..] == s[at..]
    ensures Leaves(NextBearer(s, marker, mark, token, start), NextRest(rest, marker, token))
  {
    var turn, next := BearerAt(s, mark, token, at), RestAfter(s[at..], token);
    BearerAtLeaves(s, mark, token, at);
    NextBearerAt(s, marker, mark, token, start, start + i, turn);
    NextRestAt(rest, marker, token, i, s[at..], next);
  }

  lemma TurnLeavesRest(s: string, marker: string, mark: string, token: Tokenizer, start: nat, rest: string, i: nat)
    requires marker != [] && Proper(token) && start <= |s| && rest == s[start..] && Find(rest, marker, 0) == Some(i)
    ensures Leaves(NextBearer(s, marker, mark, token, start), NextRest(rest, marker, token))
  {
    FindInRest(s, rest, marker, start, 0);
    RestSlice(s, rest, start, i + |marker|);
    FoundLeavesRest(s, marker, mark, token, start, rest, i, start + i + |marker|);
  }

  /** The loop returns exactly when every token it takes ends between two characters. */
  lemma {:induction false} BearerReturnsIff(s: string, marker: string, mark: string, token: Tokenizer, start: nat,
                                            rest: string)
    requires marker != [] && Proper(token) && start <= |s| && rest == s[start..]
    ensures ScanBearer(s, marker, mark, token, start).Some? <==> TokensEndBetweenChars(rest, marker, token)
    decreases |s| - start
  {
    var found := Find(rest, marker, 0);
    if found.None? {
      FindInRest(s, rest, marker, start, 0);
    } else {
      TurnLeavesRest(s, marker, mark, token, start, rest, found.value);
      var turn, next := NextBearer(s, marker, mark, token, start), NextRest(rest, marker, token);
      if turn.BearerGo? {
        BearerReturnsIff(turn.text, marker, mark, token, turn.next, next.text);
      }
    }
  }

  /** On ASCII text every count ends between two characters. */
  ghost predicate AsciiSafe(token: Tokenizer) {
    forall after :: IsAscii(after) ==> !token(after).InsideChar?
  }

  lemma AsciiTokens()
    ensures Proper(TokenAfter) && AsciiSafe(TokenAfter)
  {
    forall after | IsAscii(after) ensures !TokenAfter(after).InsideChar? {
      AsciiBytes(FirstWord(after));
      AsciiChars(after, ByteLength(FirstWord(after)));
    }
  }

  lemma AsciiTurn(s: string, marker: string, mark: string, token: Tokenizer, start: nat, turn: BearerTurn)
    requires marker != [] && Proper(token) && AsciiSafe(token) && IsAscii(s) && IsAscii(mark)
    requires turn == NextBearer(s, marker, mark, token, start)
    ensures !turn.BearerPanics? && (turn.BearerGo? ==> IsAscii(turn.text))
  {
    if turn != BearerDone {
      var at := Find(s, marker, start).value + |marker|;
      assert IsAscii(s[at..]);
    }
  }

  lemma {:induction false} AsciiBearerReturns(s: string, marker: string, mark: string, token: Tokenizer, start: nat)
    requires marker != [] && Proper(token) && AsciiSafe(token) && IsAscii(s) && IsAscii(mark)
    ensures ScanBearer(s, marker, mark, token, start).Some?
    decreases |s| - start
  {
    var turn := NextBearer(s, marker, mark, token, start);
    AsciiTurn(s, marker, mark, token, start, turn);
    if turn.BearerGo? {
      AsciiBearerReturns(turn.text, marker, mark, token, turn.next);
    }
  }

  lemma AsciiReturnsAtAll(s: string, mark: string)
    requires IsAscii(s) && IsAscii(mark)
    ensures ScanBearer(s, BEARER, mark, TokenAfter, 0).Some?
  {
    AsciiTokens();
    AsciiBearerReturns(s, BEARER, mark, TokenAfter, 0);
  }

  /** Beyond ASCII it may not: two spaces before a token of two-byte characters put the end of
      the range inside a character. */
  lemma BearerCanPanic(mark: string)
    ensures ScanBearer("Bearer  \U{00E9}\U{00E9}\U{00E9}\U{00E9}", BEARER, mark, TokenAfter, 0).None?
  {
    var s := "Bearer  \U{00E9}\U{00E9}\U{00E9}\U{00E9}";
    assert Occurs(s, BEARER, 0);
    var rest := s[7..];
    assert rest == " \U{00E9}\U{00E9}\U{00E9}\U{00E9}";
    var word := "\U{00E9}\U{00E9}\U{00E9}\U{00E9}";
    assert rest[1..] == word;
    assert Leading(word, true) == 0;
    assert Leading(rest, true) == 1;
    LeadingOfAccents();
    assert FirstWord(rest) == word;
    assert CharsInBytes(rest, 8).None?;
  }

  lemma LeadingOfAccents()
    ensures var word := "\U{00E9}\U{00E9}\U{00E9}\U{00E9}";
            Leading(word, false) == 4 && ByteLength(word) == 8 && CharsInBytes(word, 7).None?
  {
    var w4 := "\U{00E9}\U{00E9}\U{00E9}\U{00E9}";
    var w3, w2, w1 := w4[1..], w4[2..], w4[3..];
    assert w3[1..] == w2 && w2[1..] == w1 && w1[1..] == [];
    assert Leading(w1, false) == 1 && Leading(w2, false) == 2 && Leading(w3, false) == 3;
    assert ByteLength(w1) == 2 && ByteLength(w2) == 4 && ByteLength(w3) == 6;
    assert CharsInBytes(w1, 1).None? && CharsInBytes(w2, 3).None? && CharsInBytes(w3, 5).None?;
  }
}
