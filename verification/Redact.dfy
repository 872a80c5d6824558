/** Free-text redaction: find-and-replace over a changing string, then a pass over words.
    Text is a sequence of characters; byte lengths enter only where the source measures them. */
module Redact {
  import opened Wrappers

  // ---------------------------------------------------------------------------
  // Shapes, placeholders and the marker table
  // ---------------------------------------------------------------------------

  datatype Shape =
    | GithubToken | GithubFineGrainedPat | AwsAccessKeyId | PemBlock | Jwt
    | BearerToken | BasicAuthUrl | SlackToken | RunnerTokenEnv | HighEntropy
  {
    function Name(): string {
      match this
      case GithubToken => "github_token"
      case GithubFineGrainedPat => "github_fine_grained_pat"
      case AwsAccessKeyId => "aws_access_key_id"
      case PemBlock => "pem_block"
      case Jwt => "jwt"
      case BearerToken => "bearer_token"
      case BasicAuthUrl => "basic_auth_url"
      case SlackToken => "slack_token"
      case RunnerTokenEnv => "runner_token_env"
      case HighEntropy => "high_entropy"
    }

    function Placeholder(): string {
      "***REDACTED(" + Name() + ")***"
    }
  }

  datatype BodyClass = Alnum | AlnumUnderscore | UpperDigit | AlnumDash | RunnerToken {
    predicate Has(c: char) {
      match this
      case Alnum => IsAlnum(c)
      case AlnumUnderscore => IsAlnum(c) || c == '_'
      case UpperDigit => 'A' <= c <= 'Z' || '0' <= c <= '9'
      case AlnumDash => IsAlnum(c) || c == '-'
      case RunnerToken => IsAlnum(c) || c == '_' || c == '-' || c == '.'
    }
  }

  predicate IsAlnum(c: char) {
    'A' <= c <= 'Z' || 'a' <= c <= 'z' || '0' <= c <= '9'
  }

  /** One call of `redact_by_marker`: prefixes, shortest body, longest body taken, body
      characters, and the text put in place of a match. */
  datatype Marker = Marker(prefixes: seq<string>, min: nat, cap: nat, body: BodyClass, mark: string)

  const MARKERS: seq<Marker> := [
    Marker(["ghp_", "gho_", "ghs_", "ghu_", "ghr_"], 36, 200, Alnum, GithubToken.Placeholder()),
    Marker(["github_pat_"], 82, 200, AlnumUnderscore, GithubFineGrainedPat.Placeholder()),
    Marker(["AKIA", "ASIA"], 16, 40, UpperDigit, AwsAccessKeyId.Placeholder()),
    Marker(["xoxb-", "xoxp-", "xoxa-", "xoxr-", "xoxs-"], 20, 200, AlnumDash, SlackToken.Placeholder()),
    Marker(["RUNNER_TOKEN="], 1, 200, RunnerToken, RunnerTokenEnv.Placeholder())
  ]

  // ---------------------------------------------------------------------------
  // Searching
  // ---------------------------------------------------------------------------

  predicate Occurs(s: string, p: string, i: nat) {
    i + |p| <= |s| && s[i..i + |p|] == p
  }

  /** `str::find` from `start`. */
  function Find(s: string, p: string, start: nat): (r: Option<nat>)
    ensures r.Some? ==> start <= r.value && r.value + |p| <= |s|
    decreases |s| - start
  {
    if start + |p| > |s| then None
    else if Occurs(s, p, start) then Some(start)
    else Find(s, p, start + 1)
  }

  /** It is the first occurrence at or after `start`. */
  lemma {:induction false} FindIsFirst(s: string, p: string, start: nat)
    ensures var r := Find(s, p, start);
            && (r.Some? ==> Occurs(s, p, r.value))
            && (forall k :: start <= k < (if r.Some? then r.value else |s| + 1) ==> !Occurs(s, p, k))
    decreases |s| - start
  {
    if start + |p| <= |s| && !Occurs(s, p, start) {
      FindIsFirst(s, p, start + 1);
    }
  }

  /** Length of the longest run of body characters at the start. */
  function Run(s: string, body: BodyClass): (n: nat)
    ensures n <= |s|
  {
    if s == [] || !body.Has(s[0]) then 0 else 1 + Run(s[1..], body)
  }

  lemma {:induction false} RunIsLongest(s: string, body: BodyClass)
    ensures var n := Run(s, body);
            && (forall k :: 0 <= k < n ==> body.Has(s[k]))
            && (n < |s| ==> !body.Has(s[n]))
  {
    if s != [] && body.Has(s[0]) {
      RunIsLongest(s[1..], body);
    }
  }

  function BodyLength(s: string, min: nat, cap: nat, body: BodyClass): Option<nat> {
    var run := Run(s, body);
    var taken := if run < cap then run else cap;
    if taken >= min then Some(taken) else None
  }

  /** The counting loop that measures a credential body. */
  method MaximalRunLen(s: string, min: nat, cap: nat, body: BodyClass) returns (r: Option<nat>)
    ensures r == BodyLength(s, min, cap, body)
  {
    var taken := 0;
    while taken < |s| && taken < cap && body.Has(s[taken])
      invariant 0 <= taken <= |s| && taken <= cap
      invariant forall k :: 0 <= k < taken ==> body.Has(s[k])
      decreases |s| - taken
    {
      taken := taken + 1;
    }
    RunIsLongest(s, body);
    r := if taken >= min then Some(taken) else None;
  }

  /** A credential: the prefix at `i`, followed by at least `min` body characters. */
  predicate MatchAt(s: string, p: string, m: Marker, i: nat) {
    && Occurs(s, p, i)
    && i + |p| + m.min <= |s|
    && forall k :: i + |p| <= k < i + |p| + m.min ==> m.body.Has(s[k])
  }

  ghost predicate Clean(s: string, p: string, m: Marker) {
    forall i: nat :: !MatchAt(s, p, m, i)
  }

  lemma BodyLengthMeansMatch(s: string, p: string, m: Marker, i: nat)
    requires Occurs(s, p, i) && m.min <= m.cap
    ensures BodyLength(s[i + |p|..], m.min, m.cap, m.body).Some? <==> MatchAt(s, p, m, i)
  {
    var rest := s[i + |p|..];
    var run := Run(rest, m.body);
    RunIsLongest(rest, m.body);
    if run >= m.min {
      assert forall k :: i + |p| <= k < i + |p| + m.min ==> s[k] == rest[k - (i + |p|)];
    } else {
      assert run < |rest| ==> rest[run] == s[i + |p| + run];
    }
  }

  /** `replace_range(i..end, mark)`. */
  function Splice(s: string, i: nat, end: nat, mark: string): (t: string)
    requires i <= end <= |s|
    ensures |t| == |s| - (end - i) + |mark|
  {
    s[..i] + mark + s[end..]
  }

  // ---------------------------------------------------------------------------
  // One marker pass
  // ---------------------------------------------------------------------------

  /** What one turn of the loop leaves behind: the text and the next search position. */
  datatype Turn = Done | Go(text: string, next: nat)

  /** The turn taken at an occurrence of the prefix: replace the credential, or step over. */
  function TurnAt(s: string, p: string, m: Marker, i: nat): (turn: Turn)
    requires p != [] && i + |p| <= |s|
    ensures turn.Go? && |turn.text| - turn.next < |s| - i
  {
    match BodyLength(s[i + |p|..], m.min, m.cap, m.body)
    case Some(n) => Go(Splice(s, i, i + |p| + n, m.mark), i + |m.mark|)
    case None => Go(s, i + |p|)
  }

  function NextTurn(s: string, p: string, m: Marker, start: nat): (turn: Turn)
    requires p != []
    ensures turn.Go? ==> |turn.text| - turn.next < |s| - start
  {
    match Find(s, p, start)
    case None => Done
    case Some(i) => TurnAt(s, p, m, i)
  }

  /** The search-and-replace loop for one prefix, from position `start`. */
  function ScanPrefix(s: string, p: string, m: Marker, start: nat): string
    requires p != []
    decreases |s| - start
  {
    match NextTurn(s, p, m, start)
    case Done => s
    case Go(text, next) => ScanPrefix(text, p, m, next)
  }

  predicate NonEmptyPrefixes(prefixes: seq<string>) {
    forall j :: 0 <= j < |prefixes| ==> prefixes[j] != []
  }

  function ScanPrefixes(s: string, prefixes: seq<string>, m: Marker): string
    requires NonEmptyPrefixes(prefixes)
    decreases |prefixes|
  {
    if prefixes == [] then s
    else ScanPrefixes(ScanPrefix(s, prefixes[0], m, 0), prefixes[1..], m)
  }

  /** The body of the inner loop: find the prefix, measure what follows, edit the text. */
  method RedactOnce(text: string, p: string, m: Marker, start: nat) returns (turn: Turn)
    requires p != []
    ensures turn == NextTurn(text, p, m, start)
  {
    var found := Find(text, p, start);
    if found.None? {
      return Done;
    }
    var i := found.value;
    var bodyStart := i + |p|;
    var bodyLen := MaximalRunLen(text[bodyStart..], m.min, m.cap, m.body);
    if bodyLen.Some? {
      var end := bodyStart + bodyLen.value;
      turn := Go(Splice(text, i, end, m.mark), i + |m.mark|);
    } else {
      turn := Go(text, bodyStart);
    }
  }

  /** The inner loop: the text is edited in place while the search position moves on. It ends
      although the text may grow, because what is left to search always shrinks. */
  method RedactPrefix(text: string, p: string, m: Marker) returns (out: string)
    requires p != []
    ensures out == ScanPrefix(text, p, m, 0)
  {
    out := text;
    var startSearch: nat := 0;
    while startSearch < |out|
      invariant ScanPrefix(out, p, m, startSearch) == ScanPrefix(text, p, m, 0)
      decreases |out| - startSearch
    {
      var turn := RedactOnce(out, p, m, startSearch);
      if turn.Done? {
        return;
      }
      out, startSearch := turn.text, turn.next;
    }
  }

  method RedactByMarker(text: string, m: Marker) returns (out: string)
    requires NonEmptyPrefixes(m.prefixes)
    ensures out == ScanPrefixes(text, m.prefixes, m)
  {
    out := text;
    for j := 0 to |m.prefixes|
      invariant ScanPrefixes(out, m.prefixes[j..], m) == ScanPrefixes(text, m.prefixes, m)
    {
      assert m.prefixes[j..][1..] == m.prefixes[j + 1..];
      out := RedactPrefix(out, m.prefixes[j], m);
    }
  }

  // ---------------------------------------------------------------------------
  // What makes a replacement safe
  // ---------------------------------------------------------------------------

  /** A text that can be put in place of anything without completing a credential: no
      prefix character or body character reaches across its ends, and none is inside. */
  ghost predicate Inert(mark: string, p: string, m: Marker) {
    && mark != [] && mark[0] == '*' && mark[|mark| - 1] == '*'
    && !m.body.Has('*') && '*' !in p && p != []
    && forall i: nat :: !Occurs(mark, p, i)
  }

  /** A match found after a replacement was there before it. */
  lemma SpliceKeeps(s: string, x: nat, y: nat, mark: string, p: string, m: Marker, i: nat)
    requires x <= y <= |s| && Inert(mark, p, m) && MatchAt(Splice(s, x, y, mark), p, m, i)
    ensures (i < x && MatchAt(s, p, m, i))
         || (i >= x + |mark| && MatchAt(s, p, m, i - (x + |mark|) + y))
  {
    var t := Splice(s, x, y, mark);
    var end := i + |p| + m.min;
    NoStarInMatch(t, p, m, i);
    assert t[x] == '*' && t[x + |mark| - 1] == '*';
    if end <= x {
      assert s[i..i + |p|] == t[i..i + |p|];
      assert forall k :: i <= k < end ==> s[k] == t[k];
    } else if i >= x + |mark| {
      var d := y - (x + |mark|);
      assert forall k :: i + d <= k < |s| ==> s[k] == t[k - d];
      assert s[i + d..i + d + |p|] == t[i..i + |p|];
    } else {
      assert mark[i - x..i - x + |p|] == t[i..i + |p|];
      assert Occurs(mark, p, i - x);
      assert false;
    }
  }

  lemma NoStarInMatch(t: string, p: string, m: Marker, i: nat)
    requires MatchAt(t, p, m, i) && !m.body.Has('*') && '*' !in p
    ensures forall k :: i <= k < i + |p| + m.min ==> t[k] != '*'
  {
    forall k | i <= k < i + |p| ensures t[k] != '*' {
      assert t[k] == t[i..i + |p|][k - i];
    }
  }

  lemma SpliceKeepsClean(s: string, x: nat, y: nat, mark: string, p: string, m: Marker)
    requires x <= y <= |s| && Inert(mark, p, m) && Clean(s, p, m)
    ensures Clean(Splice(s, x, y, mark), p, m)
  {
    forall i: nat ensures !MatchAt(Splice(s, x, y, mark), p, m, i) {
      if MatchAt(Splice(s, x, y, mark), p, m, i) {
        SpliceKeeps(s, x, y, mark, p, m, i);
      }
    }
  }

  /** Where the prefix overlaps itself, the characters by which the second occurrence
      sticks out are body characters; so stepping over the whole prefix loses nothing. */
  ghost predicate StepSafe(p: string, m: Marker) {
    forall d :: 0 < d < |p| && OverlapsItself(p, d) ==> forall k :: |p| - d <= k < |p| ==> m.body.Has(p[k])
  }

  predicate OverlapsItself(p: string, d: nat)
    requires d <= |p|
  {
    p[d..] == p[..|p| - d]
  }

  lemma SkippedIsNoMatch(s: string, p: string, m: Marker, i: nat, j: nat)
    requires StepSafe(p, m) && Occurs(s, p, i) && i < j < i + |p| && MatchAt(s, p, m, j)
    ensures MatchAt(s, p, m, i)
  {
    var d := j - i;
    var first, second := s[i..i + |p|], s[j..j + |p|];
    assert OverlapsItself(p, d) by {
      assert first[d..] == s[j..i + |p|] == second[..|p| - d];
    }
    forall k | i + |p| <= k < i + |p| + m.min ensures m.body.Has(s[k]) {
      if k < j + |p| {
        assert s[k] == second[k - j] == p[k - j];
      }
    }
  }

  // ---------------------------------------------------------------------------
  // Results about one pass, for any marker that meets the conditions
  // ---------------------------------------------------------------------------

  /** Nothing matches before `start`. */
  ghost predicate CleanBefore(s: string, p: string, m: Marker, start: nat) {
    forall k: nat :: k < start ==> !MatchAt(s, p, m, k)
  }

  lemma CleanBeforeSplice(s: string, p: string, m: Marker, i: nat, end: nat)
    requires i <= end <= |s| && Inert(m.mark, p, m) && CleanBefore(s, p, m, i)
    ensures CleanBefore(Splice(s, i, end, m.mark), p, m, i + |m.mark|)
  {
    var t := Splice(s, i, end, m.mark);
    forall k: nat | k < i + |m.mark| ensures !MatchAt(t, p, m, k) {
      if MatchAt(t, p, m, k) {
        SpliceKeeps(s, i, end, m.mark, p, m, k);
      }
    }
  }

  lemma CleanBeforeStep(s: string, p: string, m: Marker, i: nat)
    requires StepSafe(p, m) && Occurs(s, p, i) && !MatchAt(s, p, m, i) && CleanBefore(s, p, m, i)
    ensures CleanBefore(s, p, m, i + |p|)
  {
    forall k: nat | k < i + |p| ensures !MatchAt(s, p, m, k) {
      if i < k && MatchAt(s, p, m, k) {
        SkippedIsNoMatch(s, p, m, i, k);
      }
    }
  }

  /** The conditions a prefix and its replacement must meet for one pass to be complete. */
  ghost predicate Sound(p: string, m: Marker) {
    Inert(m.mark, p, m) && StepSafe(p, m) && m.min <= m.cap
  }

  /** The turn is taken at the first occurrence, and replaces it if a credential is there. */
  lemma TurnFacts(s: string, p: string, m: Marker, start: nat, turn: Turn) returns (i: nat, end: nat)
    requires p != [] && m.min <= m.cap && turn == NextTurn(s, p, m, start)
    ensures turn.Done? ==> forall k :: start <= k ==> !Occurs(s, p, k)
    ensures turn.Go? ==> start <= i && Occurs(s, p, i) && forall k :: start <= k < i ==> !Occurs(s, p, k)
    ensures turn.Go? && !MatchAt(s, p, m, i) ==> turn == Go(s, i + |p|)
    ensures turn.Go? && MatchAt(s, p, m, i) ==> i <= end <= |s| && turn == Go(Splice(s, i, end, m.mark), i + |m.mark|)
  {
    FindIsFirst(s, p, start);
    i, end := 0, 0;
    if turn.Go? {
      i := Find(s, p, start).value;
      BodyLengthMeansMatch(s, p, m, i);
      var taken := BodyLength(s[i + |p|..], m.min, m.cap, m.body);
      end := if taken.Some? then i + |p| + taken.value else i;
    }
  }

  /** After a turn of the loop nothing matches before the new search position. */
  lemma TurnKeepsCleanBefore(s: string, p: string, m: Marker, start: nat, turn: Turn)
    requires Sound(p, m) && CleanBefore(s, p, m, start) && turn == NextTurn(s, p, m, start)
    ensures turn.Done? ==> Clean(s, p, m)
    ensures turn.Go? ==> CleanBefore(turn.text, p, m, turn.next)
  {
    var i, end := TurnFacts(s, p, m, start, turn);
    if turn.Go? {
      assert CleanBefore(s, p, m, i);
      if MatchAt(s, p, m, i) {
        CleanBeforeSplice(s, p, m, i, end);
      } else {
        CleanBeforeStep(s, p, m, i);
      }
    }
  }

  lemma {:induction false} ScanCleans(s: string, p: string, m: Marker, start: nat)
    requires Sound(p, m) && CleanBefore(s, p, m, start)
    ensures Clean(ScanPrefix(s, p, m, start), p, m)
    decreases |s| - start
  {
    var turn := NextTurn(s, p, m, start);
    TurnKeepsCleanBefore(s, p, m, start, turn);
    if turn.Go? {
      ScanCleans(turn.text, p, m, turn.next);
    }
  }

  lemma TurnKeepsClean(s: string, p: string, m: Marker, start: nat, turn: Turn, q: string, n: Marker)
    requires p != [] && Inert(m.mark, q, n) && Clean(s, q, n)
    requires turn == NextTurn(s, p, m, start) && turn.Go?
    ensures Clean(turn.text, q, n)
  {
    var bodyStart := Find(s, p, start).value + |p|;
    var taken := BodyLength(s[bodyStart..], m.min, m.cap, m.body);
    if taken.Some? {
      SpliceKeepsClean(s, bodyStart - |p|, bodyStart + taken.value, m.mark, q, n);
    }
  }

  lemma {:induction false} ScanKeepsClean(s: string, p: string, m: Marker, start: nat, q: string, n: Marker)
    requires p != [] && Inert(m.mark, q, n) && Clean(s, q, n)
    ensures Clean(ScanPrefix(s, p, m, start), q, n)
    decreases |s| - start
  {
    var turn := NextTurn(s, p, m, start);
    if turn.Go? {
      TurnKeepsClean(s, p, m, start, turn, q, n);
      ScanKeepsClean(turn.text, p, m, turn.next, q, n);
    }
  }

  lemma {:induction false} ScanOfClean(s: string, p: string, m: Marker, start: nat)
    requires p != [] && m.min <= m.cap && Clean(s, p, m)
    ensures ScanPrefix(s, p, m, start) == s
    decreases |s| - start
  {
    var turn := NextTurn(s, p, m, start);
    var i, end := TurnFacts(s, p, m, start, turn);
    if turn.Go? {
      ScanOfClean(s, p, m, turn.next);
    }
  }

  // ---------------------------------------------------------------------------
  // What one pass leaves untouched
  // ---------------------------------------------------------------------------

  /** A replaced span: the prefix, then the longest run of body characters, up to the cap. */
  ghost predicate IsSpan(s: string, i: nat, end: nat, p: string, m: Marker) {
    && Occurs(s, p, i) && i + |p| <= end <= |s|
    && m.min <= end - (i + |p|) <= m.cap
    && (forall k :: i + |p| <= k < end ==> m.body.Has(s[k]))
    && (end - (i + |p|) == m.cap || end == |s| || !m.body.Has(s[end]))
  }

  /** Replacements made one after the other, each to the right of the mark the last one left. */
  datatype Edits = NoEdit | Edit(i: nat, end: nat, rest: Edits) {
    /** Each replaces one credential of the text, at or after `start`. */
    ghost predicate ReplaceSpans(s: string, start: nat, p: string, m: Marker) {
      match this
      case NoEdit => true
      case Edit(i, end, rest) =>
        && start <= i && IsSpan(s, i, end, p, m)
        && rest.ReplaceSpans(Splice(s, i, end, m.mark), i + |m.mark|, p, m)
    }

    ghost function Apply(s: string, start: nat, p: string, m: Marker): string
      requires ReplaceSpans(s, start, p, m)
    {
      match this
      case NoEdit => s
      case Edit(i, end, rest) => rest.Apply(Splice(s, i, end, m.mark), i + |m.mark|, p, m)
    }
  }

  lemma TurnReplacesSpan(s: string, p: string, m: Marker, start: nat, turn: Turn, rest: Edits) returns (edits: Edits)
    requires p != [] && turn == NextTurn(s, p, m, start) && turn.Go?
    requires rest.ReplaceSpans(turn.text, turn.next, p, m)
    ensures edits.ReplaceSpans(s, start, p, m)
    ensures edits.Apply(s, start, p, m) == rest.Apply(turn.text, turn.next, p, m)
  {
    var i := Find(s, p, start).value;
    var taken := BodyLength(s[i + |p|..], m.min, m.cap, m.body);
    if taken.Some? {
      var end := i + |p| + taken.value;
      FindIsFirst(s, p, start);
      SpanAt(s, p, m, i, end);
      edits := Edit(i, end, rest);
      EditAt(s, start, i, end, turn.text, p, m, rest);
    } else {
      edits := rest;
      EarlierStart(rest, s, start, i + |p|, p, m);
    }
  }

  lemma EditAt(s: string, start: nat, i: nat, end: nat, t: string, p: string, m: Marker, rest: Edits)
    requires start <= i && IsSpan(s, i, end, p, m) && t == Splice(s, i, end, m.mark)
    requires rest.ReplaceSpans(t, i + |m.mark|, p, m)
    ensures Edit(i, end, rest).ReplaceSpans(s, start, p, m)
    ensures Edit(i, end, rest).Apply(s, start, p, m) == rest.Apply(t, i + |m.mark|, p, m)
  {
  }

  lemma EarlierStart(edits: Edits, s: string, start: nat, later: nat, p: string, m: Marker)
    requires start <= later && edits.ReplaceSpans(s, later, p, m)
    ensures edits.ReplaceSpans(s, start, p, m) && edits.Apply(s, start, p, m) == edits.Apply(s, later, p, m)
  {
  }

  /** A pass does nothing but replace credentials by the mark: all other text is kept. */
  lemma {:induction false} ScanOnlyReplacesSpans(s: string, p: string, m: Marker, start: nat) returns (edits: Edits)
    requires p != []
    ensures edits.ReplaceSpans(s, start, p, m) && edits.Apply(s, start, p, m) == ScanPrefix(s, p, m, start)
    decreases |s| - start
  {
    var turn := NextTurn(s, p, m, start);
    edits := NoEdit;
    if turn.Go? {
      var rest := ScanOnlyReplacesSpans(turn.text, p, m, turn.next);
      edits := TurnReplacesSpan(s, p, m, start, turn, rest);
    }
  }

  lemma SpanAt(s: string, p: string, m: Marker, i: nat, end: nat)
    requires Occurs(s, p, i) && i + |p| <= end
    requires BodyLength(s[i + |p|..], m.min, m.cap, m.body) == Some(end - (i + |p|))
    ensures IsSpan(s, i, end, p, m)
  {
    var rest := s[i + |p|..];
    RunIsLongest(rest, m.body);
    assert forall k :: i + |p| <= k < |s| ==> s[k] == rest[k - (i + |p|)];
  }
}
