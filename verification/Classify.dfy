/** Whether a value may be printed, judged by its shape. The tests for shapes without a fixed
    prefix (entropy, host names, paths and so on) are parameters. */
module Classify {
  import opened Wrappers
  import opened Text
  import opened Redact

  datatype Verdict = Safe | Unsafe(shape: Shape)

  /** The shape tests that are left open. */
  datatype ShapeTests = ShapeTests(
    pemBlock: string -> bool,
    bearerToken: string -> bool,
    basicAuthUrl: string -> bool,
    jwt: string -> bool,
    hostname: string -> bool,
    fsPath: string -> bool,
    imageRef: string -> bool,
    commaList: string -> bool,
    highEntropy: string -> bool)

  // ---------------------------------------------------------------------------
  // Fixed shapes
  // ---------------------------------------------------------------------------

  predicate All(s: string, body: BodyClass) {
    forall k :: 0 <= k < |s| ==> body.Has(s[k])
  }

  /** A prefix, then at least `min` characters of the body class up to the end. */
  predicate PrefixThen(v: string, prefix: string, min: nat, body: BodyClass) {
    StartsWith(v, prefix) && |v| - |prefix| >= min && All(v[|prefix|..], body)
  }

  const GITHUB_PREFIXES: seq<string> := ["ghp_", "gho_", "ghs_", "ghu_", "ghr_"]
  const AWS_PREFIXES: seq<string> := ["AKIA", "ASIA"]
  const SLACK_PREFIXES: seq<string> := ["xoxb-", "xoxp-", "xoxa-", "xoxr-", "xoxs-"]

  predicate IsGithubToken(v: string) {
    exists p :: p in GITHUB_PREFIXES && PrefixThen(v, p, 36, Alnum)
  }

  predicate IsGithubFineGrainedPat(v: string) {
    PrefixThen(v, "github_pat_", 82, AlnumUnderscore)
  }

  predicate IsAwsAccessKeyId(v: string) {
    exists p :: p in AWS_PREFIXES && PrefixThen(v, p, 16, UpperDigit) && |v| == |p| + 16
  }

  predicate IsSlackToken(v: string) {
    exists p :: p in SLACK_PREFIXES && PrefixThen(v, p, 20, AlnumDash)
  }

  predicate IsBoolLiteral(v: string) {
    v in ["true", "false", "True", "False", "TRUE", "FALSE"]
  }

  predicate IsIntLiteral(v: string) {
    var digits := if StartsWith(v, "-") then v[1..] else v;
    digits != [] && |digits| <= 20 && forall c :: c in digits ==> '0' <= c <= '9'
  }

  /** `group/key`, each not empty, of letters, digits, '-', '_' and '.'. */
  predicate LooksLikeVaultGroupKey(rest: string) {
    match FirstIndex(rest, '/')
    case None => false
    case Some(i) =>
      && i > 0 && i + 1 < |rest| && '/' !in rest[i + 1..]
      && forall k :: 0 <= k < |rest| ==> IsAlnum(rest[k]) || rest[k] in "-_/."
  }

  predicate IsVaultReference(v: string) {
    StartsWith(v, "secret:") && LooksLikeVaultGroupKey(v[7..])
  }

  predicate IsFileReference(v: string) {
    && StartsWith(v, "file:") && |v| > 5 && Find(v[5..], "://", 0).None?
    && forall k :: 5 <= k < |v| ==> !IsWhitespace(v[k])
  }

  // ---------------------------------------------------------------------------
  // Embedded credentials
  // ---------------------------------------------------------------------------

  const DELIMS: string := " \t\n\r/,=:@\"'{}[]();?&<>|\\"

  /** The number of characters before the first delimiter. */
  function PieceLength(s: string, delims: string): (n: nat)
    ensures n <= |s|
  {
    if s == [] || s[0] in delims then 0 else 1 + PieceLength(s[1..], delims)
  }

  lemma {:induction false} PieceIsFirst(s: string, delims: string, k: nat)
    requires k <= |s| && (k == |s| || s[k] in delims) && forall l :: 0 <= l < k ==> s[l] !in delims
    ensures PieceLength(s, delims) == k
  {
    if k > 0 {
      PieceIsFirst(s[1..], delims, k - 1);
    }
  }

  /** `split` on any of the delimiters. */
  function SplitAtAny(s: string, delims: string): seq<string> {
    var n := PieceLength(s, delims);
    if n == |s| then [s] else [s[..n]] + SplitAtAny(s[n + 1..], delims)
  }

  predicate IsTokenEdge(c: char) {
    IsAlnum(c) || c == '_'
  }

  function TrimLeft(s: string): string {
    if s != [] && !IsTokenEdge(s[0]) then TrimLeft(s[1..]) else s
  }

  /** `trim_matches` of everything that is no letter, digit or underscore. */
  function TrimToken(s: string): string {
    var t := TrimLeft(s);
    TrimRight(t)
  }

  function TrimRight(s: string): string {
    if s != [] && !IsTokenEdge(s[|s| - 1]) then TrimRight(s[..|s| - 1]) else s
  }

  function NonEmptyTokens(pieces: seq<string>): seq<string> {
    if pieces == [] then []
    else (if TrimToken(pieces[0]) != [] then [TrimToken(pieces[0])] else []) + NonEmptyTokens(pieces[1..])
  }

  function TokenShape(token: string, scanEntropy: bool, tests: ShapeTests): Option<Shape> {
    if IsGithubToken(token) then Some(GithubToken)
    else if IsGithubFineGrainedPat(token) then Some(GithubFineGrainedPat)
    else if IsAwsAccessKeyId(token) then Some(AwsAccessKeyId)
    else if IsSlackToken(token) then Some(SlackToken)
    else if scanEntropy && tests.highEntropy(token) then Some(HighEntropy)
    else None
  }

  function FirstShape(tokens: seq<string>, scanEntropy: bool, tests: ShapeTests): Option<Shape> {
    if tokens == [] then None
    else if TokenShape(tokens[0], scanEntropy, tests).Some? then TokenShape(tokens[0], scanEntropy, tests)
    else FirstShape(tokens[1..], scanEntropy, tests)
  }

  function FindEmbeddedCredential(v: string, tests: ShapeTests): Option<Shape> {
    var tokens := NonEmptyTokens(SplitAtAny(v, DELIMS));
    FirstShape(tokens, |tokens| > 1, tests)
  }

  // ---------------------------------------------------------------------------
  // Classification
  // ---------------------------------------------------------------------------

  /** The shape found when the whole value is a credential. */
  function WholeShape(v: string, tests: ShapeTests): Option<Shape> {
    if tests.pemBlock(v) then Some(PemBlock)
    else if IsGithubToken(v) then Some(GithubToken)
    else if IsGithubFineGrainedPat(v) then Some(GithubFineGrainedPat)
    else if IsAwsAccessKeyId(v) then Some(AwsAccessKeyId)
    else if tests.bearerToken(v) then Some(BearerToken)
    else if tests.basicAuthUrl(v) then Some(BasicAuthUrl)
    else if tests.jwt(v) then Some(Jwt)
    else if IsSlackToken(v) then Some(SlackToken)
    else None
  }

  function ClassifyValue(value: string, tests: ShapeTests): Verdict {
    var v := Trim(value);
    if v == [] then Safe
    else if IsVaultReference(v) then Safe
    else if IsFileReference(v) then Safe
    else if IsBoolLiteral(v) || IsIntLiteral(v) then Safe
    else
      match WholeShape(v, tests)
      case Some(shape) => Unsafe(shape)
      case None =>
        match FindEmbeddedCredential(v, tests)
        case Some(shape) => Unsafe(shape)
        case None =>
          if tests.hostname(v) || tests.fsPath(v) || tests.imageRef(v) || tests.commaList(v) then Safe
          else if tests.highEntropy(v) then Unsafe(HighEntropy)
          else Safe
  }

  // ---------------------------------------------------------------------------
  // No embedded credential is classified safe
  // ---------------------------------------------------------------------------

  /** A credential whose two ends are token edges. A Slack token may end in a dash, which the
      scan trims off; GitHub tokens and AWS key ids cannot. */
  predicate IsCredential(t: string) {
    || IsGithubToken(t) || IsGithubFineGrainedPat(t) || IsAwsAccessKeyId(t)
    || (IsSlackToken(t) && IsTokenEdge(t[|t| - 1]))
  }

  /** `s[i..j]` stands between delimiters or the ends of the text. */
  predicate Bounded(s: string, i: nat, j: nat, delims: string) {
    && i <= j <= |s| && (i == 0 || s[i - 1] in delims) && (j == |s| || s[j] in delims)
  }

  predicate IsTokenChar(c: char) {
    IsTokenEdge(c) || c == '-'
  }

  /** What all prefixes have in common. */
  predicate GoodPrefix(p: string) {
    |p| >= 4 && p[0] in "gAx" && forall k :: 0 <= k < |p| ==> IsTokenChar(p[k])
  }

  lemma PrefixesAreGood(p: string)
    requires p in GITHUB_PREFIXES || p in AWS_PREFIXES || p in SLACK_PREFIXES || p == "github_pat_"
    ensures GoodPrefix(p)
  {
  }

  lemma PrefixThenChars(t: string, p: string, min: nat, body: BodyClass)
    requires PrefixThen(t, p, min, body) && GoodPrefix(p) && min >= 16
    requires body in {Alnum, AlnumUnderscore, UpperDigit, AlnumDash}
    ensures |t| >= 20 && t[0] in "gAx" && forall k :: 0 <= k < |t| ==> IsTokenChar(t[k])
    ensures body != AlnumDash ==> IsTokenEdge(t[|t| - 1])
  {
    assert t[0] == p[0];
    forall k | 0 <= k < |t| ensures IsTokenChar(t[k]) {
      assert if k < |p| then t[k] == p[k] else t[k] == t[|p|..][k - |p|];
    }
    assert t[|t| - 1] == t[|p|..][|t| - 1 - |p|];
  }

  lemma CredentialChars(t: string)
    requires IsCredential(t)
    ensures |t| >= 20 && t[0] in "gAx" && IsTokenEdge(t[|t| - 1]) && forall k :: 0 <= k < |t| ==> IsTokenChar(t[k])
  {
    var p, min, body := CredentialPrefix(t);
    PrefixesAreGood(p);
    PrefixThenChars(t, p, min, body);
  }

  lemma CredentialPrefix(t: string) returns (p: string, min: nat, body: BodyClass)
    requires IsCredential(t)
    ensures PrefixThen(t, p, min, body) && min >= 16 && body in {Alnum, AlnumUnderscore, UpperDigit, AlnumDash}
    ensures p in GITHUB_PREFIXES || p in AWS_PREFIXES || p in SLACK_PREFIXES || p == "github_pat_"
    ensures body == AlnumDash ==> IsTokenEdge(t[|t| - 1])
  {
    if IsGithubToken(t) {
      min, body := 36, Alnum;
      p :| p in GITHUB_PREFIXES && PrefixThen(t, p, 36, Alnum);
    } else if IsGithubFineGrainedPat(t) {
      p, min, body := "github_pat_", 82, AlnumUnderscore;
    } else if IsAwsAccessKeyId(t) {
      min, body := 16, UpperDigit;
      p :| p in AWS_PREFIXES && PrefixThen(t, p, 16, UpperDigit);
    } else {
      min, body := 20, AlnumDash;
      p :| p in SLACK_PREFIXES && PrefixThen(t, p, 20, AlnumDash);
    }
  }

  lemma FirstPiece(s: string, delims: string, j: nat)
    requires PieceLength(s, delims) == j
    ensures s[..j] in SplitAtAny(s, delims)
  {
    assert s[..|s|] == s;
  }

  lemma LaterPiece(s: string, delims: string, n: nat, t: string)
    requires PieceLength(s, delims) == n && n < |s| && t in SplitAtAny(s[n + 1..], delims)
    ensures t in SplitAtAny(s, delims)
  {
  }

  /** Nothing but `t` stands between the delimiters at its ends. */
  ghost predicate Stands(s: string, i: nat, j: nat, t: string, delims: string) {
    Bounded(s, i, j, delims) && s[i..j] == t && forall k :: 0 <= k < |t| ==> t[k] !in delims
  }

  /** Splitting isolates what stands between delimiters. */
  lemma {:induction false} BoundedIsPiece(s: string, i: nat, j: nat, t: string, delims: string)
    requires Stands(s, i, j, t, delims)
    ensures t in SplitAtAny(s, delims)
    decreases |s|
  {
    if i == 0 {
      assert forall k :: 0 <= k < j ==> s[k] == t[k];
      PieceIsFirst(s, delims, j);
      FirstPiece(s, delims, j);
    } else {
      PieceBefore(s, delims, i - 1);
      var n := PieceLength(s, delims);
      SuffixKeepsBounded(s, n + 1, i, j, delims);
      BoundedIsPiece(s[n + 1..], i - (n + 1), j - (n + 1), t, delims);
      LaterPiece(s, delims, n, t);
    }
  }

  lemma {:induction false} PieceBefore(s: string, delims: string, k: nat)
    requires k < |s| && s[k] in delims
    ensures PieceLength(s, delims) <= k
  {
    if k > 0 {
      PieceBefore(s[1..], delims, k - 1);
    }
  }

  lemma {:induction false} TokenKept(pieces: seq<string>, t: string)
    requires t in pieces && t != [] && IsTokenEdge(t[0]) && IsTokenEdge(t[|t| - 1])
    ensures t in NonEmptyTokens(pieces)
  {
    assert TrimToken(t) == t;
    if pieces[0] != t {
      TokenKept(pieces[1..], t);
    }
  }

  lemma {:induction false} ShapeFound(tokens: seq<string>, t: string, scanEntropy: bool, tests: ShapeTests)
    requires t in tokens && IsCredential(t)
    ensures FirstShape(tokens, scanEntropy, tests).Some?
  {
    if tokens[0] != t {
      ShapeFound(tokens[1..], t, scanEntropy, tests);
    }
  }

  lemma TokenCharIsNoDelim(c: char)
    requires IsTokenChar(c)
    ensures c !in DELIMS && !IsWhitespace(c)
  {
  }

  lemma EmbeddedIsFound(v: string, i: nat, j: nat, tests: ShapeTests)
    requires Bounded(v, i, j, DELIMS) && IsCredential(v[i..j])
    ensures FindEmbeddedCredential(v, tests).Some?
  {
    var t := v[i..j];
    CredentialChars(t);
    forall k | 0 <= k < |t| ensures t[k] !in DELIMS {
      TokenCharIsNoDelim(t[k]);
    }
    BoundedIsPiece(v, i, j, t, DELIMS);
    TokenKept(SplitAtAny(v, DELIMS), t);
    var tokens := NonEmptyTokens(SplitAtAny(v, DELIMS));
    ShapeFound(tokens, t, |tokens| > 1, tests);
  }

  lemma {:induction false} TrimStartKeeps(s: string, i: nat) returns (cut: nat)
    requires i < |s| && !IsWhitespace(s[i])
    ensures cut <= i && TrimStart(s) == s[cut..]
    decreases |s|
  {
    cut := 0;
    if IsWhitespace(s[0]) {
      var c := TrimStartKeeps(s[1..], i - 1);
      cut := c + 1;
    }
  }

  lemma {:induction false} TrimEndKeeps(s: string, i: nat) returns (end: nat)
    requires i < |s| && !IsWhitespace(s[i])
    ensures i < end <= |s| && TrimEnd(s) == s[..end]
    decreases |s|
  {
    end := |s|;
    if IsWhitespace(s[|s| - 1]) {
      end := TrimEndKeeps(s[..|s| - 1], i);
    }
  }

  /** Trimming keeps what stands between delimiters or ends, if it has no whitespace at its ends. */
  lemma TrimKeepsBounded(s: string, i: nat, j: nat, delims: string) returns (a: nat, b: nat)
    requires Bounded(s, i, j, delims) && i < j && !IsWhitespace(s[i]) && !IsWhitespace(s[j - 1])
    ensures a < b && Bounded(Trim(s), a, b, delims) && Trim(s)[a..b] == s[i..j]
  {
    var cut := TrimStartKeeps(s, i);
    a, b := i - cut, j - cut;
    SuffixKeepsBounded(s, cut, i, j, delims);
    var end := TrimEndKeeps(s[cut..], b - 1);
    PrefixKeepsBounded(s[cut..], end, a, b, delims);
  }

  lemma SuffixKeepsBounded(s: string, from: nat, i: nat, j: nat, delims: string)
    requires from <= i <= j <= |s| && Bounded(s, i, j, delims)
    ensures Bounded(s[from..], i - from, j - from, delims) && s[from..][i - from..j - from] == s[i..j]
    ensures i < j ==> s[from..][j - from - 1] == s[j - 1]
  {
    var t, part := s[from..], s[i..j];
    forall k | 0 <= k < |part| ensures t[i - from..j - from][k] == part[k] {
      assert t[i - from + k] == s[i + k];
    }
    assert t[i - from..j - from] == part;
  }

  lemma PrefixKeepsBounded(s: string, end: nat, i: nat, j: nat, delims: string)
    requires i <= j <= end <= |s| && Bounded(s, i, j, delims)
    ensures Bounded(s[..end], i, j, delims) && s[..end][i..j] == s[i..j]
  {
    assert s[..end][i..j] == s[i..j];
  }

  lemma NotALiteral(v: string, i: nat, j: nat)
    requires i <= j <= |v| && |v[i..j]| >= 20 && v[i] in "gAx"
    ensures !IsBoolLiteral(v) && !IsIntLiteral(v)
  {
    assert |v| >= 20 && v[i] != '-' && !('0' <= v[i] <= '9');
    if StartsWith(v, "-") {
      assert v[0] == '-' && v[i] == v[1..][i - 1];
      assert v[i] in v[1..];
    } else {
      assert v[i] in v;
    }
  }

  /** A value that contains a credential between scan delimiters or its ends, whatever is
      around it and whatever the open tests say, is classified safe exactly when it is a vault
      reference or a file reference. */
  lemma EmbeddedCredentialIsUnsafe(value: string, i: nat, j: nat, tests: ShapeTests)
    requires Bounded(value, i, j, DELIMS) && IsCredential(value[i..j])
    ensures ClassifyValue(value, tests).Safe? <==> IsVaultReference(Trim(value)) || IsFileReference(Trim(value))
  {
    var t := value[i..j];
    CredentialChars(t);
    assert value[i] == t[0] && value[j - 1] == t[|t| - 1];
    TokenCharIsNoDelim(value[i]);
    TokenCharIsNoDelim(value[j - 1]);
    var a, b := TrimKeepsBounded(value, i, j, DELIMS);
    var v := Trim(value);
    assert v[a] == v[a..b][0];
    NotALiteral(v, a, b);
    EmbeddedIsFound(v, a, b, tests);
    VerdictWhenFound(value, v, tests);
  }

  lemma VerdictWhenFound(value: string, v: string, tests: ShapeTests)
    requires v == Trim(value) && v != [] && !IsBoolLiteral(v) && !IsIntLiteral(v)
    requires FindEmbeddedCredential(v, tests).Some?
    ensures ClassifyValue(value, tests).Safe? <==> IsVaultReference(v) || IsFileReference(v)
  {
  }
}
