/** The fourteen prefixes of the marker table meet the conditions of a complete pass. */
module MarkerTable {
  import opened Redact

  /** Four characters of the prefixes never occur, and 'g' is followed by 'r', by "h_", or by
      'i' with no 'p' six places on: so none of the fourteen prefixes is inside. */
  predicate NoPrefixInside(s: string) {
    forall k :: 0 <= k < |s| ==> HarmlessAt(s, k)
  }

  predicate HarmlessAt(s: string, k: nat)
    requires k < |s|
  {
    && s[k] != '-' && s[k] != 'K' && s[k] != 'S' && s[k] != '='
    && (s[k] == 'g' ==> k + 1 < |s|)
    && (s[k] == 'g' && s[k + 1] == 'h' ==> k + 2 < |s| && s[k + 2] == '_')
    && (s[k] == 'g' && s[k + 1] == 'i' ==> k + 7 < |s| && s[k + 7] != 'p')
  }

  lemma NoPrefixInConcat(a: string, b: string)
    requires NoPrefixInside(a) && NoPrefixInside(b)
    ensures NoPrefixInside(a + b)
  {
    forall k: nat | k < |a + b| ensures HarmlessAt(a + b, k) {
      if k < |a| {
        assert HarmlessAt(a, k);
      } else {
        assert HarmlessAt(b, k - |a|);
      }
    }
  }

  lemma NameHasNoPrefix(shape: Shape)
    ensures NoPrefixInside(shape.Name())
  {
    match shape
    case GithubToken => GithubName();
    case GithubFineGrainedPat => PatName();
    case BearerToken => TokenNames();
    case SlackToken => TokenNames();
    case RunnerTokenEnv => RunnerName();
    case AwsAccessKeyId => AwsName();
    case BasicAuthUrl => BasicName();
    case HighEntropy => EntropyName();
    case PemBlock => ShortNames();
    case Jwt => ShortNames();
  }

  lemma GithubName()
    ensures NoPrefixInside("github_token")
  {
  }

  lemma PatName()
    ensures NoPrefixInside("github_fine_grained_pat")
  {
  }

  lemma TokenNames()
    ensures NoPrefixInside("bearer_token") && NoPrefixInside("slack_token")
  {
  }

  lemma RunnerName()
    ensures NoPrefixInside("runner_token_env")
  {
  }

  lemma AwsName()
    ensures NoPrefixInside("aws_access_key_id")
  {
  }

  lemma BasicName()
    ensures NoPrefixInside("basic_auth_url")
  {
  }

  lemma EntropyName()
    ensures NoPrefixInside("high_entropy")
  {
  }

  lemma ShortNames()
    ensures NoPrefixInside("pem_block") && NoPrefixInside("jwt")
  {
  }

  lemma PlaceholderHasNoPrefix(shape: Shape)
    ensures var mark := shape.Placeholder(); NoPrefixInside(mark) && mark[0] == '*' && mark[|mark| - 1] == '*'
  {
    NameHasNoPrefix(shape);
    NoPrefixInConcat("***REDACTED(", shape.Name());
    NoPrefixInConcat("***REDACTED(" + shape.Name(), ")***");
  }

  // ---------------------------------------------------------------------------
  // The prefixes
  // ---------------------------------------------------------------------------

  predicate InTable(p: string, m: Marker) {
    m in MARKERS && p in m.prefixes
  }

  /** Each prefix holds a character or pair that a harmless text cannot complete. */
  lemma PrefixNotInside(p: string, m: Marker, mark: string, i: nat)
    requires InTable(p, m) && NoPrefixInside(mark)
    ensures !Occurs(mark, p, i)
  {
    if i + |p| <= |mark| {
      var w := mark[i..i + |p|];
      assert forall t :: 0 <= t < |p| ==> w[t] == mark[i + t] && HarmlessAt(mark, i + t);
      if m == MARKERS[0] {
        assert p[0] == 'g' && p[1] == 'h' && p[2] != '_';
        assert w[0] == 'g' && w[1] == 'h' ==> w[2] == '_';
      } else if m == MARKERS[1] {
        assert p[0] == 'g' && p[1] == 'i' && p[7] == 'p';
        assert w[0] == 'g' && w[1] == 'i' ==> w[7] != 'p';
      } else if m == MARKERS[2] {
        assert p[1] != w[1];
      } else if m == MARKERS[3] {
        assert p[4] != w[4];
      } else {
        assert p[12] != w[12];
      }
    }
  }

  lemma PrefixIsPlain(p: string, m: Marker)
    requires InTable(p, m)
    ensures p != [] && '*' !in p && m.min <= m.cap && m.min >= 1 && !m.body.Has('*')
  {
  }

  lemma HarmlessIsInert(mark: string, p: string, m: Marker)
    requires InTable(p, m) && NoPrefixInside(mark) && mark != [] && mark[0] == '*' && mark[|mark| - 1] == '*'
    ensures Inert(mark, p, m)
  {
    PrefixIsPlain(p, m);
    forall i: nat ensures !Occurs(mark, p, i) {
      PrefixNotInside(p, m, mark, i);
    }
  }

  /** Where the prefix could begin again inside itself, its second character does not fit. */
  predicate NeverRestarts(p: string) {
    forall k :: 1 <= k < |p| && p[k] == p[0] ==> k + 1 < |p| && p[k + 1] != p[1]
  }

  lemma NoOverlap(p: string, d: nat)
    requires NeverRestarts(p) && 0 < d < |p|
    ensures !OverlapsItself(p, d)
  {
    if p[d] != p[0] {
      assert p[d..][0] != p[..|p| - d][0];
    } else {
      assert p[d..][1] != p[..|p| - d][1];
    }
  }

  lemma NoRestartIsStepSafe(p: string, m: Marker)
    requires NeverRestarts(p)
    ensures StepSafe(p, m)
  {
    forall d | 0 < d < |p| ensures !OverlapsItself(p, d) {
      NoOverlap(p, d);
    }
  }

  lemma GithubNeverRestarts(p: string)
    requires p in ["ghp_", "gho_", "ghs_", "ghu_", "ghr_"]
    ensures NeverRestarts(p)
  {
  }

  lemma PatNeverRestarts()
    ensures NeverRestarts("github_pat_")
  {
  }

  lemma SlackNeverRestarts(p: string)
    requires p in ["xoxb-", "xoxp-", "xoxa-", "xoxr-", "xoxs-"]
    ensures NeverRestarts(p)
  {
  }

  lemma RunnerNeverRestarts()
    ensures NeverRestarts("RUNNER_TOKEN=")
  {
  }

  /** "AKIA" and "ASIA" overlap themselves in their last letter; but all their letters are body characters. */
  lemma AwsIsStepSafe(p: string, m: Marker)
    requires p in ["AKIA", "ASIA"] && m.body == UpperDigit
    ensures StepSafe(p, m)
  {
  }

  lemma PrefixIsStepSafe(p: string, m: Marker)
    requires InTable(p, m)
    ensures StepSafe(p, m)
  {
    if m == MARKERS[0] {
      GithubNeverRestarts(p);
    } else if m == MARKERS[1] {
      PatNeverRestarts();
    } else if m == MARKERS[2] {
      AwsIsStepSafe(p, m);
    } else if m == MARKERS[3] {
      SlackNeverRestarts(p);
    } else {
      RunnerNeverRestarts();
    }
    if m != MARKERS[2] {
      NoRestartIsStepSafe(p, m);
    }
  }

  lemma MarkIsPlaceholder(m: Marker) returns (shape: Shape)
    requires m in MARKERS
    ensures m.mark == shape.Placeholder()
  {
    shape := if m == MARKERS[0] then GithubToken
             else if m == MARKERS[1] then GithubFineGrainedPat
             else if m == MARKERS[2] then AwsAccessKeyId
             else if m == MARKERS[3] then SlackToken
             else RunnerTokenEnv;
  }

  lemma MarkIsInert(m: Marker, q: string, n: Marker)
    requires m in MARKERS && InTable(q, n)
    ensures Inert(m.mark, q, n)
  {
    var shape := MarkIsPlaceholder(m);
    PlaceholderIsInert(shape, q, n);
  }

  lemma TableIsSound(p: string, m: Marker)
    requires InTable(p, m)
    ensures Sound(p, m)
  {
    MarkIsInert(m, p, m);
    PrefixIsStepSafe(p, m);
    PrefixIsPlain(p, m);
  }

  /** Any placeholder can be put anywhere without completing a credential. */
  lemma PlaceholderIsInert(shape: Shape, p: string, m: Marker)
    requires InTable(p, m)
    ensures Inert(shape.Placeholder(), p, m)
  {
    PlaceholderHasNoPrefix(shape);
    HarmlessIsInert(shape.Placeholder(), p, m);
  }
}
