/**
 * The `/metrics/generate` endpoint: the `Authorization` value and the `repo`
 * query parameter are checked, the pull requests are fetched, and the four
 * metrics are assembled into one four-key result with `None` read as 0.
 *
 * Validating the credentials and fetching the pull requests are calls to the
 * GitHub API; their outcome arrives here as the parameter `fetched`, either the
 * records or the HTTP error they raised. The clock reading used by deployment
 * frequency arrives as `now`.
 */
module Api {
  import opened Wrappers
  import opened Text
  import opened Http
  import opened PullRequests
  import opened DoraSpec
  import opened DoraProperties
  import Auth

  const DeploymentFrequencyKey: string := "Deployment Frequency"
  const LeadTimeKey: string := "Lead Time (hrs)"
  const MttrKey: string := "MTTR (hrs)"
  const ChangeFailureRateKey: string := "Change Failure Rate"

  /** The keys of every metrics result. */
  const MetricKeys: set<string> := {DeploymentFrequencyKey, LeadTimeKey, MttrKey, ChangeFailureRateKey}

  /** `calculate_deployment_frequency` is called with its default window of 30 days. */
  const WindowDays: int := 30

  const InvalidTokenFormat: HttpError := HttpError(401, "Invalid token format. Token must start with 'Bearer '")
  const RepositoryRequired: HttpError := HttpError(400, "Repository name is required")

  /** `GitHubClient(token, repo)` raises `ValueError` on an empty token; the handler turns it into a 500. */
  const GitHubTokenRequired: HttpError := HttpError(500, "Failed to generate metrics: GitHub token is required")

  /** The `TypeError` of the window comparison, turned into a 500 by the handler. */
  const NaiveAwareFailure: HttpError :=
    HttpError(500, "Failed to generate metrics: can't compare offset-naive and offset-aware datetimes")

  /**
   * The `Bearer ` check and `token.split("Bearer ")[1]`: the text after the
   * leading prefix, up to the next `Bearer ` if there is one.
   */
  function ExtractGithubToken(token: string): (r: Result<string, HttpError>)
    ensures r.Err? <==> !StartsWith(token, Auth.BearerPrefix)
    ensures r.Err? ==> r.error == InvalidTokenFormat
    ensures r.Ok? ==> r.value == UpTo(token[|Auth.BearerPrefix|..], Auth.BearerPrefix)
  {
    if !StartsWith(token, Auth.BearerPrefix) then Err(InvalidTokenFormat)
    else
      SplitSecondAfterPrefix(token, Auth.BearerPrefix);
      Ok(Split(token, Auth.BearerPrefix)[1])
  }

  /** `if not repo`: a missing or empty repository name is a 400. */
  function RequireRepo(repo: Option<string>): (r: Result<string, HttpError>)
    ensures r.Err? <==> repo.None? || repo.value == ""
    ensures r.Err? ==> r.error == RepositoryRequired
    ensures r.Ok? ==> r.value == repo.value
  {
    if repo.None? || repo.value == "" then Err(RepositoryRequired) else Ok(repo.value)
  }

  /** The all-zero result returned when no pull request was fetched. */
  function ZeroMetrics(): map<string, real>
  {
    map[DeploymentFrequencyKey := 0.0, LeadTimeKey := 0.0, MttrKey := 0.0, ChangeFailureRateKey := 0.0]
  }

  /** The `result` dict before the substitution: each key holds its calculator's answer. */
  function RawMetrics(prs: seq<PullRequest>, now: int): map<string, Option<real>>
  {
    map[DeploymentFrequencyKey := DeploymentFrequency(prs, now, WindowDays),
        LeadTimeKey := LeadTime(prs),
        MttrKey := Mttr(prs),
        ChangeFailureRateKey := ChangeFailureRate(prs)]
  }

  /** `v if v is not None else 0`. */
  function OrZero(v: Option<real>): real
  {
    if v.Some? then v.value else 0.0
  }

  /** `{k: v if v is not None else 0 for k, v in result.items()}`. */
  function NoneToZero(m: map<string, Option<real>>): (r: map<string, real>)
    ensures r.Keys == m.Keys
    ensures forall k :: k in m && m[k].Some? ==> r[k] == m[k].value
    ensures forall k :: k in m && m[k].None? ==> r[k] == 0.0
  {
    map k | k in m :: OrZero(m[k])
  }

  /**
   * Everything after the fetch: an empty list short-circuits to the all-zero
   * result; otherwise the four calculators run and `None` becomes 0. Both
   * paths agree with running the calculators and substituting.
   */
  function Compute(prs: seq<PullRequest>, now: int): (r: map<string, real>)
    ensures r == NoneToZero(RawMetrics(prs, now))
    ensures r.Keys == MetricKeys
    ensures r[DeploymentFrequencyKey] == OrZero(DeploymentFrequency(prs, now, WindowDays))
    ensures r[LeadTimeKey] == OrZero(LeadTime(prs)) && r[MttrKey] == OrZero(Mttr(prs))
    ensures r[ChangeFailureRateKey] == OrZero(ChangeFailureRate(prs))
  {
    if prs == [] then
      EmptyShortCircuitAgrees(now);
      ZeroMetrics()
    else NoneToZero(RawMetrics(prs, now))
  }

  /**
   * The short-circuit for an empty list gives what the calculators would give
   * on `[]` after the substitution: every calculator answers `None` there.
   */
  lemma EmptyShortCircuitAgrees(now: int)
    ensures ZeroMetrics() == NoneToZero(RawMetrics([], now))
    ensures ZeroMetrics().Keys == MetricKeys && forall k :: k in ZeroMetrics() ==> ZeroMetrics()[k] == 0.0
  {
    EmptyInputUndefined(now, WindowDays);
    var raw := RawMetrics([], now);
    assert forall k :: k in raw ==> raw[k] == None;
  }

  /**
   * `generate_metrics`: the token format is checked first (401), then the
   * repository name (400), then the GitHub client refuses an empty token (500);
   * an error of the fetch is passed on unchanged; otherwise the answer is the
   * four-key result of `Compute`.
   */
  function GenerateMetrics(token: string, repo: Option<string>, fetched: Result<seq<PullRequest>, HttpError>,
                           now: int): (r: Result<map<string, real>, HttpError>)
    ensures !StartsWith(token, Auth.BearerPrefix) ==> r == Err(InvalidTokenFormat)
    ensures StartsWith(token, Auth.BearerPrefix) && (repo.None? || repo.value == "") ==> r == Err(RepositoryRequired)
    ensures r.Ok? <==> StartsWith(token, Auth.BearerPrefix) && repo.Some? && repo.value != ""
                       && ExtractGithubToken(token).value != "" && fetched.Ok?
    ensures (StartsWith(token, Auth.BearerPrefix) && repo.Some? && repo.value != ""
             && ExtractGithubToken(token).value == "") ==> r == Err(GitHubTokenRequired)
    ensures (StartsWith(token, Auth.BearerPrefix) && repo.Some? && repo.value != ""
             && ExtractGithubToken(token).value != "" && fetched.Err?) ==> r == Err(fetched.error)
    ensures r.Ok? ==> r.value.Keys == MetricKeys && r.value == NoneToZero(RawMetrics(fetched.value, now))
    ensures r.Ok? && fetched.value == [] ==> r.value == ZeroMetrics()
  {
    match ExtractGithubToken(token)
    case Err(e) => Err(e)
    case Ok(githubToken) =>
      match RequireRepo(repo)
      case Err(e) => Err(e)
      case Ok(_) =>
        if githubToken == "" then Err(GitHubTokenRequired)
        else
          match fetched
          case Err(e) => Err(e)
          case Ok(prs) => Ok(Compute(prs, now))
  }

  /** With a valid token and repository, a failed credential check or fetch is answered with its own error. */
  lemma FetchErrorPassesThrough(token: string, repo: string, e: HttpError, now: int)
    requires StartsWith(token, Auth.BearerPrefix) && repo != "" && ExtractGithubToken(token).value != ""
    ensures GenerateMetrics(token, Some(repo), Err(e), now) == Err(e)
  {
  }

  /**
   * The GitHub token left by `split("Bearer ")[1]` is empty exactly for
   * `"Bearer "` itself and for values that repeat the prefix, such as
   * `"Bearer Bearer x"`; each passes the format check and is refused by the
   * GitHub client with a 500.
   */
  lemma EmptyGithubTokenIs500(token: string, repo: string, fetched: Result<seq<PullRequest>, HttpError>, now: int)
    requires StartsWith(token, Auth.BearerPrefix) && repo != ""
    ensures ExtractGithubToken(token).value == "" <==>
              token == Auth.BearerPrefix || StartsWith(token, Auth.BearerPrefix + Auth.BearerPrefix)
    ensures token == Auth.BearerPrefix || StartsWith(token, Auth.BearerPrefix + Auth.BearerPrefix) ==>
              GenerateMetrics(token, Some(repo), fetched, now) == Err(GitHubTokenRequired)
  {
    var p := Auth.BearerPrefix;
    var rest := token[|p|..];
    assert token == p + rest by {
      assert token[..|p|] == p;
    }
    UpToEmptyIff(rest, p);
    assert rest == "" <==> token == p;
    assert StartsWith(rest, p) <==> StartsWith(token, p + p) by {
      if |rest| >= |p| {
        var head := token[..|p + p|];
        assert head == p + rest[..|p|];
        if rest[..|p|] == p {
          assert head == p + p;
        }
        if head == p + p {
          assert rest[..|p|] == head[|p|..] == (p + p)[|p|..] == p;
        }
      }
    }
  }

  /**
   * The two extractions differ: the endpoint keeps everything up to the next
   * `Bearer `, while `verify_token` stops at the next space.
   */
  lemma ExtractionsDiffer()
    ensures ExtractGithubToken("Bearer a b") == Ok("a b")
  {
    var rest := "a b";
    assert "Bearer a b" == Auth.BearerPrefix + rest;
    assert "Bearer a b"[|Auth.BearerPrefix|..] == rest;
    MissingCharNotContained(rest, Auth.BearerPrefix, 0);
  }

  /**
   * Everything after the fetch as written: deployment frequency runs first and
   * raises on the first merged record, and the handler answers 500.
   */
  function ComputeAsWritten(prs: seq<PullRequest>, now: int): (r: Result<map<string, real>, HttpError>)
    ensures r.Ok? ==> r.value == Compute(prs, now)
  {
    if prs == [] then Ok(ZeroMetrics())
    else
      match DeploymentFrequencyAsWritten(prs, now, WindowDays)
      case Err(_) => Err(NaiveAwareFailure)
      case Ok(_) => Ok(Compute(prs, now))
  }

  /** As written, the endpoint answers 500 exactly when some fetched record is merged. */
  lemma ComputeAsWrittenFailsOnMerges(prs: seq<PullRequest>, now: int)
    ensures ComputeAsWritten(prs, now).Err? <==> MergedCount(prs) > 0
    ensures ComputeAsWritten(prs, now).Err? ==> ComputeAsWritten(prs, now).error == NaiveAwareFailure
  {
    if MergedCount(prs) > 0 {
      DeploymentFrequencyAsWrittenRaises(prs, now, WindowDays);
    } else if prs != [] {
      DeploymentFrequencyAsWrittenAgrees(prs, now, WindowDays);
    }
  }
}
