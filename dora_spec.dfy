/**
 * What the four DORA calculators compute, stated as functions of the list of
 * pull-request records. Each list function is defined on its last element, the
 * order in which the calculators' loops visit the records.
 */
module DoraSpec {
  import opened Wrappers
  import opened PullRequests

  /** Python's `sum` of a list of hours. */
  function Sum(s: seq<real>): real
  {
    if s == [] then 0.0 else Sum(s[..|s| - 1]) + s[|s| - 1]
  }

  /** `sum(xs) / len(xs)` when the list is non-empty, `None` otherwise. */
  function Mean(s: seq<real>): Option<real>
  {
    if s == [] then None else Some(Sum(s) / |s| as real)
  }

  /** The lead hours of the merged records, in list order (the `lead_times` list). */
  function MergedHours(prs: seq<PullRequest>): seq<real>
  {
    if prs == [] then []
    else
      var pr := prs[|prs| - 1];
      MergedHours(prs[..|prs| - 1]) + if IsDeployment(pr) then [LeadHours(pr)] else []
  }

  /** The recovery hours of the merged records with a fix-type title (the `recovery_times` list). */
  function RecoveryHours(prs: seq<PullRequest>): seq<real>
  {
    if prs == [] then []
    else
      var pr := prs[|prs| - 1];
      RecoveryHours(prs[..|prs| - 1]) + if IsRecovery(pr) then [LeadHours(pr)] else []
  }

  /** The number of deployments (merged records). */
  function MergedCount(prs: seq<PullRequest>): nat
  {
    if prs == [] then 0
    else MergedCount(prs[..|prs| - 1]) + if IsDeployment(prs[|prs| - 1]) then 1 else 0
  }

  /** The number of failed deployments. */
  function FailedCount(prs: seq<PullRequest>): nat
  {
    if prs == [] then 0
    else FailedCount(prs[..|prs| - 1]) + if IsFailedDeployment(prs[|prs| - 1]) then 1 else 0
  }

  /** The number of merged records whose merge time lies in the window `[now - days, now]`. */
  function WindowCount(prs: seq<PullRequest>, now: int, days: int): nat
  {
    if prs == [] then 0
    else
      var pr := prs[|prs| - 1];
      WindowCount(prs[..|prs| - 1], now, days)
        + if IsDeployment(pr) && InWindow(pr.mergedAt.value, now, days) then 1 else 0
  }

  /** One entry of `deployments_by_date`: a UTC day number and the merges counted on it. */
  datatype DayCount = DayCount(day: int, count: nat)

  /**
   * `deployments_by_date[day] += 1` on a `defaultdict(int)`: the entry of that
   * day goes up by one, or a new entry `day: 1` is appended (dicts keep
   * insertion order).
   */
  function Bump(counts: seq<DayCount>, day: int): (r: seq<DayCount>)
    ensures |counts| <= |r| <= |counts| + 1
  {
    if counts == [] then [DayCount(day, 1)]
    else if counts[0].day == day then [DayCount(day, counts[0].count + 1)] + counts[1..]
    else [counts[0]] + Bump(counts[1..], day)
  }

  /** `deployments_by_date` after the loop: per UTC day, how many merges of the window fall on it. */
  function Buckets(prs: seq<PullRequest>, now: int, days: int): seq<DayCount>
  {
    if prs == [] then []
    else
      var m := Buckets(prs[..|prs| - 1], now, days);
      var pr := prs[|prs| - 1];
      if IsDeployment(pr) && InWindow(pr.mergedAt.value, now, days) then Bump(m, DateKey(pr.mergedAt.value))
      else m
  }

  /** `sum(deployments_by_date.values())`. */
  function Total(counts: seq<DayCount>): nat
  {
    if counts == [] then 0 else Total(counts[..|counts| - 1]) + counts[|counts| - 1].count
  }

  /** Each day appears at most once, as a dict key does. */
  predicate DistinctDays(counts: seq<DayCount>)
  {
    forall i, j :: 0 <= i < j < |counts| ==> counts[i].day != counts[j].day
  }

  /** Lead time for changes: mean hours from creation to merge over the merged records. */
  function LeadTime(prs: seq<PullRequest>): Option<real>
  {
    if prs == [] then None else Mean(MergedHours(prs))
  }

  /** Deployment frequency: merges inside the window per day of the window. */
  function DeploymentFrequency(prs: seq<PullRequest>, now: int, days: int): Option<real>
    requires days > 0
  {
    if prs == [] then None else Some(WindowCount(prs, now, days) as real / days as real)
  }

  /** MTTR: mean hours from creation to merge over the merged records with a fix-type title. */
  function Mttr(prs: seq<PullRequest>): Option<real>
  {
    if prs == [] then None else Mean(RecoveryHours(prs))
  }

  /** Change failure rate: failed deployments as a percentage of deployments. */
  function ChangeFailureRate(prs: seq<PullRequest>): Option<real>
  {
    if prs == [] || MergedCount(prs) == 0 then None
    else Some(FailedCount(prs) as real / MergedCount(prs) as real * 100.0)
  }

  /** The `TypeError` Python raises when an offset-naive and an offset-aware datetime are ordered. */
  datatype CompareError = NaiveAwareComparison

  /**
   * The window loop as the code runs it: `end_date = datetime.now()` is a
   * naive datetime while every parsed `merged_at` carries the `+00:00` offset,
   * so the window test on the first merged record raises.
   */
  function WindowScanAsWritten(prs: seq<PullRequest>): (r: Result<(), CompareError>)
    ensures r.Err? <==> exists i :: 0 <= i < |prs| && IsDeployment(prs[i])
  {
    if prs == [] then Ok(())
    else if IsDeployment(prs[0]) then Err(NaiveAwareComparison)
    else
      assert forall i :: 1 <= i < |prs| ==> prs[i] == prs[1..][i - 1];
      WindowScanAsWritten(prs[1..])
  }

  /**
   * Deployment frequency as written: only a list without merged records gets
   * through the loop, and its answer is then 0.
   */
  function DeploymentFrequencyAsWritten(prs: seq<PullRequest>, now: int, days: int): (r: Result<Option<real>, CompareError>)
    requires days > 0
    ensures r.Ok? ==> r.value == if prs == [] then None else Some(0.0)
  {
    if prs == [] then Ok(None)
    else
      match WindowScanAsWritten(prs)
      case Err(_) => Err(NaiveAwareComparison)
      case Ok(_) => Ok(Some(0.0))
  }
}
