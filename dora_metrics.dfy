/**
 * The four DORA calculators as the code runs them: one loop over the records
 * each, growing a list, a per-day counter or two integer counters. Each method
 * is proved to return exactly its specification in `DoraSpec`.
 */
module DoraMetrics {
  import opened Wrappers
  import opened Text
  import opened PullRequests
  import opened DoraSpec
  import opened DoraProperties

  /** `calculate_lead_time`: mean hours from creation to merge over the merged records. */
  method CalculateLeadTime(prs: seq<PullRequest>) returns (r: Option<real>)
    ensures r == LeadTime(prs)
    ensures r.None? <==> MergedCount(prs) == 0
  {
    LeadTimeUndefinedIff(prs);
    if prs == [] {
      return None;
    }
    var leadTimes: seq<real> := [];
    var i := 0;
    while i < |prs|
      invariant 0 <= i <= |prs|
      invariant leadTimes == MergedHours(prs[..i])
    {
      var pr := prs[i];
      assert prs[..i + 1][..i] == prs[..i];
      if pr.mergedAt.Some? {
        leadTimes := leadTimes + [LeadHours(pr)];
      }
      i := i + 1;
    }
    assert prs[..i] == prs;
    if leadTimes != [] {
      r := Some(Sum(leadTimes) / |leadTimes| as real);
    } else {
      r := None;
    }
  }

  /**
   * `calculate_deployment_frequency` with the evaluation time `now` passed in:
   * the merges of the window `[now - days, now]`, counted per UTC day and
   * summed, divided by `days`.
   */
  method CalculateDeploymentFrequency(prs: seq<PullRequest>, now: int, days: int) returns (r: Option<real>)
    requires days > 0
    ensures r == DeploymentFrequency(prs, now, days)
  {
    if prs == [] {
      return None;
    }
    var deploymentsByDate: seq<DayCount> := [];
    var i := 0;
    while i < |prs|
      invariant 0 <= i <= |prs|
      invariant deploymentsByDate == Buckets(prs[..i], now, days)
    {
      var pr := prs[i];
      assert prs[..i + 1][..i] == prs[..i];
      if pr.mergedAt.Some? {
        var merged := pr.mergedAt.value;
        if InWindow(merged, now, days) {
          deploymentsByDate := Bump(deploymentsByDate, DateKey(merged));
        }
      }
      i := i + 1;
    }
    assert prs[..i] == prs;
    BucketsTotal(prs, now, days);
    if deploymentsByDate == [] {
      return Some(0.0);
    }
    var totalDeployments := 0;
    var j := 0;
    while j < |deploymentsByDate|
      invariant 0 <= j <= |deploymentsByDate|
      invariant totalDeployments == Total(deploymentsByDate[..j])
    {
      assert deploymentsByDate[..j + 1][..j] == deploymentsByDate[..j];
      totalDeployments := totalDeployments + deploymentsByDate[j].count;
      j := j + 1;
    }
    assert deploymentsByDate[..j] == deploymentsByDate;
    r := Some(totalDeployments as real / days as real);
  }

  /** `calculate_mttr`: mean hours from creation to merge over the merged records with a fix-type title. */
  method CalculateMttr(prs: seq<PullRequest>) returns (r: Option<real>)
    ensures r == Mttr(prs)
  {
    if prs == [] {
      return None;
    }
    var recoveryTimes: seq<real> := [];
    var i := 0;
    while i < |prs|
      invariant 0 <= i <= |prs|
      invariant recoveryTimes == RecoveryHours(prs[..i])
    {
      var pr := prs[i];
      assert prs[..i + 1][..i] == prs[..i];
      var title := Lower(pr.title);
      if AnyKeyword(RecoveryKeywords, title) {
        if pr.mergedAt.Some? {
          recoveryTimes := recoveryTimes + [LeadHours(pr)];
        }
      }
      i := i + 1;
    }
    assert prs[..i] == prs;
    if recoveryTimes != [] {
      r := Some(Sum(recoveryTimes) / |recoveryTimes| as real);
    } else {
      r := None;
    }
  }

  /**
   * `calculate_change_failure_rate`: the percentage of merged records whose
   * title or body holds a failure keyword. The failures never outnumber the
   * deployments, so the rate is a percentage.
   */
  method CalculateChangeFailureRate(prs: seq<PullRequest>) returns (r: Option<real>)
    ensures r == ChangeFailureRate(prs)
    ensures r.Some? ==> 0.0 <= r.value <= 100.0
  {
    ChangeFailureRateBounds(prs);
    if prs == [] {
      return None;
    }
    var totalDeployments := 0;
    var failedDeployments := 0;
    var i := 0;
    while i < |prs|
      invariant 0 <= i <= |prs|
      invariant totalDeployments == MergedCount(prs[..i])
      invariant failedDeployments == FailedCount(prs[..i])
      invariant failedDeployments <= totalDeployments
    {
      var pr := prs[i];
      assert prs[..i + 1][..i] == prs[..i];
      if pr.mergedAt.Some? {
        totalDeployments := totalDeployments + 1;
        var title := Lower(pr.title);
        var body := Lower(pr.body);
        if AnyKeyword(FailureKeywords, title) || AnyKeyword(FailureKeywords, body) {
          failedDeployments := failedDeployments + 1;
        }
      }
      i := i + 1;
    }
    assert prs[..i] == prs;
    if totalDeployments > 0 {
      r := Some(failedDeployments as real / totalDeployments as real * 100.0);
    } else {
      r := None;
    }
  }
}
