/** What the four calculators promise, proved about their specifications. */
module DoraProperties {
  import opened Wrappers
  import opened Text
  import opened PullRequests
  import opened DoraSpec

  // ---------------------------------------------------------------- sums and means

  lemma {:induction false} SumAppend(a: seq<real>, b: seq<real>)
    ensures Sum(a + b) == Sum(a) + Sum(b)
    decreases |b|
  {
    if b != [] {
      assert (a + b)[..|a + b| - 1] == a + b[..|b| - 1];
      assert (a + b)[|a + b| - 1] == b[|b| - 1];
      SumAppend(a, b[..|b| - 1]);
    } else {
      assert a + b == a;
    }
  }

  /** A sum of values in `[lo, hi]` lies between `|s| * lo` and `|s| * hi`. */
  lemma {:induction false} SumBounds(s: seq<real>, lo: real, hi: real)
    requires forall i :: 0 <= i < |s| ==> lo <= s[i] <= hi
    ensures |s| as real * lo <= Sum(s) <= |s| as real * hi
    decreases |s|
  {
    if s != [] {
      SumBounds(s[..|s| - 1], lo, hi);
    }
  }

  /** The mean of values in `[lo, hi]` lies in `[lo, hi]`. */
  lemma MeanBounds(s: seq<real>, lo: real, hi: real)
    requires forall i :: 0 <= i < |s| ==> lo <= s[i] <= hi
    ensures Mean(s).Some? ==> lo <= Mean(s).value <= hi
  {
    if s != [] {
      SumBounds(s, lo, hi);
      var n := |s| as real;
      assert Sum(s) / n * n == Sum(s);
    }
  }

  /** Some record is merged exactly when the merged count is positive. */
  lemma {:induction false} MergedCountPositiveIff(prs: seq<PullRequest>)
    ensures MergedCount(prs) > 0 <==> exists i :: 0 <= i < |prs| && IsDeployment(prs[i])
    decreases |prs|
  {
    if prs != [] {
      var init := prs[..|prs| - 1];
      MergedCountPositiveIff(init);
      assert forall i :: 0 <= i < |init| ==> init[i] == prs[i];
    }
  }

  // ---------------------------------------------------------------- empty input

  /** Every calculator answers "undefined" on an empty list. */
  lemma EmptyInputUndefined(now: int, days: int)
    requires days > 0
    ensures LeadTime([]) == None && DeploymentFrequency([], now, days) == None
    ensures Mttr([]) == None && ChangeFailureRate([]) == None
  {
  }

  // ---------------------------------------------------------------- lead time

  /** There is one lead-time entry per merged record. */
  lemma {:induction false} MergedHoursLength(prs: seq<PullRequest>)
    ensures |MergedHours(prs)| == MergedCount(prs)
    decreases |prs|
  {
    if prs != [] {
      MergedHoursLength(prs[..|prs| - 1]);
    }
  }

  lemma {:induction false} MergedHoursAppend(a: seq<PullRequest>, b: seq<PullRequest>)
    ensures MergedHours(a + b) == MergedHours(a) + MergedHours(b)
    decreases |b|
  {
    if b != [] {
      assert (a + b)[..|a + b| - 1] == a + b[..|b| - 1];
      assert (a + b)[|a + b| - 1] == b[|b| - 1];
      MergedHoursAppend(a, b[..|b| - 1]);
    } else {
      assert a + b == a;
    }
  }

  /** Every lead-time entry is the lead hours of a merged record of the list. */
  lemma {:induction false} MergedHoursBounded(prs: seq<PullRequest>, lo: real, hi: real)
    requires forall i :: 0 <= i < |prs| && IsDeployment(prs[i]) ==> lo <= LeadHours(prs[i]) <= hi
    ensures forall j :: 0 <= j < |MergedHours(prs)| ==> lo <= MergedHours(prs)[j] <= hi
    decreases |prs|
  {
    if prs != [] {
      var init := prs[..|prs| - 1];
      assert forall i :: 0 <= i < |init| ==> init[i] == prs[i];
      MergedHoursBounded(init, lo, hi);
    }
  }

  /** Lead time is undefined exactly when no record is merged (the empty list included). */
  lemma LeadTimeUndefinedIff(prs: seq<PullRequest>)
    ensures LeadTime(prs).None? <==> MergedCount(prs) == 0
  {
    MergedHoursLength(prs);
  }

  /** Lead time is the mean of the lead hours of the merged records: sum over count. */
  lemma LeadTimeIsMean(prs: seq<PullRequest>)
    requires MergedCount(prs) > 0
    ensures LeadTime(prs) == Some(Sum(MergedHours(prs)) / MergedCount(prs) as real)
  {
    MergedHoursLength(prs);
  }

  /** Inserting an unmerged record anywhere leaves the lead time as it was. */
  lemma LeadTimeIgnoresUnmerged(prs: seq<PullRequest>, k: nat, u: PullRequest)
    requires k <= |prs| && !IsDeployment(u)
    ensures LeadTime(prs[..k] + [u] + prs[k..]) == LeadTime(prs)
  {
    MergedHoursAppend(prs[..k] + [u], prs[k..]);
    MergedHoursAppend(prs[..k], [u]);
    MergedHoursAppend(prs[..k], prs[k..]);
    assert [u][..0] == [];
    assert MergedHours([u]) == [];
    assert prs[..k] + prs[k..] == prs;
    calc {
      MergedHours(prs[..k] + [u] + prs[k..]);
      MergedHours(prs[..k]) + MergedHours([u]) + MergedHours(prs[k..]);
      { assert MergedHours(prs[..k]) + [] == MergedHours(prs[..k]); }
      MergedHours(prs);
    }
  }

  /** Lead time lies between the shortest and the longest lead hours of the merged records. */
  lemma LeadTimeBounds(prs: seq<PullRequest>, lo: real, hi: real)
    requires forall i :: 0 <= i < |prs| && IsDeployment(prs[i]) ==> lo <= LeadHours(prs[i]) <= hi
    ensures LeadTime(prs).Some? ==> lo <= LeadTime(prs).value <= hi
  {
    MergedHoursBounded(prs, lo, hi);
    MeanBounds(MergedHours(prs), lo, hi);
  }

  /** When no record is merged before it was created, lead time is not negative. */
  lemma LeadTimeNonNegative(prs: seq<PullRequest>)
    requires forall i :: 0 <= i < |prs| && IsDeployment(prs[i]) ==> prs[i].createdAt <= prs[i].mergedAt.value
    ensures LeadTime(prs).Some? ==> LeadTime(prs).value >= 0.0
  {
    var hi := MaxLeadHours(prs);
    LeadTimeBounds(prs, 0.0, hi);
  }

  /** An upper bound of the lead hours of the merged records. */
  function MaxLeadHours(prs: seq<PullRequest>): (m: real)
    ensures forall i :: 0 <= i < |prs| && IsDeployment(prs[i]) ==> LeadHours(prs[i]) <= m
  {
    if prs == [] then 0.0
    else
      var rest := MaxLeadHours(prs[1..]);
      assert forall i :: 1 <= i < |prs| ==> prs[i] == prs[1..][i - 1];
      if IsDeployment(prs[0]) && LeadHours(prs[0]) > rest then LeadHours(prs[0]) else rest
  }

  /** A record merged five hours after its creation has a lead time of exactly 5.0 hours. */
  lemma LeadTimeFiveHours(t: int, title: string, body: string)
    ensures LeadTime([PullRequest(t, Some(t + 5 * SecondsPerHour), title, body)]) == Some(5.0)
  {
    var pr := PullRequest(t, Some(t + 5 * SecondsPerHour), title, body);
    assert [pr][..0] == [];
    assert LeadHours(pr) == 5.0;
    assert MergedHours([pr]) == MergedHours([]) + [5.0];
    assert Sum([5.0]) == Sum([]) + 5.0;
  }

  // ---------------------------------------------------------------- deployment frequency

  lemma {:induction false} TotalAppend(a: seq<DayCount>, b: seq<DayCount>)
    ensures Total(a + b) == Total(a) + Total(b)
    decreases |b|
  {
    if b != [] {
      assert (a + b)[..|a + b| - 1] == a + b[..|b| - 1];
      assert (a + b)[|a + b| - 1] == b[|b| - 1];
      TotalAppend(a, b[..|b| - 1]);
    } else {
      assert a + b == a;
    }
  }

  /** `deployments_by_date[day] += 1` adds one to the total of the counts. */
  lemma {:induction false} BumpTotal(counts: seq<DayCount>, day: int)
    ensures Total(Bump(counts, day)) == Total(counts) + 1
    decreases |counts|
  {
    if counts == [] {
      assert Total([DayCount(day, 1)]) == Total([]) + 1;
    } else {
      var head := [counts[0]];
      assert counts == head + counts[1..];
      TotalAppend(head, counts[1..]);
      assert Total(head) == Total([]) + counts[0].count;
      if counts[0].day == day {
        TotalAppend([DayCount(day, counts[0].count + 1)], counts[1..]);
        assert Total([DayCount(day, counts[0].count + 1)]) == Total([]) + counts[0].count + 1;
      } else {
        BumpTotal(counts[1..], day);
        TotalAppend(head, Bump(counts[1..], day));
      }
    }
  }

  /**
   * `Bump` is the dictionary update: entries of other days stay where they are,
   * the entry of `day` goes up by one, and a day not yet present is appended
   * with count 1.
   */
  lemma {:induction false} BumpUpdates(counts: seq<DayCount>, day: int)
    ensures forall i :: 0 <= i < |counts| && counts[i].day != day ==> Bump(counts, day)[i] == counts[i]
    ensures DistinctDays(counts) ==>
      forall i :: 0 <= i < |counts| && counts[i].day == day ==> Bump(counts, day)[i] == DayCount(day, counts[i].count + 1)
    ensures (exists i :: 0 <= i < |counts| && counts[i].day == day) ==> |Bump(counts, day)| == |counts|
    ensures (forall i :: 0 <= i < |counts| ==> counts[i].day != day) ==> Bump(counts, day) == counts + [DayCount(day, 1)]
  {
    if counts != [] && counts[0].day != day {
      BumpUpdates(counts[1..], day);
      assert forall i :: 1 <= i < |counts| ==> counts[1..][i - 1] == counts[i];
    }
  }

  /** The days of `Bump(counts, day)` are those of `counts` with `day` added. */
  lemma {:induction false} BumpDays(counts: seq<DayCount>, day: int)
    ensures forall e :: e in Bump(counts, day) ==> e.day == day || exists c :: c in counts && c.day == e.day
    ensures DistinctDays(counts) ==> DistinctDays(Bump(counts, day))
    decreases |counts|
  {
    if counts != [] && counts[0].day != day {
      BumpDays(counts[1..], day);
      var r := Bump(counts, day);
      assert r == [counts[0]] + Bump(counts[1..], day);
      if DistinctDays(counts) {
        forall j | 0 < j < |r| ensures r[0].day != r[j].day {
          assert r[j] in Bump(counts[1..], day);
        }
        assert DistinctDays(r);
      }
    } else if counts != [] {
      var r := Bump(counts, day);
      assert forall j :: 0 <= j < |r| ==> r[j].day == counts[j].day;
    }
  }

  /** `deployments_by_date` is a dict: one entry per day. */
  lemma {:induction false} BucketsDistinctDays(prs: seq<PullRequest>, now: int, days: int)
    ensures DistinctDays(Buckets(prs, now, days))
    decreases |prs|
  {
    if prs != [] {
      BucketsDistinctDays(prs[..|prs| - 1], now, days);
      var pr := prs[|prs| - 1];
      if IsDeployment(pr) && InWindow(pr.mergedAt.value, now, days) {
        BumpDays(Buckets(prs[..|prs| - 1], now, days), DateKey(pr.mergedAt.value));
      }
    }
  }

  /** Bucketing by day loses no merge: the counts add up to the number of merges in the window. */
  lemma {:induction false} BucketsTotal(prs: seq<PullRequest>, now: int, days: int)
    ensures Total(Buckets(prs, now, days)) == WindowCount(prs, now, days)
    decreases |prs|
  {
    if prs != [] {
      BucketsTotal(prs[..|prs| - 1], now, days);
      var pr := prs[|prs| - 1];
      if IsDeployment(pr) && InWindow(pr.mergedAt.value, now, days) {
        BumpTotal(Buckets(prs[..|prs| - 1], now, days), DateKey(pr.mergedAt.value));
      }
    }
  }

  lemma {:induction false} WindowCountAtMostMerged(prs: seq<PullRequest>, now: int, days: int)
    ensures WindowCount(prs, now, days) <= MergedCount(prs)
    decreases |prs|
  {
    if prs != [] {
      WindowCountAtMostMerged(prs[..|prs| - 1], now, days);
    }
  }

  lemma {:induction false} WindowCountZero(prs: seq<PullRequest>, now: int, days: int)
    requires forall i :: 0 <= i < |prs| && IsDeployment(prs[i]) ==> !InWindow(prs[i].mergedAt.value, now, days)
    ensures WindowCount(prs, now, days) == 0
    decreases |prs|
  {
    if prs != [] {
      var init := prs[..|prs| - 1];
      assert forall i :: 0 <= i < |init| ==> init[i] == prs[i];
      WindowCountZero(init, now, days);
    }
  }

  /** Deployment frequency lies between 0 and the number of merged records per day of the window. */
  lemma DeploymentFrequencyBounds(prs: seq<PullRequest>, now: int, days: int)
    requires days > 0
    ensures DeploymentFrequency(prs, now, days).Some? ==>
      0.0 <= DeploymentFrequency(prs, now, days).value <= MergedCount(prs) as real / days as real
  {
    WindowCountAtMostMerged(prs, now, days);
    var d := days as real;
    assert WindowCount(prs, now, days) as real / d <= MergedCount(prs) as real / d;
  }

  /** A non-empty list with no merge inside the window has deployment frequency 0. */
  lemma DeploymentFrequencyZero(prs: seq<PullRequest>, now: int, days: int)
    requires days > 0 && prs != []
    requires forall i :: 0 <= i < |prs| && IsDeployment(prs[i]) ==> !InWindow(prs[i].mergedAt.value, now, days)
    ensures DeploymentFrequency(prs, now, days) == Some(0.0)
  {
    WindowCountZero(prs, now, days);
  }

  /** Deployment frequency of a single record: one merge per window length when its merge falls inside. */
  lemma SingleRecordFrequency(pr: PullRequest, now: int, days: int)
    requires days > 0
    ensures DeploymentFrequency([pr], now, days)
      == Some(if IsDeployment(pr) && InWindow(pr.mergedAt.value, now, days) then 1.0 / days as real else 0.0)
  {
    assert [pr][..0] == [];
    assert WindowCount([pr], now, days)
      == if IsDeployment(pr) && InWindow(pr.mergedAt.value, now, days) then 1 else 0;
  }

  /** Both ends of the window are inclusive; one second past either end is outside. */
  lemma WindowIsInclusive(now: int, days: int, created: int, title: string, body: string)
    requires days > 0
    ensures DeploymentFrequency([PullRequest(created, Some(now - days * SecondsPerDay), title, body)], now, days)
      == Some(1.0 / days as real)
    ensures DeploymentFrequency([PullRequest(created, Some(now), title, body)], now, days) == Some(1.0 / days as real)
    ensures DeploymentFrequency([PullRequest(created, Some(now + 1), title, body)], now, days) == Some(0.0)
    ensures DeploymentFrequency([PullRequest(created, Some(now - days * SecondsPerDay - 1), title, body)], now, days)
      == Some(0.0)
  {
    SingleRecordFrequency(PullRequest(created, Some(now - days * SecondsPerDay), title, body), now, days);
    SingleRecordFrequency(PullRequest(created, Some(now), title, body), now, days);
    SingleRecordFrequency(PullRequest(created, Some(now + 1), title, body), now, days);
    SingleRecordFrequency(PullRequest(created, Some(now - days * SecondsPerDay - 1), title, body), now, days);
  }

  /**
   * The total is divided by the window length, not by the number of active
   * days: two merges on one UTC day of a 30-day window give 2/30 from one bucket.
   */
  lemma FrequencyNotPerActiveDay(now: int)
    requires now % SecondsPerDay != 0
    ensures var prs := [PullRequest(now - 10, Some(now - 1), "", ""), PullRequest(now - 10, Some(now), "", "")];
      |Buckets(prs, now, 30)| == 1 && DeploymentFrequency(prs, now, 30) == Some(2.0 / 30.0)
  {
    var a := PullRequest(now - 10, Some(now - 1), "", "");
    var b := PullRequest(now - 10, Some(now), "", "");
    var prs := [a, b];
    assert prs[..1] == [a] && [a][..0] == [];
    SameDay(now - 1, now);
    assert Buckets([a], now, 30) == [DayCount(DateKey(now), 1)];
    assert Buckets(prs, now, 30) == [DayCount(DateKey(now), 2)];
    assert WindowCount([a], now, 30) == 1;
  }

  /** Two instants one second apart share a UTC day unless the later one starts a day. */
  lemma SameDay(s: int, t: int)
    requires s == t - 1 && t % SecondsPerDay != 0
    ensures DateKey(s) == DateKey(t)
  {
    var q, r := t / SecondsPerDay, t % SecondsPerDay;
    assert s == q * SecondsPerDay + (r - 1) && 0 <= r - 1 < SecondsPerDay;
  }

  /** Three merges inside a 30-day window give 3/30 = 0.1 deployments per day. */
  lemma FrequencyThreeInThirtyDays(now: int)
    ensures var prs := [PullRequest(now - 9 * SecondsPerDay, Some(now - 8 * SecondsPerDay), "a", ""),
                        PullRequest(now - 6 * SecondsPerDay, Some(now - 5 * SecondsPerDay), "b", ""),
                        PullRequest(now - 3 * SecondsPerDay, Some(now - 2 * SecondsPerDay), "c", "")];
      DeploymentFrequency(prs, now, 30) == Some(0.1)
  {
    var p0 := PullRequest(now - 9 * SecondsPerDay, Some(now - 8 * SecondsPerDay), "a", "");
    var p1 := PullRequest(now - 6 * SecondsPerDay, Some(now - 5 * SecondsPerDay), "b", "");
    var p2 := PullRequest(now - 3 * SecondsPerDay, Some(now - 2 * SecondsPerDay), "c", "");
    var prs := [p0, p1, p2];
    assert prs[..2] == [p0, p1] && [p0, p1][..1] == [p0] && [p0][..0] == [];
    assert InWindow(now - 8 * SecondsPerDay, now, 30);
    assert WindowCount([p0], now, 30) == 1;
    assert WindowCount([p0, p1], now, 30) == 2;
    assert WindowCount(prs, now, 30) == 3;
  }

  /** The code as written raises whenever a merged record reaches the window test. */
  lemma DeploymentFrequencyAsWrittenRaises(prs: seq<PullRequest>, now: int, days: int)
    requires days > 0 && MergedCount(prs) > 0
    ensures DeploymentFrequencyAsWritten(prs, now, days) == Err(NaiveAwareComparison)
  {
    MergedCountPositiveIff(prs);
    assert prs != [] && WindowScanAsWritten(prs).Err?;
  }

  /** Without merged records the code as written and the intended definition agree. */
  lemma DeploymentFrequencyAsWrittenAgrees(prs: seq<PullRequest>, now: int, days: int)
    requires days > 0 && MergedCount(prs) == 0
    ensures DeploymentFrequencyAsWritten(prs, now, days) == Ok(DeploymentFrequency(prs, now, days))
  {
    MergedCountPositiveIff(prs);
    WindowCountAtMostMerged(prs, now, days);
  }

  /** The input that shows it: one record merged at `now`, counted by the intended window, crashes the code. */
  lemma DeploymentFrequencyCounterexample(now: int)
    ensures var prs := [PullRequest(now - SecondsPerHour, Some(now), "Add feature", "")];
      DeploymentFrequencyAsWritten(prs, now, 30).Err? && DeploymentFrequency(prs, now, 30) == Some(1.0 / 30.0)
  {
    var pr := PullRequest(now - SecondsPerHour, Some(now), "Add feature", "");
    SingleRecordFrequency(pr, now, 30);
    assert WindowScanAsWritten([pr]).Err?;
  }

  // ---------------------------------------------------------------- MTTR

  lemma {:induction false} RecoveryHoursEmptyIff(prs: seq<PullRequest>)
    ensures RecoveryHours(prs) == [] <==> forall i :: 0 <= i < |prs| ==> !IsRecovery(prs[i])
    decreases |prs|
  {
    if prs != [] {
      var init := prs[..|prs| - 1];
      assert forall i :: 0 <= i < |init| ==> init[i] == prs[i];
      RecoveryHoursEmptyIff(init);
    }
  }

  lemma {:induction false} RecoveryHoursAppend(a: seq<PullRequest>, b: seq<PullRequest>)
    ensures RecoveryHours(a + b) == RecoveryHours(a) + RecoveryHours(b)
    decreases |b|
  {
    if b != [] {
      assert (a + b)[..|a + b| - 1] == a + b[..|b| - 1];
      assert (a + b)[|a + b| - 1] == b[|b| - 1];
      RecoveryHoursAppend(a, b[..|b| - 1]);
    } else {
      assert a + b == a;
    }
  }

  /** MTTR is undefined exactly when no merged record has a fix-type title. */
  lemma MttrUndefinedIff(prs: seq<PullRequest>)
    ensures Mttr(prs).None? <==> forall i :: 0 <= i < |prs| ==> !IsRecovery(prs[i])
  {
    RecoveryHoursEmptyIff(prs);
  }

  /** Inserting a record that is not a recovery leaves MTTR as it was. */
  lemma MttrIgnoresNonRecovery(prs: seq<PullRequest>, k: nat, u: PullRequest)
    requires k <= |prs| && !IsRecovery(u)
    ensures Mttr(prs[..k] + [u] + prs[k..]) == Mttr(prs)
  {
    RecoveryHoursAppend(prs[..k] + [u], prs[k..]);
    RecoveryHoursAppend(prs[..k], [u]);
    RecoveryHoursAppend(prs[..k], prs[k..]);
    assert [u][..0] == [];
    assert RecoveryHours([u]) == [];
    assert prs[..k] + prs[k..] == prs;
    calc {
      RecoveryHours(prs[..k] + [u] + prs[k..]);
      RecoveryHours(prs[..k]) + RecoveryHours([u]) + RecoveryHours(prs[k..]);
      { assert RecoveryHours(prs[..k]) + [] == RecoveryHours(prs[..k]); }
      RecoveryHours(prs);
    }
  }

  /** Every record that MTTR counts is also a failed deployment for the change failure rate. */
  lemma {:induction false} RecoveriesAreFailures(prs: seq<PullRequest>)
    ensures |RecoveryHours(prs)| <= FailedCount(prs)
    decreases |prs|
  {
    if prs != [] {
      RecoveriesAreFailures(prs[..|prs| - 1]);
      if IsRecovery(prs[|prs| - 1]) {
        RecoveryIsFailedDeployment(prs[|prs| - 1]);
      }
    }
  }

  // ---------------------------------------------------------------- change failure rate

  lemma {:induction false} FailedAtMostMerged(prs: seq<PullRequest>)
    ensures FailedCount(prs) <= MergedCount(prs)
    decreases |prs|
  {
    if prs != [] {
      FailedAtMostMerged(prs[..|prs| - 1]);
    }
  }

  /** The change failure rate is a percentage. */
  lemma ChangeFailureRateBounds(prs: seq<PullRequest>)
    ensures ChangeFailureRate(prs).Some? ==> 0.0 <= ChangeFailureRate(prs).value <= 100.0
  {
    FailedAtMostMerged(prs);
    if MergedCount(prs) > 0 {
      var f, m := FailedCount(prs) as real, MergedCount(prs) as real;
      assert f / m <= 1.0;
    }
  }

  /** The change failure rate is undefined exactly when no record is merged. */
  lemma ChangeFailureRateUndefinedIff(prs: seq<PullRequest>)
    ensures ChangeFailureRate(prs).None? <==> MergedCount(prs) == 0
  {
  }

  // ---------------------------------------------------------------- worked examples

  /** A title that contains no recovery keyword, shown by one missing letter per keyword. */
  lemma NoRecoveryKeyword(s: string)
    requires forall i :: 0 <= i < |s| ==> s[i] != 'x' && s[i] != 'v' && s[i] != 'o'
    ensures !AnyKeyword(RecoveryKeywords, s)
    ensures forall k :: k in RecoveryKeywords ==> !Contains(s, k)
  {
    MissingCharNotContained(s, "fix", 2);
    MissingCharNotContained(s, "hotfix", 5);
    MissingCharNotContained(s, "revert", 2);
    MissingCharNotContained(s, "rollback", 1);
    forall k | k in RecoveryKeywords ensures !Contains(s, k) {
      assert k == "fix" || k == "hotfix" || k == "revert" || k == "rollback";
    }
    AnyKeywordIff(RecoveryKeywords, s);
  }

  /** The example titles, classified. */
  lemma ExampleTitles()
    ensures IsRecoveryTitle("Hotfix: crash on startup")
    ensures !IsRecoveryTitle("Add feature")
    ensures !IsRecoveryTitle("Emergency patch")
    ensures AnyKeyword(FailureKeywords, Lower("Emergency patch"))
  {
    HotfixTitleIsRecovery();
    AddFeatureIsNoRecovery();
    EmergencyPatchIsNoRecovery();
  }

  lemma HotfixTitleIsRecovery()
    ensures IsRecoveryTitle("Hotfix: crash on startup")
  {
    assert Lower("Hotfix: crash on startup") == "hotfix: crash on startup";
    HotfixTitle();
  }

  lemma AddFeatureIsNoRecovery()
    ensures !IsRecoveryTitle("Add feature")
  {
    assert Lower("Add feature") == "add feature";
    NoRecoveryKeyword("add feature");
  }

  lemma EmergencyPatchIsNoRecovery()
    ensures !IsRecoveryTitle("Emergency patch")
    ensures AnyKeyword(FailureKeywords, Lower("Emergency patch"))
  {
    assert Lower("Emergency patch") == "emergency patch";
    NoRecoveryKeyword("emergency patch");
    EmergencyText();
  }

  lemma HotfixTitle()
    ensures AnyKeyword(RecoveryKeywords, "hotfix: crash on startup")
  {
    var s := "hotfix: crash on startup";
    assert StartsWith(s[3..], "fix");
    ContainsInSuffix(s, 3, "fix");
  }

  lemma EmergencyText()
    ensures AnyKeyword(FailureKeywords, "emergency patch")
  {
    assert StartsWith("emergency patch", "emergency");
    AnyKeywordIff(FailureKeywords, "emergency patch");
    assert "emergency" in FailureKeywords;
  }

  /** Two records, the first a recovery of `h` hours and the second no recovery: MTTR is `h`. */
  lemma MttrOfOneRecovery(fix: PullRequest, other: PullRequest)
    requires IsRecovery(fix) && !IsRecovery(other)
    ensures Mttr([fix, other]) == Some(LeadHours(fix))
  {
    assert [fix, other][..1] == [fix] && [fix][..0] == [];
    assert RecoveryHours([fix]) == [LeadHours(fix)];
    assert RecoveryHours([fix, other]) == RecoveryHours([fix]) + [];
    assert Sum([LeadHours(fix)]) == Sum([]) + LeadHours(fix);
  }

  /**
   * A "Hotfix: crash on startup" merged two hours after creation, next to an
   * "Add feature" merged much later, gives an MTTR of exactly 2.0 hours.
   */
  lemma MttrHotfixExample(t: int)
    ensures Mttr([PullRequest(t, Some(t + 2 * SecondsPerHour), "Hotfix: crash on startup", ""),
                  PullRequest(t, Some(t + 9 * SecondsPerHour), "Add feature", "")]) == Some(2.0)
  {
    ExampleTitles();
    MttrOfOneRecovery(PullRequest(t, Some(t + 2 * SecondsPerHour), "Hotfix: crash on startup", ""),
                      PullRequest(t, Some(t + 9 * SecondsPerHour), "Add feature", ""));
  }

  /** One merged record that is a failed deployment and no recovery. */
  lemma FailureWithoutRecovery(pr: PullRequest)
    requires IsFailedDeployment(pr) && !IsRecovery(pr)
    ensures Mttr([pr]) == None && ChangeFailureRate([pr]) == Some(100.0)
  {
    assert [pr][..0] == [];
    assert FailedCount([pr]) == 1 && MergedCount([pr]) == 1;
    assert RecoveryHours([pr]) == [];
  }

  /**
   * "Emergency patch" is a failed deployment and not a recovery: alone, it
   * leaves MTTR undefined and makes the change failure rate 100%.
   */
  lemma EmergencyPatchExample(created: int, merged: int)
    ensures Mttr([PullRequest(created, Some(merged), "Emergency patch", "")]) == None
    ensures ChangeFailureRate([PullRequest(created, Some(merged), "Emergency patch", "")]) == Some(100.0)
  {
    ExampleTitles();
    FailureWithoutRecovery(PullRequest(created, Some(merged), "Emergency patch", ""));
  }

  /** Four merged records of which only the last is a failure: a change failure rate of 25%. */
  lemma OneFailureInFour(p1: PullRequest, p2: PullRequest, p3: PullRequest, p4: PullRequest)
    requires IsDeployment(p1) && IsDeployment(p2) && IsDeployment(p3) && IsFailedDeployment(p4)
    requires !IsFailedDeployment(p1) && !IsFailedDeployment(p2) && !IsFailedDeployment(p3)
    ensures ChangeFailureRate([p1, p2, p3, p4]) == Some(25.0)
  {
    var prs := [p1, p2, p3, p4];
    assert prs[..3] == [p1, p2, p3] && [p1, p2, p3][..2] == [p1, p2] && [p1, p2][..1] == [p1] && [p1][..0] == [];
    assert MergedCount([p1]) == 1 && FailedCount([p1]) == 0;
    assert MergedCount([p1, p2]) == 2 && FailedCount([p1, p2]) == 0;
    assert MergedCount([p1, p2, p3]) == 3 && FailedCount([p1, p2, p3]) == 0;
  }

  /** Four merged records, one of them with "rollback" in its body: a change failure rate of 25%. */
  lemma ChangeFailureRateQuarterExample(t: int)
    ensures ChangeFailureRate([PullRequest(t, Some(t + 1), "", ""), PullRequest(t, Some(t + 2), "", ""),
                               PullRequest(t, Some(t + 3), "", ""), PullRequest(t, Some(t + 4), "", "rollback")])
      == Some(25.0)
  {
    EmptyAndRollbackTexts();
    OneFailureInFour(PullRequest(t, Some(t + 1), "", ""), PullRequest(t, Some(t + 2), "", ""),
                     PullRequest(t, Some(t + 3), "", ""), PullRequest(t, Some(t + 4), "", "rollback"));
  }

  /** An empty title and body is no failure; a "rollback" body is one. */
  lemma EmptyAndRollbackTexts()
    ensures !IsFailureText("", "")
    ensures IsFailureText("", "rollback")
  {
    assert Lower("") == "";
    assert Lower("rollback") == "rollback";
    AnyKeywordIff(FailureKeywords, "");
    forall k | k in FailureKeywords ensures !Contains("", k) {
      assert |k| > 0;
    }
    assert StartsWith("rollback", "rollback");
    AnyKeywordIff(FailureKeywords, "rollback");
    assert "rollback" in FailureKeywords;
  }
}
