/**
 * One pull-request record as the metric calculators read it, and the
 * classification heuristics they inline: "is a deployment" (merged),
 * "is a recovery" (MTTR: fix-type title) and "is a failure" (change failure
 * rate: failure keyword in title or body).
 *
 * Timestamps are already parsed, in whole seconds since the Unix epoch (UTC).
 */
module PullRequests {
  import opened Wrappers
  import opened Text

  /**
   * `createdAt` is `created_at`; `mergedAt` is `merged_at`, `None` when the
   * pull request was never merged; `title` and `body` are the texts, `""` when
   * the key is absent. The case of a JSON `null` body is the subject of
   * `BodyAsWritten` below: every record here already carries a string.
   */
  datatype PullRequest = PullRequest(createdAt: int, mergedAt: Option<int>, title: string, body: string)

  const SecondsPerHour: int := 3600
  const SecondsPerDay: int := 86400

  /** The title keywords that mark a recovery for MTTR. */
  const RecoveryKeywords: seq<string> := ["fix", "hotfix", "revert", "rollback"]

  /** The title-or-body keywords that mark a failed deployment for the change failure rate. */
  const FailureKeywords: seq<string> := ["fix", "hotfix", "revert", "rollback", "emergency"]

  /** Python's `any(k in text for k in keywords)`. */
  predicate AnyKeyword(keywords: seq<string>, text: string)
  {
    if keywords == [] then false
    else Contains(text, keywords[0]) || AnyKeyword(keywords[1..], text)
  }

  /** `AnyKeyword` holds exactly when some keyword of the list occurs in the text. */
  lemma {:induction false} AnyKeywordIff(keywords: seq<string>, text: string)
    ensures AnyKeyword(keywords, text) <==> exists k :: k in keywords && Contains(text, k)
  {
    if keywords != [] {
      AnyKeywordIff(keywords[1..], text);
      assert keywords[0] in keywords;
      assert forall k :: k in keywords <==> k == keywords[0] || k in keywords[1..];
    }
  }

  /** Merging is the proxy for a production deployment. */
  predicate IsDeployment(pr: PullRequest)
  {
    pr.mergedAt.Some?
  }

  /** The lower-cased title holds one of the recovery keywords. */
  predicate IsRecoveryTitle(title: string)
  {
    AnyKeyword(RecoveryKeywords, Lower(title))
  }

  /** A recovery title is one whose lower-cased form contains some recovery keyword. */
  lemma IsRecoveryTitleIff(title: string)
    ensures IsRecoveryTitle(title) <==> exists k :: k in RecoveryKeywords && Contains(Lower(title), k)
  {
    AnyKeywordIff(RecoveryKeywords, Lower(title));
  }

  /**
   * MTTR's filter: a recovery title and both timestamps present. `created_at`
   * is always present in a record, so only `merged_at` decides.
   */
  predicate IsRecovery(pr: PullRequest)
  {
    IsRecoveryTitle(pr.title) && IsDeployment(pr)
  }

  /** Each failure keyword is looked for in the lower-cased title and in the lower-cased body. */
  predicate IsFailureText(title: string, body: string)
  {
    AnyKeyword(FailureKeywords, Lower(title)) || AnyKeyword(FailureKeywords, Lower(body))
  }

  /** A failure text is one where some failure keyword occurs in the lower-cased title or the lower-cased body. */
  lemma IsFailureTextIff(title: string, body: string)
    ensures IsFailureText(title, body) <==>
      exists k :: k in FailureKeywords && (Contains(Lower(title), k) || Contains(Lower(body), k))
  {
    AnyKeywordIff(FailureKeywords, Lower(title));
    AnyKeywordIff(FailureKeywords, Lower(body));
  }

  /** A deployment whose title or body holds a failure keyword. */
  predicate IsFailedDeployment(pr: PullRequest)
  {
    IsDeployment(pr) && IsFailureText(pr.title, pr.body)
  }

  /** `(merged - created).total_seconds() / 3600`. */
  function LeadHours(pr: PullRequest): real
    requires IsDeployment(pr)
  {
    (pr.mergedAt.value - pr.createdAt) as real / SecondsPerHour as real
  }

  /** Lead hours are the elapsed seconds from creation to merge counted in hours, negative when merged before created. */
  lemma LeadHoursElapsed(pr: PullRequest)
    requires IsDeployment(pr)
    ensures LeadHours(pr) * 3600.0 == (pr.mergedAt.value - pr.createdAt) as real
    ensures LeadHours(pr) >= 0.0 <==> pr.createdAt <= pr.mergedAt.value
  {
  }

  /** `merged_date.date()` of a UTC timestamp, as a day number; `/` floors for a positive divisor, as Python's does. */
  function DateKey(t: int): (r: int)
    ensures r * SecondsPerDay <= t < r * SecondsPerDay + SecondsPerDay
  {
    t / SecondsPerDay
  }

  /** `start_date <= merged_date <= end_date` with `end_date = now` and `start_date = now - days`. */
  predicate InWindow(t: int, now: int, days: int)
    ensures InWindow(t, now, days) ==> DateKey(now) - days <= DateKey(t) <= DateKey(now)
  {
    now - days * SecondsPerDay <= t <= now
  }

  /** Matching ignores case: lower-casing a title or a body first changes nothing. */
  lemma RecoveryTitleIgnoresCase(title: string, body: string)
    ensures IsRecoveryTitle(Lower(title)) == IsRecoveryTitle(title)
    ensures IsFailureText(Lower(title), Lower(body)) == IsFailureText(title, body)
  {
    LowerIsLowerCase(title);
    LowerIsLowerCase(body);
  }

  /** `hotfix` in the keyword lists is redundant: `fix` alone already matches every such title. */
  lemma HotfixKeywordRedundant(text: string)
    ensures AnyKeyword(RecoveryKeywords, text) <==> AnyKeyword(["fix", "revert", "rollback"], text)
    ensures AnyKeyword(FailureKeywords, text) <==> AnyKeyword(["fix", "revert", "rollback", "emergency"], text)
  {
    if Contains(text, "hotfix") {
      HotfixContainsFix(text);
    }
  }

  /** Every merged recovery counts as a failed deployment: the failure keywords include the recovery keywords. */
  lemma RecoveryIsFailedDeployment(pr: PullRequest)
    requires IsRecovery(pr)
    ensures IsFailedDeployment(pr)
  {
    AnyKeywordIff(RecoveryKeywords, Lower(pr.title));
    AnyKeywordIff(FailureKeywords, Lower(pr.title));
  }

  /**
   * The two keyword tests differ: `emergency` counts only as a failure, and the
   * body is searched only for a failure. A merged record whose text mentions
   * `emergency` and no recovery keyword is a failed deployment and not a recovery.
   */
  lemma EmergencyIsFailureNotRecovery(pr: PullRequest)
    requires IsDeployment(pr)
    requires Contains(Lower(pr.title), "emergency") || Contains(Lower(pr.body), "emergency")
    requires forall k :: k in RecoveryKeywords ==> !Contains(Lower(pr.title), k)
    ensures IsFailedDeployment(pr)
    ensures !IsRecovery(pr)
  {
    AnyKeywordIff(RecoveryKeywords, Lower(pr.title));
    AnyKeywordIff(FailureKeywords, Lower(pr.title));
    AnyKeywordIff(FailureKeywords, Lower(pr.body));
    assert "emergency" in FailureKeywords;
  }

  /**
   * How `pr.get("body", "")` sees the `body` key of a raw record: absent, JSON
   * `null`, or a string.
   */
  datatype BodyField = Absent | Null | Text(text: string)

  /** The exception `.lower()` raises on `None`. */
  datatype ReadError = NoneHasNoLower

  /**
   * `pr.get("body", "").lower()` as written: the default applies only to an
   * absent key, so a `null` body reaches `.lower()` as `None` and raises.
   */
  function BodyAsWritten(field: BodyField): (r: Result<string, ReadError>)
    ensures r.Err? <==> field == Null
    ensures r.Ok? ==> r.value == Lower(BodyOrEmpty(field))
  {
    match field
    case Absent => Ok("")
    case Null => Err(NoneHasNoLower)
    case Text(s) => Ok(Lower(s))
  }

  /** The evidently intended reading: a missing and a `null` body are both the empty text. */
  function BodyOrEmpty(field: BodyField): (r: string)
    ensures field.Text? ==> r == field.text
    ensures !field.Text? ==> r == ""
  {
    match field
    case Text(s) => s
    case _ => ""
  }

  /** The intended reading agrees with the code wherever the code does not raise, and gives `""` where it does. */
  lemma BodyReadingAgrees(field: BodyField)
    ensures BodyAsWritten(field).Ok? ==> BodyAsWritten(field).value == Lower(BodyOrEmpty(field))
    ensures BodyAsWritten(Null).Err? && BodyOrEmpty(Null) == ""
  {
  }
}
