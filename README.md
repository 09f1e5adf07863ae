# DORA metrics from pull requests (DoraPulse core)

This project models the metric core of DoraPulse. The service turns the pull requests of one GitHub
repository into the four DORA metrics:

- **lead time for changes**: the mean hours from creation to merge of the merged pull requests;
- **deployment frequency**: merges inside a trailing window of 30 days, divided by the window length;
- **mean time to recovery**: the mean hours to merge of merged pull requests whose title names a fix,
  hotfix, revert or rollback;
- **change failure rate**: the percentage of merged pull requests whose title or body carries one of those
  words or "emergency".

It also models the HTTP handler `generate_metrics` and the helper `verify_token`:

- The handler checks the `Authorization` value and the repository name.
- It takes the fetched pull requests as given.
- It short-circuits an empty list to an all-zero answer.
- It runs the four calculators and replaces an undefined metric with 0.

Layout:

- `wrappers.dfy`: `Option` and `Result`.
- `http.dfy`: an HTTP error, a status plus a detail text.
- `text.dfy`: the string operations the source relies on:
  - ASCII `lower()`;
  - substring membership `k in s`;
  - `startswith`;
  - `str.split(sep)` with its first-occurrence search, and its round trip with `join`.
- `pull_requests.dfy`: the pull-request record and the keyword predicates for a recovery and for a failed
  deployment. It also models two readings of a `body` field that is JSON `null`, to show how the code fails
  on it.
- `dora_spec.dfy`: the four metrics as functions of the record list, each with "undefined" as `None`. It
  also holds the reference day buckets of deployment frequency and the deployment frequency as written.
- `dora_metrics.dfy`: the four calculators as methods with the loops of the source. Each is proved equal to
  its function in `dora_spec.dfy`.
- `dora_properties.dfy`: lemmas about the metrics:
  - when each one is undefined;
  - bounds;
  - records that leave a metric unchanged;
  - the bucket total;
  - the inclusive window;
  - the relation between recoveries and failures;
  - worked examples.
- `auth.dfy`: `verify_token`.
- `api.dfy`: `generate_metrics`, with the corrected calculators and also as written.

Modelling choices:

- **Timestamps** are integer seconds, UTC instants.
  - A calendar date is `t / 86400`. Dafny's division rounds down here, as Python's date does for UTC times.
  - The clock (`datetime.now()`) is the parameter `now`.
- **Hours and rates** are `real`s, not floats.
- **Fetched records** are the parameter `fetched`: a list of records, or the HTTP error raised by the
  credential check or the fetch.
- **The `defaultdict` of per-date counts** is an association list of day and count, in first-seen order.
  Its total is proved equal to the number of merges inside the window.

Deployment frequency is modelled twice:

- **As intended**: `DoraMetrics.CalculateDeploymentFrequency` and `DoraSpec.DeploymentFrequency` count the
  merges inside the window. The endpoint model `Api.GenerateMetrics` uses this version.
- **As written**: `DoraSpec.DeploymentFrequencyAsWritten` and `Api.ComputeAsWritten` follow the code, which
  compares a naive clock reading with timezone-aware merge times and raises (see "## Findings").

## Model

| member | source | states |
|---|---|---|
| PullRequests.AnyKeywordIff | backend/metrics/dora_metrics.py:51 | `any(keyword in text for keyword in ks)` holds exactly when some keyword of the list occurs in the text |
| PullRequests.IsRecoveryTitleIff | backend/metrics/dora_metrics.py:50-51 | a title is a recovery title exactly when its lower-cased form contains one of "fix", "hotfix", "revert", "rollback" |
| PullRequests.IsFailureTextIff | backend/metrics/dora_metrics.py:73-77 | title and body are a failure text exactly when some failure keyword occurs in the lower-cased title or in the lower-cased body |
| PullRequests.LeadHoursElapsed | backend/metrics/dora_metrics.py:13 | lead hours times 3600 are the elapsed seconds from creation to merge, and they are non-negative exactly when the merge does not precede the creation |
| PullRequests.DateKey | backend/metrics/dora_metrics.py:32 | the date key is the UTC day whose 86400 seconds contain the instant |
| PullRequests.InWindow | backend/metrics/dora_metrics.py:31 | an instant inside the window falls on a date between `days` days before the evaluation date and the evaluation date |
| DoraSpec.Bump | backend/metrics/dora_metrics.py:33 | one increment adds at most one entry to the per-date counts |
| DoraProperties.BumpUpdates | backend/metrics/dora_metrics.py:33 | `deployments_by_date[date_key] += 1`: other dates keep their entries, the date's entry goes up by one, and a new date is appended with count 1 |
| PullRequests.RecoveryTitleIgnoresCase | backend/metrics/dora_metrics.py:50-77 | classification is made on lower-cased texts, so lower-casing the title or the body first changes neither the recovery test nor the failure test |
| PullRequests.HotfixKeywordRedundant | backend/metrics/dora_metrics.py:76-77 | "hotfix" contains "fix", so both keyword lists match the same texts without it |
| PullRequests.RecoveryIsFailedDeployment | backend/metrics/dora_metrics.py:48-78 | every pull request counted by MTTR is also counted as a failed deployment by the change failure rate |
| PullRequests.EmergencyIsFailureNotRecovery | backend/metrics/dora_metrics.py:51-77 | a merged "emergency" pull request with no recovery word in its title is a failure but not a recovery |
| PullRequests.BodyAsWritten | backend/metrics/dora_metrics.py:74 | `pr.get("body", "").lower()` as written fails exactly when the body is JSON `null`; otherwise it yields the lower-cased corrected reading: an absent key reads as `""`, a text as its lower-cased form |
| PullRequests.BodyOrEmpty | backend/metrics/dora_metrics.py:74 | corrected reading: a missing or `null` body reads as the empty text, a present one as itself |
| PullRequests.BodyReadingAgrees | backend/metrics/dora_metrics.py:74 | wherever the as-written reading succeeds it equals the lower-cased corrected reading; on `null` only the corrected one succeeds |
| DoraMetrics.CalculateLeadTime | backend/metrics/dora_metrics.py:4-16 | the loop yields the mean lead time in hours of the merged records, and `None` exactly when no record is merged |
| DoraMetrics.CalculateDeploymentFrequency | backend/metrics/dora_metrics.py:18-40 | the two loops (bucketing per date, then summing the buckets) yield the in-window merge count divided by the window length, `None` on an empty input and 0 when the window is empty |
| DoraMetrics.CalculateMttr | backend/metrics/dora_metrics.py:42-59 | the loop yields the mean hours of merged records with a recovery word in the title, `None` if there is none |
| DoraMetrics.CalculateChangeFailureRate | backend/metrics/dora_metrics.py:61-82 | the counting loop yields failed/merged times 100, always within 0 to 100, `None` when no record is merged |
| DoraProperties.SumAppend | backend/metrics/dora_metrics.py:15 | the `sum` of a concatenation is the sum of the parts |
| DoraProperties.MeanBounds | backend/metrics/dora_metrics.py:14-15 | a mean of values in [lo, hi] lies in [lo, hi] |
| DoraProperties.MergedCountPositiveIff | backend/metrics/dora_metrics.py:70-71 | some record is merged exactly when the merged count is positive |
| DoraProperties.EmptyInputUndefined | backend/metrics/dora_metrics.py:6-64 | all four calculators answer undefined on an empty input |
| DoraProperties.MergedHoursLength | backend/metrics/dora_metrics.py:10-13 | one lead time is collected per merged record |
| DoraProperties.MergedHoursAppend | backend/metrics/dora_metrics.py:9-13 | the lead times of a concatenation are those of the parts, in order |
| DoraProperties.LeadTimeUndefinedIff | backend/metrics/dora_metrics.py:14-16 | lead time is undefined exactly when no record is merged |
| DoraProperties.LeadTimeIsMean | backend/metrics/dora_metrics.py:13-15 | lead time is the sum of merged lead hours divided by the number of merged records |
| DoraProperties.LeadTimeIgnoresUnmerged | backend/metrics/dora_metrics.py:10 | inserting an unmerged record anywhere leaves the lead time unchanged |
| DoraProperties.LeadTimeBounds | backend/metrics/dora_metrics.py:13-15 | a lead time lies between the smallest and largest lead hours of the merged records |
| DoraProperties.LeadTimeNonNegative | backend/metrics/dora_metrics.py:11-15 | when nothing is merged before it is created, the lead time is not negative |
| DoraProperties.LeadTimeFiveHours | backend/metrics/dora_metrics.py:11-15 | one record merged five hours after creation gives a lead time of 5.0 |
| DoraProperties.TotalAppend | backend/metrics/dora_metrics.py:39 | the total of concatenated bucket lists is the sum of their totals |
| DoraProperties.BumpTotal | backend/metrics/dora_metrics.py:33 | `deployments_by_date[date_key] += 1` raises the bucket total by exactly one |
| DoraProperties.BumpDays | backend/metrics/dora_metrics.py:33 | a bump adds no date other than its own and keeps one bucket per date |
| DoraProperties.BucketsDistinctDays | backend/metrics/dora_metrics.py:24-33 | the per-date buckets hold each calendar date at most once |
| DoraProperties.BucketsTotal | backend/metrics/dora_metrics.py:24-39 | the sum of the per-date buckets is the number of merges inside the window |
| DoraProperties.WindowCountAtMostMerged | backend/metrics/dora_metrics.py:29-31 | no more merges fall in the window than there are merged records |
| DoraProperties.WindowCountZero | backend/metrics/dora_metrics.py:31-36 | with no merge time inside the window the count is zero |
| DoraProperties.DeploymentFrequencyBounds | backend/metrics/dora_metrics.py:35-40 | deployment frequency lies between 0 and merged count divided by days |
| DoraProperties.DeploymentFrequencyZero | backend/metrics/dora_metrics.py:35-36 | a non-empty input with no merge inside the window gives 0, not undefined |
| DoraProperties.SingleRecordFrequency | backend/metrics/dora_metrics.py:28-40 | one record gives 1/days when merged inside the window and 0 otherwise |
| DoraProperties.WindowIsInclusive | backend/metrics/dora_metrics.py:31 | both ends of `start_date <= merged_date <= end_date` count, and one second outside either end does not |
| DoraProperties.FrequencyNotPerActiveDay | backend/metrics/dora_metrics.py:39-40 | two merges on the same date fill one bucket yet give 2/30: the divisor is the window, not the number of active dates |
| DoraProperties.SameDay | backend/metrics/dora_metrics.py:32 | two instants one second apart, the later not at midnight, share a date key |
| DoraProperties.FrequencyThreeInThirtyDays | backend/metrics/dora_metrics.py:35-40 | three merges spread over the last nine days give 3/30 = 0.1 over the default window |
| DoraSpec.WindowScanAsWritten | backend/metrics/dora_metrics.py:25-31 | the naive/aware comparison raises exactly when some record is merged |
| DoraSpec.DeploymentFrequencyAsWritten | backend/metrics/dora_metrics.py:18-40 | as written, the calculator never answers anything but undefined or 0 |
| DoraProperties.DeploymentFrequencyAsWrittenRaises | backend/metrics/dora_metrics.py:25-31 | as written, any merged record makes the calculator raise |
| DoraProperties.DeploymentFrequencyAsWrittenAgrees | backend/metrics/dora_metrics.py:20-36 | without merged records the as-written and corrected calculators agree |
| DoraProperties.DeploymentFrequencyCounterexample | backend/metrics/dora_metrics.py:30-31 | one record merged at the evaluation time raises as written, where the corrected calculator gives 1/30 |
| DoraProperties.RecoveryHoursEmptyIff | backend/metrics/dora_metrics.py:48-55 | no recovery time is collected exactly when no record is a merged recovery |
| DoraProperties.RecoveryHoursAppend | backend/metrics/dora_metrics.py:48-55 | the recovery times of a concatenation are those of the parts |
| DoraProperties.MttrUndefinedIff | backend/metrics/dora_metrics.py:57-59 | MTTR is undefined exactly when no record is a merged recovery |
| DoraProperties.MttrIgnoresNonRecovery | backend/metrics/dora_metrics.py:51-52 | inserting a record that is not a merged recovery anywhere leaves MTTR unchanged |
| DoraProperties.RecoveriesAreFailures | backend/metrics/dora_metrics.py:51-78 | there are never more recoveries than failed deployments |
| DoraProperties.FailedAtMostMerged | backend/metrics/dora_metrics.py:66-78 | failed deployments are counted only among merged records |
| DoraProperties.ChangeFailureRateBounds | backend/metrics/dora_metrics.py:80-81 | the change failure rate is a percentage in [0, 100] |
| DoraProperties.ChangeFailureRateUndefinedIff | backend/metrics/dora_metrics.py:80-82 | the change failure rate is undefined exactly when no record is merged |
| DoraProperties.NoRecoveryKeyword | backend/metrics/dora_metrics.py:51 | a text without 'x', 'v' and 'o' contains none of the recovery keywords |
| DoraProperties.ExampleTitles | backend/metrics/dora_metrics.py:50-51 | "Hotfix: crash on startup" is a recovery title; "Add feature" and "Emergency patch" are not, but the latter is a failure text |
| DoraProperties.MttrOfOneRecovery | backend/metrics/dora_metrics.py:51-58 | with one merged recovery and one other record, MTTR is that recovery's hours |
| DoraProperties.MttrHotfixExample | backend/metrics/dora_metrics.py:50-58 | a hotfix merged two hours after creation next to a feature gives an MTTR of 2.0 |
| DoraProperties.FailureWithoutRecovery | backend/metrics/dora_metrics.py:51-81 | a lone failed deployment that is no recovery gives MTTR undefined and a change failure rate of 100 |
| DoraProperties.EmergencyPatchExample | backend/metrics/dora_metrics.py:73-81 | a merged "Emergency patch" gives MTTR undefined and a change failure rate of 100 |
| DoraProperties.OneFailureInFour | backend/metrics/dora_metrics.py:69-81 | one failed deployment among four merged ones gives 25 |
| DoraProperties.ChangeFailureRateQuarterExample | backend/metrics/dora_metrics.py:69-81 | three plain merges and one whose body is "rollback" give 25.0 |
| DoraProperties.EmptyAndRollbackTexts | backend/metrics/dora_metrics.py:76-77 | empty title and body are not a failure; a body of "rollback" is |
| Auth.FirstSpaceAfterBearer | backend/auth/auth.py:14 | in a value starting with "Bearer ", the first space is at position 6 |
| Auth.VerifyToken | backend/auth/auth.py:8-14 | 401 with its fixed detail exactly when the value is missing, empty or lacks the "Bearer " prefix; otherwise the text after the prefix up to the next space |
| Auth.VerifyTokenExtractsWord | backend/auth/auth.py:14 | the extracted token is a prefix of the text after "Bearer " and contains no space |
| Auth.VerifyTokenExamples | backend/auth/auth.py:14 | "Bearer abc" gives "abc", "Bearer " gives "", "Bearer a b" gives "a" |
| Auth.WordAfterBearer | backend/auth/auth.py:14 | a space-free word after the prefix, followed by a space or the end, is what is returned |
| Auth.VerifyTokenRejects | backend/auth/auth.py:9-13 | "bearer abc", "Bearer", the empty value and a missing value are all refused |
| Api.ExtractGithubToken | backend/main.py:28-33 | 401 exactly when the value lacks the "Bearer " prefix; otherwise the text after it up to the next "Bearer " |
| Api.RequireRepo | backend/main.py:36-37 | 400 exactly when the repository name is missing or empty |
| Api.NoneToZero | backend/main.py:79 | the substitution keeps every key, passes defined values through and turns undefined ones into 0 |
| Api.Compute | backend/main.py:50-79 | the answer has exactly the four metric keys, each holding its calculator's value or 0, whether or not the empty-input short-circuit is taken |
| Api.EmptyShortCircuitAgrees | backend/main.py:50-57 | the all-zero short-circuit equals running the calculators on an empty list and substituting |
| Api.GenerateMetrics | backend/main.py:25-86 | checks in order: 401 without the prefix, 400 without a repository, 500 when the extracted GitHub token is empty; otherwise a fetch error is answered unchanged; succeeds exactly when all pass, with the four-key result |
| Api.FetchErrorPassesThrough | backend/main.py:82-83 | an HTTP error of the credential check or the fetch is answered unchanged |
| Api.EmptyGithubTokenIs500 | backend/main.py:33-40 | the extracted GitHub token is empty exactly for `"Bearer "` and for values starting with `"Bearer Bearer "`, and each is answered with the client's 500 |
| Api.ExtractionsDiffer | backend/main.py:33 | the handler keeps "a b" from "Bearer a b", where `verify_token` keeps "a" |
| Api.ComputeAsWritten | backend/main.py:60-81 | as written, whenever the handler does answer, its answer is the corrected result |
| Api.ComputeAsWrittenFailsOnMerges | backend/main.py:84-86 | as written, the handler answers 500 with the comparison error exactly when some fetched record is merged |

## Left out

- ISO-8601 parsing (`fromisoformat` with the `Z` rewrite) is left out: records carry already parsed
  instants. A malformed timestamp, and the 500 it would cause, is not modelled.
- The clock is the parameter `now`. The model treats it as a UTC instant. The source reads local naive
  time, which is what causes the first finding.
- Floating point is replaced by exact reals, so rounding is not modelled.
- The integer 0 the source returns for an empty window or a substituted `None` is the real 0.
- Lower-casing covers ASCII letters only. Python's Unicode case mapping is not modelled.
- The network is not modelled: `validate_credentials`, `fetch_pull_requests` and their pagination live in
  `backend/common/github_client.py`. Their outcome is the `fetched` input.
- The `ValueError` for an empty repository name in the GitHub client cannot happen after the 400 check, so
  it is not modelled.
- FastAPI plumbing is not modelled: routing, CORS, and the 403 that `APIKeyHeader` gives when the
  `Authorization` header is absent. The handler always receives a text.
- `print` logging is left out.
- The Excel export (`backend/metrics/export_to_excel.py`) and the frontend are not part of this model.
- Dictionary key order of the answer is not modelled: the answer is a map.
- A record without `created_at` is not modelled, nor a `title` that is `null`. GitHub always sends both,
  so the MTTR test of `created_at` is always true here.
- The record's `body` is a text. The `null` body is modelled only for the body read itself, in
  `PullRequests.BodyAsWritten`.
- `DoraMetrics.CalculateDeploymentFrequency` requires a positive window. The source always passes 30; a
  window of 0 or less divides by zero or empties the window, and is not modelled.
- `Api.GenerateMetrics` uses the corrected calculators. The as-written endpoint is
  `Api.ComputeAsWritten`.

## Findings

| source | as written | input that shows it | evidently intended | confidence | as-written member | corrected member |
|---|---|---|---|---|---|---|
| backend/metrics/dora_metrics.py:25-31 | `end_date = datetime.now()` is naive while `merged_date` parsed from `...+00:00` is timezone-aware, so `start_date <= merged_date` raises `TypeError`; the handler answers 500 | any fetched list with one merged pull request, e.g. one merged at the evaluation time | count the merges inside the last 30 days and divide by 30 | high, not executed | DoraSpec.DeploymentFrequencyAsWritten | DoraMetrics.CalculateDeploymentFrequency |
| backend/metrics/dora_metrics.py:74 | `pr.get("body", "")` returns `None` when GitHub sends `"body": null`, and `.lower()` raises `AttributeError`. Through the endpoint as written the deployment-frequency error comes first: the body is read only for merged records, and deployment frequency, called first, raises on every merged record. The crash shows when `calculate_change_failure_rate` is called directly, or once the first finding is fixed | `calculate_change_failure_rate` called directly on one merged pull request whose body is `null` | treat a `null` body as the empty text | medium, not executed | PullRequests.BodyAsWritten | PullRequests.BodyOrEmpty |
