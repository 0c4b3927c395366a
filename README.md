# Jenkins build-status notifier: the flagging rules

`JenkinsBuildStatusUtil` (lib/index.js) asks a Jenkins server about its jobs and
decides which of them are "failure-flagged": a job is flagged when its last
successful build is older than a threshold given in hours and its latest build
did not succeed. For a job's last failed build it also derives a short failure
summary: the repository name taken from the SCM remote URL, the first commit
of the change set, and a link to that commit on the Stash server.

This project models that decision layer in Dafny over records that have already
been fetched. What the Jenkins server would answer is a `CiSnapshot` value: three
maps from job name to build record (last success, last build, last failure).
The clock is a parameter too: `nowAt` maps each job name to the time in
milliseconds that `moment()` reads when that job's last success arrives, since
the code reads the clock once per job inside that job's callback. The two environment
settings are parameters as well: `JOB_MATCHER` (the fallback job-name filter)
and `STASH_REPO_ROOT` (the base of commit links).

Files:

- `wrappers.dfy`: `Option`, for fields the server may leave out.
- `sequences.dfy`: an order-preserving `Filter` with its membership, order,
  multiset and monotonicity lemmas.
- `js_strings.dfy`: the JavaScript string operations the code relies on
  (`indexOf`, `lastIndexOf`, `replace` with a string pattern), each specified
  against an independent notion of occurrence.
- `build_status.dfy`: the threshold, success and flag rules, the `getJobs`
  filter and `getFlaggedJobs`. `getFlaggedJobs` is a method with a loop that
  appends to a sequence.
- `failure_details.dfy`: the repository name, the commit link and the
  failure summary of `getFailureDetails`.

The model follows the code where its behaviour differs from the evident design intent:

- The repository name is computed with `replace('.git', '')`. This removes the
  FIRST ".git" anywhere in the last path segment, not only a trailing suffix.
  So `foo.github.io.git` gives `foohub.io.git`. `FailureDetails.RepoName`
  models the code. `FailureDetails.StripGitSuffix` is the trailing-suffix
  reading, kept as a reference. `FailureDetails.RepoNameStripsSuffix` proves
  the two agree when the segment's only ".git" is at its end.
- A job without a last success is not treated as "not within threshold".
  The code reads `res.timestamp` of an absent record and throws. The model
  therefore requires the record to be present.
- Flagged jobs are not collected in input order. They are pushed as the
  per-job promises settle. The model takes that settling order as a parameter.
- A threshold so large, or a timestamp so far from the epoch, that a date
  leaves JavaScript's `Date` range (8.64e15 ms either side of 1970) makes
  `isSameOrBefore` false, so such a job counts as outside the threshold. The
  model keeps this, and the monotonicity lemmas hold only inside the range
  (`BuildStatus.ThresholdBeyondDateRange` shows the failure outside it).
- A change set without the expected fields raises no dedicated error. The code
  indexes `actions[9]` and `changeSet.items[0]` directly. The model requires
  those fields to be present (`FailureDetails.HasFailureFields`).

## Model

| member | source | states |
|---|---|---|
| `BuildStatus.IsLastSuccessWithinThreshold` | lib/index.js:37-39 | the last success is within the threshold exactly when the cut-off `now - hours * 3600000` and the timestamp are both valid `Date` values (at most 8.64e15 ms from the epoch) and `now - timestamp <= hours * 3600000`; equality counts as within |
| `BuildStatus.FlagMonotoneInTime` | lib/index.js:38 | with the same records, a flagged job stays flagged as `now` advances, once the earlier cut-off is a valid `Date` |
| `BuildStatus.IsLastBuildSuccessful` | lib/index.js:43-45 | the latest build is successful exactly when it has a result and that result is the string "SUCCESS"; a missing result (build running) is not |
| `BuildStatus.LastBuildSuccessfulByOutcome` | lib/index.js:44 | of the five results Jenkins reports, only SUCCESS counts as successful; UNSTABLE, FAILURE, NOT_BUILT and ABORTED do not |
| `BuildStatus.OutcomeNameInjective` | lib/index.js:44 | the five Jenkins result strings are pairwise distinct, so comparing with "SUCCESS" singles out one result |
| `BuildStatus.IsBuildFailureFlagged` | lib/index.js:47-49 | flagged exactly when outside the threshold and the latest build is not a success; never flagged within the threshold, whatever the latest result |
| `BuildStatus.FlagMonotoneInThreshold` | lib/index.js:37-49 | with `now` and the records fixed, a larger threshold whose cut-off is still a valid `Date` keeps a success within it and never flags a job that was not flagged |
| `BuildStatus.RecentSuccessNeverFlagged` | lib/index.js:47-49 | for a clock reading after 1970, a last success 2 hours old with a 24-hour threshold is never flagged |
| `BuildStatus.ThresholdBeyondDateRange` | lib/index.js:38 | past the `Date` range the rule is not monotone: a failing job whose success is 1 hour old is unflagged at 24 hours and flagged at `Number.MAX_SAFE_INTEGER` hours, whose cut-off is an invalid date |
| `BuildStatus.StaleSuccessFlaggedOnFailure` | lib/index.js:47-49 | a last success 48 hours old with a 24-hour threshold is flagged when the latest result is FAILURE and not when it is SUCCESS |
| `BuildStatus.EffectiveMatcher` | lib/index.js:16 | the JavaScript or-fallback to `JOB_MATCHER`: a non-empty argument is used; an absent or empty one falls back to the environment value |
| `BuildStatus.MatchRule` | lib/index.js:17 | the filter callback keeps a job exactly when the matcher occurs in its name as a substring |
| `BuildStatus.GetJobs` | lib/index.js:15-18 | every kept job is a listed job whose name contains the effective matcher, and no more jobs are kept than were listed |
| `BuildStatus.GetJobsMembership` | lib/index.js:15-18 | a listed job is kept exactly when the effective matcher occurs in its name as a substring |
| `BuildStatus.GetJobsOrder` | lib/index.js:17 | the kept jobs keep their original relative order: filtering a concatenation is the concatenation of the filtered parts |
| `BuildStatus.GetJobsEmptyMatcher` | lib/index.js:17 | an empty effective matcher keeps every job, because `indexOf('')` is 0 |
| `BuildStatus.GetFlaggedJobs` | lib/index.js:51-59 | the pushed jobs are the flagged jobs in the order their decisions settle; as a multiset they equal the flagged sub-multiset of the input; a job is in the result exactly when it is an input job that is flagged at its own clock reading; the result is never longer than the input |
| `BuildStatus.FlaggedMembership` | lib/index.js:51-58 | any sequence with the multiset of the flagged input jobs holds exactly the flagged input jobs and is no longer than the input |
| `BuildStatus.FlaggedJobsShrinkWithThreshold` | lib/index.js:51-58 | raising the threshold gives a sub-multiset of the flagged jobs, while every job's new cut-off is a valid `Date`: no job becomes flagged |
| `BuildStatus.FlaggedJobsGrowWithTime` | lib/index.js:38 | with the same records, reading every job's clock no earlier gives a super-multiset of the flagged jobs, once the earlier cut-offs are valid `Date`s: no job stops being flagged |
| `JsStrings.IndexOf` | lib/index.js:17 | `indexOf` returns the leftmost occurrence, or -1 exactly when the search string occurs nowhere |
| `JsStrings.LastIndexOf` | lib/index.js:64 | `lastIndexOf('/')` returns an index holding '/' with no '/' after it, or -1 exactly when there is no '/' |
| `JsStrings.ReplaceFirst` | lib/index.js:64 | `replace` with a string pattern and a '$'-free replacement leaves the string unchanged when the pattern is absent, and otherwise replaces exactly one occurrence |
| `JsStrings.ReplaceFirstAt` | lib/index.js:64 | `replace` rewrites exactly the leftmost occurrence of the pattern |
| `FailureDetails.LastSegment` | lib/index.js:64 | `substr(lastIndexOf('/') + 1)` is a '/'-free suffix of the URL preceded by '/', or the whole URL when it has no '/' |
| `FailureDetails.LastSegmentOf` | lib/index.js:64 | whatever comes before the last '/', the '/'-free segment after it is what is kept |
| `FailureDetails.RepoName` | lib/index.js:63-64 | the repository name has no '/'; it is the last segment unchanged when that has no ".git", and four characters shorter when it has one |
| `FailureDetails.RepoNameRemovesFirstGit` | lib/index.js:64 | for a '.'-free name, ".../<name>.git<rest>" gives "<name><rest>": the first ".git" is removed even when text follows it |
| `FailureDetails.RepoNameOfCloneUrl` | lib/index.js:64 | a clone URL ".../<name>.git" with a '.'-free name gives `name` |
| `FailureDetails.RepoNameExample` | lib/index.js:63-64 | "https://git.example.com/proj/foo.git" gives "foo" |
| `FailureDetails.RepoNameInnerGit` | lib/index.js:64 | "https://git.example.com/proj/foo.github.io.git" gives "foohub.io.git": an inner ".git" is removed rather than the trailing one |
| `FailureDetails.RepoNameStripsSuffix` | lib/index.js:64 | when the segment's first ".git" is its end, or it has none, the name equals the segment with a trailing ".git" removed |
| `FailureDetails.CommitUrl` | lib/index.js:78 | the commit link starts with the repository root and '/', continues with the repository name, and ends with "/commits/" and the commit id, with nothing else in it |
| `FailureDetails.CommitUrlRoundTrip` | lib/index.js:78 | the commit link `repoRoot/repoName/commits/commitId` can be read back into the same repository name and commit id whenever the name has no '/' |
| `FailureDetails.GetFailureDetails` | lib/index.js:61-81 | the summary names the job; its build details are the failed build's url, number, raw timestamp and raw duration; its repository name comes from the first remote URL of the tenth action and has no '/'; commit id, author and comment all come from the first change-set item; the commit link reads back as that repository name and that commit id |

## Left out

- The `jenkins-api` calls and their Promise and callback wrappers (`getJob`, `getBuild`, `getLastBuild`, `getLastFailure`, `getLastSuccess`, `getBuilds` and the fetching inside the rules). These do network I/O through a library that is not part of this model. Their answers are the `CiSnapshot` parameter.
- Errors passed to the callbacks. The code ignores them, so the model has no error results. A record the code reads without checking is required to be present (`Fetched`, `HasFailureFields`).
- `moment()` as the clock. Each job's reading is given in the parameter `nowAt`, keyed by job name, so two listed jobs with the same name would share one reading; Jenkins job names are unique on one server.
- The date (`MM-DD-YY`) and duration (`mm:ss`) formatting through `moment`. This depends on a foreign library and on the time zone. `BuildDetails` keeps the raw timestamp and duration.
- BuildStatus.IsLastSuccessWithinThreshold: the threshold is a whole number of hours; fractional thresholds, which `moment` accepts, are not modelled.
- The order in which `Promise.all` settles the per-job decisions. The model takes it as the `completion` parameter and makes no claim that input order is kept.
- What `indexOf(undefined)` does when neither a matcher nor `JOB_MATCHER` is set. The environment value is always a string here.
- The stubs `getAverageSuccessBuildTime`, `getAverageFailureBuildTime` and `getSuccessfulBuildProbability`, which have no body, and the unused `resultSize` parameter of `getBuilds`.
- JavaScript strings are sequences of UTF-16 code units; Dafny strings here are sequences of Unicode scalar values. The indices `JsStrings.IndexOf` and `JsStrings.LastIndexOf` return are scalar positions, which differ from JavaScript's once a character outside the Basic Multilingual Plane comes first. The core's string results (whether the matcher occurs in a job name, the segment after the last '/', the removal of the first ".git") agree with JavaScript only on well-formed strings; strings holding a lone surrogate cannot be expressed.
- JsStrings.ReplaceFirst: the `$&`, `$$`, `` $` `` and `$'` patterns JavaScript expands in a replacement string are not modelled, so the replacement is required to contain no '$'; the core only ever passes the empty replacement.
