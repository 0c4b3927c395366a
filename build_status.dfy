/**
  The decision layer of `JenkinsBuildStatusUtil` (lib/index.js): whether a job's
  last success is recent enough, whether its latest build succeeded, whether it
  is flagged, which jobs match the configured name filter, and the collection
  of flagged jobs. Records the CI server would return are passed in as a
  `CiSnapshot`. The clock is a parameter: the single-job rules take one reading
  `now` (milliseconds), and the collection takes `nowAt`, one reading per job
  name, because each job's callback reads the clock for itself.
 */
module BuildStatus {
  import opened Wrappers
  import opened Sequences
  import opened JsStrings

  /** A job as listed by the CI server; only `name` is used by the rules. */
  datatype Job = Job(name: string, url: string, color: string)

  /** One commit of a build's change set. */
  datatype ChangeItem = ChangeItem(commitId: string, authorFullName: string, msg: string)

  /** One entry of a build's `actions` list; only the SCM entry carries `remoteUrls`. */
  datatype Action = Action(remoteUrls: Option<seq<string>>)

  /**
    A build record. `result` is absent while the build is still running;
    `timestamp` and `duration` are in milliseconds.
   */
  datatype Build = Build(
    url: string,
    number: int,
    timestamp: int,
    duration: int,
    result: Option<string>,
    actions: seq<Action>,
    changeSet: seq<ChangeItem>)

  /** What the CI server answers for each job name; a missing key means no such build. */
  datatype CiSnapshot = CiSnapshot(
    lastSuccess: map<string, Build>,
    lastBuild: map<string, Build>,
    lastFailure: map<string, Build>)

  /** `moment().subtract(h, 'hours')` moves the clock by exactly h * 3600000 ms. */
  const HourMillis: int := 60 * 60 * 1000

  /** The largest magnitude of a JavaScript `Date` time value, in ms (ECMAScript TimeClip). */
  const MaxTime: int := 8_640_000_000_000_000

  /** `t` is a valid `Date` time value; outside this range the date is invalid (NaN). */
  predicate InDateRange(t: int) {
    -MaxTime <= t <= MaxTime
  }

  // ---------------------------------------------------------------- rules

  /**
    `isLastSuccessWithinThreshold`: the cut-off `now - hours` is the same as or
    before the last success. `now` is the clock reading taken when the last
    success arrives. A cut-off or timestamp outside the `Date` range is an
    invalid date, and `isSameOrBefore` on an invalid date is false. Otherwise
    within exactly when the success is at most `thresholdHours` old, inclusive
    at equality.
   */
  function IsLastSuccessWithinThreshold(lastSuccess: Build, thresholdHours: int, now: int): (within: bool)
    ensures within <==>
      InDateRange(now - thresholdHours * HourMillis) && InDateRange(lastSuccess.timestamp)
      && now - lastSuccess.timestamp <= thresholdHours * HourMillis
    ensures InDateRange(lastSuccess.timestamp) && now - lastSuccess.timestamp == thresholdHours * HourMillis ==> within
  {
    var cutoff := now - thresholdHours * HourMillis;
    InDateRange(cutoff) && InDateRange(lastSuccess.timestamp) && cutoff <= lastSuccess.timestamp
  }

  /** `isLastBuildSuccessful`: the result is strictly equal to the string "SUCCESS"; a running build (no result) is not. */
  function IsLastBuildSuccessful(lastBuild: Build): (ok: bool)
    ensures ok <==> lastBuild.result.Some? && lastBuild.result.value == "SUCCESS"
    ensures lastBuild.result == None ==> !ok
  {
    lastBuild.result == Some("SUCCESS")
  }

  /**
    `isBuildFailureFlagged`: never flagged within the threshold; otherwise flagged
    unless the latest build succeeded. So flagged exactly when outside the
    threshold and the latest build is not a success.
   */
  function IsBuildFailureFlagged(lastSuccess: Build, lastBuild: Build, thresholdHours: int, now: int): (flagged: bool)
    ensures flagged <==> !IsLastSuccessWithinThreshold(lastSuccess, thresholdHours, now) && !IsLastBuildSuccessful(lastBuild)
    ensures IsLastSuccessWithinThreshold(lastSuccess, thresholdHours, now) ==> !flagged
  {
    if IsLastSuccessWithinThreshold(lastSuccess, thresholdHours, now) then false
    else !IsLastBuildSuccessful(lastBuild)
  }

  /** The results Jenkins reports for a finished build. */
  datatype Outcome = Success | Unstable | Failure | NotBuilt | Aborted

  /** The string Jenkins reports for each result. */
  function OutcomeName(o: Outcome): (name: string) {
    match o
    case Success => "SUCCESS"
    case Unstable => "UNSTABLE"
    case Failure => "FAILURE"
    case NotBuilt => "NOT_BUILT"
    case Aborted => "ABORTED"
  }

  /** Distinct results are reported as distinct strings. */
  lemma OutcomeNameInjective(o1: Outcome, o2: Outcome)
    ensures OutcomeName(o1) == OutcomeName(o2) ==> o1 == o2
  {
    if OutcomeName(o1) == OutcomeName(o2) {
      // the five names already differ in their first character
      assert OutcomeName(o1)[0] == OutcomeName(o2)[0];
      match o1
      case Success => assert OutcomeName(o1)[0] == 'S';
      case Unstable => assert OutcomeName(o1)[0] == 'U';
      case Failure => assert OutcomeName(o1)[0] == 'F';
      case NotBuilt => assert OutcomeName(o1)[0] == 'N';
      case Aborted => assert OutcomeName(o1)[0] == 'A';
    }
  }

  /** Of the finished results, only SUCCESS counts; a running build (no result) does not either. */
  lemma LastBuildSuccessfulByOutcome(lastBuild: Build, o: Outcome)
    ensures lastBuild.result == Some(OutcomeName(o)) ==> (IsLastBuildSuccessful(lastBuild) <==> o == Success)
  {
    match o
    case Success =>
    case Unstable => assert OutcomeName(o)[0] == 'U';
    case Failure => assert OutcomeName(o)[0] == 'F';
    case NotBuilt => assert OutcomeName(o)[0] == 'N';
    case Aborted => assert OutcomeName(o)[0] == 'A';
  }

  /**
    A longer threshold keeps a success within it, and can only un-flag a job,
    as long as the longer threshold's cut-off is still a valid date.
   */
  lemma FlagMonotoneInThreshold(lastSuccess: Build, lastBuild: Build, t1: int, t2: int, now: int)
    requires t1 <= t2
    requires now - t2 * HourMillis >= -MaxTime
    ensures IsLastSuccessWithinThreshold(lastSuccess, t1, now) ==> IsLastSuccessWithinThreshold(lastSuccess, t2, now)
    ensures !IsBuildFailureFlagged(lastSuccess, lastBuild, t1, now) ==> !IsBuildFailureFlagged(lastSuccess, lastBuild, t2, now)
  {
  }

  /** As time passes with the same records, a flagged job stays flagged, once the earlier cut-off is a valid date. */
  lemma FlagMonotoneInTime(lastSuccess: Build, lastBuild: Build, thresholdHours: int, now1: int, now2: int)
    requires now1 <= now2
    requires now1 - thresholdHours * HourMillis >= -MaxTime
    ensures IsBuildFailureFlagged(lastSuccess, lastBuild, thresholdHours, now1)
        ==> IsBuildFailureFlagged(lastSuccess, lastBuild, thresholdHours, now2)
  {
  }

  /** Last success 2 hours ago with a 24-hour threshold: never flagged, whatever the latest result (clock after 1970). */
  lemma RecentSuccessNeverFlagged(lastSuccess: Build, lastBuild: Build, now: int)
    requires 0 <= now <= MaxTime
    requires lastSuccess.timestamp == now - 2 * HourMillis
    ensures !IsBuildFailureFlagged(lastSuccess, lastBuild, 24, now)
  {
  }

  /**
    Past the `Date` range the rule is not monotone in the threshold: a success
    one hour old is within 24 hours but not within `Number.MAX_SAFE_INTEGER`
    hours, whose cut-off is an invalid date; a failing job is flagged there only.
   */
  lemma ThresholdBeyondDateRange(lastSuccess: Build, lastBuild: Build, now: int)
    requires 0 <= now <= MaxTime
    requires lastSuccess.timestamp == now - HourMillis
    requires lastBuild.result == Some("FAILURE")
    ensures !IsBuildFailureFlagged(lastSuccess, lastBuild, 24, now)
    ensures IsBuildFailureFlagged(lastSuccess, lastBuild, 9007199254740991, now)
  {
  }

  /** Last success 48 hours ago with a 24-hour threshold: flagged on FAILURE, not on SUCCESS. */
  lemma StaleSuccessFlaggedOnFailure(lastSuccess: Build, lastBuild: Build, now: int)
    requires lastSuccess.timestamp == now - 48 * HourMillis
    ensures lastBuild.result == Some("FAILURE") ==> IsBuildFailureFlagged(lastSuccess, lastBuild, 24, now)
    ensures lastBuild.result == Some("SUCCESS") ==> !IsBuildFailureFlagged(lastSuccess, lastBuild, 24, now)
  {
  }

  // ---------------------------------------------------------------- getJobs

  /** `jobMatcher || process.env.JOB_MATCHER`: an absent or empty argument falls back to the environment value. */
  function EffectiveMatcher(jobMatcher: Option<string>, envMatcher: string): (m: string)
    ensures jobMatcher.Some? && jobMatcher.value != [] ==> m == jobMatcher.value
    ensures jobMatcher == None || jobMatcher == Some([]) ==> m == envMatcher
  {
    if jobMatcher.Some? && jobMatcher.value != [] then jobMatcher.value else envMatcher
  }

  /** The filter callback of `getJobs`: `job.name.indexOf(matcher) > -1`, i.e. the matcher occurs in the name. */
  function MatchRule(matcher: string): (keep: Job -> bool)
    ensures forall job :: keep(job) <==> IsSubstring(matcher, job.name)
  {
    (job: Job) => IndexOf(job.name, matcher) > -1
  }

  /** `getJobs` applied to the list the server returned: every kept job is listed and contains the matcher. */
  function GetJobs(allJobs: seq<Job>, jobMatcher: Option<string>, envMatcher: string): (kept: seq<Job>)
    ensures |kept| <= |allJobs|
    ensures forall job :: job in kept ==> job in allJobs && IsSubstring(EffectiveMatcher(jobMatcher, envMatcher), job.name)
  {
    Filter(allJobs, MatchRule(EffectiveMatcher(jobMatcher, envMatcher)))
  }

  /** A job is kept exactly when the effective matcher is a substring of its name. */
  lemma GetJobsMembership(allJobs: seq<Job>, jobMatcher: Option<string>, envMatcher: string, job: Job)
    ensures job in GetJobs(allJobs, jobMatcher, envMatcher)
        <==> job in allJobs && IsSubstring(EffectiveMatcher(jobMatcher, envMatcher), job.name)
  {
    FilterMembership(allJobs, MatchRule(EffectiveMatcher(jobMatcher, envMatcher)));
  }

  /** The kept jobs stay in their original order: the filter commutes with concatenation. */
  lemma GetJobsOrder(a: seq<Job>, b: seq<Job>, jobMatcher: Option<string>, envMatcher: string)
    ensures GetJobs(a + b, jobMatcher, envMatcher) == GetJobs(a, jobMatcher, envMatcher) + GetJobs(b, jobMatcher, envMatcher)
  {
    FilterAppend(a, b, MatchRule(EffectiveMatcher(jobMatcher, envMatcher)));
  }

  /** An empty effective matcher keeps every job, since `indexOf('')` is 0. */
  lemma GetJobsEmptyMatcher(allJobs: seq<Job>, jobMatcher: Option<string>, envMatcher: string)
    requires EffectiveMatcher(jobMatcher, envMatcher) == []
    ensures GetJobs(allJobs, jobMatcher, envMatcher) == allJobs
  {
    forall job | job in allJobs ensures MatchRule([])(job) {
      assert OccursAt(job.name, [], 0);
    }
    FilterAll(allJobs, MatchRule([]));
  }

  // ---------------------------------------------------------------- getFlaggedJobs

  /**
    The records the flagging decision reads for `name` are at hand: both builds
    the server returns, and the clock reading `nowAt[name]` that `moment()`
    takes when that job's last success arrives (lib/index.js:38 reads the clock
    once per job, inside the job's own callback).
   */
  predicate Fetched(snap: CiSnapshot, nowAt: map<string, int>, name: string) {
    name in snap.lastSuccess && name in snap.lastBuild && name in nowAt
  }

  /** The per-job decision of `getFlaggedJobs`, each job against its own clock reading. */
  function FlagRule(snap: CiSnapshot, thresholdHours: int, nowAt: map<string, int>): (rule: Job -> bool) {
    (job: Job) => Fetched(snap, nowAt, job.name)
      && IsBuildFailureFlagged(snap.lastSuccess[job.name], snap.lastBuild[job.name], thresholdHours, nowAt[job.name])
  }

  /**
    `getFlaggedJobs`: each job's decision is awaited and, when flagged, the job is
    pushed onto `flagged`. Pushes happen in the order the per-job promises settle,
    given as `completion`, a rearrangement of `jobs`.
   */
  method GetFlaggedJobs(snap: CiSnapshot, nowAt: map<string, int>, jobs: seq<Job>, thresholdHours: int, completion: seq<Job>)
      returns (flagged: seq<Job>)
    requires forall job :: job in jobs ==> Fetched(snap, nowAt, job.name)
    requires multiset(completion) == multiset(jobs)
    ensures flagged == Filter(completion, FlagRule(snap, thresholdHours, nowAt))
    ensures multiset(flagged) == multiset(Filter(jobs, FlagRule(snap, thresholdHours, nowAt)))
    ensures forall job :: job in flagged <==>
      (job in jobs
       && IsBuildFailureFlagged(snap.lastSuccess[job.name], snap.lastBuild[job.name], thresholdHours, nowAt[job.name]))
    ensures |flagged| <= |jobs|
  {
    ghost var rule := FlagRule(snap, thresholdHours, nowAt);
    flagged := [];
    var i := 0;
    while i < |completion|
      invariant 0 <= i <= |completion|
      invariant flagged == Filter(completion[..i], rule)
    {
      var job := completion[i];
      assert job in multiset(jobs);
      var isFlagged :=
        IsBuildFailureFlagged(snap.lastSuccess[job.name], snap.lastBuild[job.name], thresholdHours, nowAt[job.name]);
      if isFlagged {
        flagged := flagged + [job];
      }
      assert completion[..i + 1] == completion[..i] + [job];
      FilterAppend(completion[..i], [job], rule);
      i := i + 1;
    }
    assert completion[..i] == completion;
    FilterPermutation(completion, jobs, rule);
    FlaggedMembership(snap, nowAt, jobs, thresholdHours, flagged);
  }

  /** Raising the threshold can only shrink the flagged collection, while every cut-off stays a valid date. */
  lemma FlaggedJobsShrinkWithThreshold(snap: CiSnapshot, nowAt: map<string, int>, jobs: seq<Job>, t1: int, t2: int)
    requires t1 <= t2
    requires forall name :: name in nowAt ==> nowAt[name] - t2 * HourMillis >= -MaxTime
    ensures multiset(Filter(jobs, FlagRule(snap, t2, nowAt))) <= multiset(Filter(jobs, FlagRule(snap, t1, nowAt)))
  {
    forall job | job in jobs && FlagRule(snap, t2, nowAt)(job) ensures FlagRule(snap, t1, nowAt)(job) {
      FlagMonotoneInThreshold(snap.lastSuccess[job.name], snap.lastBuild[job.name], t1, t2, nowAt[job.name]);
    }
    FilterStronger(jobs, FlagRule(snap, t2, nowAt), FlagRule(snap, t1, nowAt));
  }

  /** Reading every job's clock later, with the same records, can only grow the flagged collection (valid cut-offs). */
  lemma FlaggedJobsGrowWithTime(snap: CiSnapshot, jobs: seq<Job>, thresholdHours: int, nowAt1: map<string, int>, nowAt2: map<string, int>)
    requires forall name :: name in nowAt1 ==> name in nowAt2 && nowAt1[name] <= nowAt2[name]
    requires forall name :: name in nowAt1 ==> nowAt1[name] - thresholdHours * HourMillis >= -MaxTime
    ensures multiset(Filter(jobs, FlagRule(snap, thresholdHours, nowAt1)))
         <= multiset(Filter(jobs, FlagRule(snap, thresholdHours, nowAt2)))
  {
    forall job | job in jobs && FlagRule(snap, thresholdHours, nowAt1)(job)
      ensures FlagRule(snap, thresholdHours, nowAt2)(job)
    {
      FlagMonotoneInTime(snap.lastSuccess[job.name], snap.lastBuild[job.name], thresholdHours,
        nowAt1[job.name], nowAt2[job.name]);
    }
    FilterStronger(jobs, FlagRule(snap, thresholdHours, nowAt1), FlagRule(snap, thresholdHours, nowAt2));
  }

  /** Anything with the multiset of the flagged sub-sequence holds exactly the flagged input jobs. */
  lemma FlaggedMembership(snap: CiSnapshot, nowAt: map<string, int>, jobs: seq<Job>, thresholdHours: int, flagged: seq<Job>)
    requires forall job :: job in jobs ==> Fetched(snap, nowAt, job.name)
    requires multiset(flagged) == multiset(Filter(jobs, FlagRule(snap, thresholdHours, nowAt)))
    ensures forall job :: job in flagged <==>
      (job in jobs
       && IsBuildFailureFlagged(snap.lastSuccess[job.name], snap.lastBuild[job.name], thresholdHours, nowAt[job.name]))
    ensures |flagged| <= |jobs|
  {
    var rule := FlagRule(snap, thresholdHours, nowAt);
    forall job ensures job in flagged <==> job in jobs && rule(job) {
      assert job in flagged <==> job in multiset(Filter(jobs, rule));
      FilterMembership(jobs, rule);
    }
    assert |flagged| == |multiset(Filter(jobs, rule))|;
  }
}
