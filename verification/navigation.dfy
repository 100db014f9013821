/**
 * The readiness probe and the two navigation retry loops of main.py.
 *
 * A page is reduced to the set of selectors visible on it, and each
 * navigation attempt to an outcome given as data: `outcomes[k]` is what
 * attempt `k` (counting from 0) runs into.
 */
module Navigation {
  import opened Wrappers
  import opened Util

  /** Both tools try the navigation at most this many times. */
  const MaxAttempts: nat := 3

  /** The selectors whose presence says the feed page has loaded, in probe order. */
  const FeedIndicators: seq<string> := [
    "div.feed-shared-update-v2",
    "div.feed-identity-module",
    "div.feed-shared-control-menu",
    "div.feed-shared-text-view"
  ]

  const SessionExpired := "Session expired"
  const NoIndicators := "No feed indicators found"
  const FeedRetryPrefix := "Failed to load LinkedIn feed after multiple attempts: "
  const JobsRetryExhausted := "Failed to load LinkedIn jobs after multiple attempts"

  // ---------------------------------------------------------------------------
  // Readiness probe

  /** Index of the first candidate that is visible, in candidate order. */
  function FirstVisible(candidates: seq<string>, visible: set<string>): (r: Option<nat>)
  {
    FirstTrue(seq(|candidates|, k requires 0 <= k < |candidates| => candidates[k] in visible))
  }

  /**
   * Waits for each candidate in turn and stops at the first one that appears.
   * `waits` counts the `wait_for_selector` calls made.
   */
  method Probe(candidates: seq<string>, visible: set<string>) returns (found: Option<string>, waits: nat)
    ensures found.Some? ==> found.value in visible
    ensures found.None? <==> forall j :: 0 <= j < |candidates| ==> candidates[j] !in visible
    ensures FirstVisible(candidates, visible).None? ==> found == None && waits == |candidates|
    ensures FirstVisible(candidates, visible).Some? ==>
              var k := FirstVisible(candidates, visible).value;
              k < |candidates| && found == Some(candidates[k]) && waits == k + 1
  {
    ghost var shown := seq(|candidates|, k requires 0 <= k < |candidates| => candidates[k] in visible);
    found := None;
    waits := 0;
    var foundIndicator := false;
    var i := 0;
    while i < |candidates|
      invariant 0 <= i <= |candidates|
      invariant waits == i
      invariant forall j :: 0 <= j < i ==> candidates[j] !in visible
    {
      waits := waits + 1;
      if candidates[i] in visible {
        found := Some(candidates[i]);
        foundIndicator := true;
        assert shown[i];
        break;
      }
      i := i + 1;
    }
    if !foundIndicator {
      assert forall j :: 0 <= j < |shown| ==> !shown[j];
    }
  }

  // ---------------------------------------------------------------------------
  // Feed navigation

  /** What one feed navigation attempt runs into. */
  datatype FeedAttempt =
    | PageFails(message: string)     // a `goto` or wait on the home or feed page raised
    | LoginFormShown                 // the home page shows the login form (`input#username`)
    | Probed(visible: set<string>)   // both pages loaded; the feed page shows these selectors

  /** The indicator the probe settles on, if the attempt got as far as probing. */
  function ProbeHit(a: FeedAttempt): (r: Option<string>)
    ensures r.Some? ==> a.Probed? && r.value in FeedIndicators && r.value in a.visible
    // the hit is the first visible indicator in probe order
    ensures r.Some? ==> exists k :: 0 <= k < |FeedIndicators| && r.value == FeedIndicators[k]
                                    && forall j :: 0 <= j < k ==> FeedIndicators[j] !in a.visible
    // a probe finds nothing exactly when no indicator is visible
    ensures a.Probed? ==> (r.None? <==> forall j :: 0 <= j < |FeedIndicators| ==> FeedIndicators[j] !in a.visible)
  {
    match a
    case Probed(visible) =>
      var shown := seq(|FeedIndicators|, k requires 0 <= k < |FeedIndicators| => FeedIndicators[k] in visible);
      var hit := FirstTrue(shown);
      assert hit == FirstVisible(FeedIndicators, visible);
      assert forall j :: 0 <= j < |FeedIndicators| ==> (shown[j] <==> FeedIndicators[j] in visible);
      if hit.Some? then Some(FeedIndicators[hit.value]) else None
    case _ => None
  }

  /** The message of the exception an attempt raises, or `None` when it succeeds. */
  function AttemptError(a: FeedAttempt): (r: Option<string>)
    ensures r.None? <==> ProbeHit(a).Some?
  {
    match a
    case PageFails(message) => Some(message)
    case LoginFormShown => Some(SessionExpired)
    case Probed(_) => if ProbeHit(a).Some? then None else Some(NoIndicators)
  }

  datatype FeedNav = FeedReady(attempts: nat, indicator: string) | FeedFailed(message: string)

  /** Reference outcome: the first successful attempt among the first three, else the third one's error. */
  function FeedNavigation(outcomes: seq<FeedAttempt>): FeedNav
    requires |outcomes| >= MaxAttempts
  {
    var ok := seq(MaxAttempts, k requires 0 <= k < MaxAttempts => AttemptError(outcomes[k]).None?);
    match FirstTrue(ok)
    case Some(k) => FeedReady(k + 1, ProbeHit(outcomes[k]).value)
    case None =>
      assert !ok[MaxAttempts - 1];
      FeedFailed(FeedRetryPrefix + AttemptError(outcomes[MaxAttempts - 1]).value)
  }

  /** The `for attempt in range(max_retries)` loop of `fetch_feed`. */
  method NavigateFeed(outcomes: seq<FeedAttempt>) returns (r: FeedNav)
    requires |outcomes| >= MaxAttempts
    ensures r == FeedNavigation(outcomes)
    ensures r.FeedReady? ==>
              1 <= r.attempts <= MaxAttempts
              && Some(r.indicator) == ProbeHit(outcomes[r.attempts - 1])
              && forall j :: 0 <= j < r.attempts - 1 ==> AttemptError(outcomes[j]).Some?
    ensures r.FeedFailed? ==>
              (forall j :: 0 <= j < MaxAttempts ==> AttemptError(outcomes[j]).Some?)
              && r.message == FeedRetryPrefix + AttemptError(outcomes[MaxAttempts - 1]).value
  {
    ghost var ok := seq(MaxAttempts, k requires 0 <= k < MaxAttempts => AttemptError(outcomes[k]).None?);
    var attempt := 0;
    while true
      invariant 0 <= attempt < MaxAttempts
      invariant forall j :: 0 <= j < attempt ==> !ok[j]
      invariant forall j :: 0 <= j < attempt ==> AttemptError(outcomes[j]).Some?
      decreases MaxAttempts - attempt
    {
      var error: string;
      match outcomes[attempt] {
        case PageFails(message) =>
          error := message;
        case LoginFormShown =>
          error := SessionExpired;
        case Probed(visible) =>
          var found, _ := Probe(FeedIndicators, visible);
          if found.Some? {
            assert ok[attempt];
            return FeedReady(attempt + 1, found.value);
          }
          error := NoIndicators;
      }
      assert AttemptError(outcomes[attempt]) == Some(error);
      if attempt == MaxAttempts - 1 {
        return FeedFailed(FeedRetryPrefix + error);
      }
      attempt := attempt + 1;
    }
  }

  /** A login form on the home page raises inside the retried block, so the next attempt still runs. */
  lemma SessionExpiryIsRetried(outcomes: seq<FeedAttempt>)
    requires |outcomes| >= MaxAttempts
    requires outcomes[0] == LoginFormShown && ProbeHit(outcomes[1]).Some?
    ensures FeedNavigation(outcomes) == FeedReady(2, ProbeHit(outcomes[1]).value)
  {
    var ok := seq(MaxAttempts, k requires 0 <= k < MaxAttempts => AttemptError(outcomes[k]).None?);
    assert !ok[0] && ok[1];
  }

  // ---------------------------------------------------------------------------
  // Job search navigation

  /** What one job search navigation attempt runs into. */
  datatype JobAttempt =
    | GotoTimesOut                        // `goto` raises a timeout
    | GotoFails(message: string)          // `goto` raises anything else
    | CardsShown                          // the job card selector appears within 15 s
    | CardsTimeOut(noResultsBanner: bool) // the card wait times out; the banner is or is not shown

  /** The attempt ends in a timeout that the loop catches and retries. */
  predicate TimesOut(a: JobAttempt) {
    a.GotoTimesOut? || (a.CardsTimeOut? && !a.noResultsBanner)
  }

  datatype JobNav = CardsReady(attempts: nat) | NoResults(attempts: nat) | JobNavFailed(message: string)

  /** Reference outcome: the first attempt among three that does not time out decides, else the loop gives up. */
  function JobNavigation(outcomes: seq<JobAttempt>): JobNav
    requires |outcomes| >= MaxAttempts
  {
    match FirstTrue(seq(MaxAttempts, k requires 0 <= k < MaxAttempts => !TimesOut(outcomes[k])))
    case Some(k) =>
      if outcomes[k].CardsShown? then CardsReady(k + 1)
      else if outcomes[k].GotoFails? then JobNavFailed(outcomes[k].message)
      else NoResults(k + 1)
    case None => JobNavFailed(JobsRetryExhausted)
  }

  /** The `for attempt in range(max_retries)` loop of `search_jobs`. */
  method NavigateJobs(outcomes: seq<JobAttempt>) returns (r: JobNav)
    requires |outcomes| >= MaxAttempts
    ensures r == JobNavigation(outcomes)
    ensures r.CardsReady? ==>
              1 <= r.attempts <= MaxAttempts && outcomes[r.attempts - 1] == CardsShown
              && forall j :: 0 <= j < r.attempts - 1 ==> TimesOut(outcomes[j])
    // the "no results" banner ends the search at once, without a retry
    ensures r.NoResults? ==>
              1 <= r.attempts <= MaxAttempts && outcomes[r.attempts - 1] == CardsTimeOut(true)
              && forall j :: 0 <= j < r.attempts - 1 ==> TimesOut(outcomes[j])
    // only timeouts are retried: any other failure propagates from the attempt that met it
    ensures r.JobNavFailed? ==>
              (r.message == JobsRetryExhausted && forall j :: 0 <= j < MaxAttempts ==> TimesOut(outcomes[j]))
              || exists k :: 0 <= k < MaxAttempts && outcomes[k] == GotoFails(r.message)
                             && forall j :: 0 <= j < k ==> TimesOut(outcomes[j])
  {
    ghost var decides := seq(MaxAttempts, k requires 0 <= k < MaxAttempts => !TimesOut(outcomes[k]));
    var attempt := 0;
    while true
      invariant 0 <= attempt < MaxAttempts
      invariant forall j :: 0 <= j < attempt ==> !decides[j]
      invariant forall j :: 0 <= j < attempt ==> TimesOut(outcomes[j])
      decreases MaxAttempts - attempt
    {
      match outcomes[attempt] {
        case GotoFails(message) =>
          assert decides[attempt];
          return JobNavFailed(message);
        case CardsShown =>
          assert decides[attempt];
          return CardsReady(attempt + 1);
        case CardsTimeOut(noResultsBanner) =>
          if noResultsBanner {
            assert decides[attempt];
            return NoResults(attempt + 1);
          }
        case GotoTimesOut =>
      }
      assert !decides[attempt];
      if attempt == MaxAttempts - 1 {
        return JobNavFailed(JobsRetryExhausted);
      }
      attempt := attempt + 1;
    }
  }
}
