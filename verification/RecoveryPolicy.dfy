/**
 The side-effect free recovery policy (`app/convergence_policy.py`): which action an
 outcome leads to, after which delays, and whether it may spend provider credits.

 Labels are modelled after their `strip().lower()`; every label the policy names has
 a constructor of its own, and all other labels share one constructor.
 */
module RecoveryPolicy {

  datatype Action =
    | Complete | ProbeUpstream | RetryTransport | RetryCandidate | RetryPublication
    | RetryScheduler | RetryLocal | PauseProvider | Quarantine | Diagnose

  datatype ReasonClass =
    | FreshClass | UpstreamNotPublished | TransportRetryable | CandidateNotReady
    | PublicationFailure | SchedulerGap | AuthOrQuota | LocalFailure
    | DeterministicFailure | UnknownClass

  datatype Outcome =
    | FreshPublished | Provisional | LkgServed | Failed | TimedOut | Skipped | Missing
    | OtherOutcome(text: string)

  datatype Reason =
    | Unavailable | Upstream4xx
    | ProxyPayment | Authentication
    | Contract | Regression
    | PublicationSync
    | Preflight | Dependency | BackendPolicy
    | RateLimited | AccessBlocked | Upstream5xx | Timeout | Transport
    | ParseError | AiQuarantine
    | LeaseExpired | NoReason | UnknownReason
    | OtherReason(text: string)

  datatype Decision = Decision(action: Action, reasonClass: ReasonClass, delays: seq<int>, paidFetchAllowed: bool)

  const TRANSPORT_DELAYS := [5 * 60, 20 * 60, 60 * 60]
  const CANDIDATE_DELAYS := [35 * 60, 55 * 60, 90 * 60, 3 * 60 * 60, 6 * 60 * 60, 12 * 60 * 60]
  const UPSTREAM_PROBE_DELAYS := [30 * 60, 60 * 60, 2 * 60 * 60, 4 * 60 * 60]
  const LOCAL_DELAYS := [60, 5 * 60, 15 * 60]

  const UPSTREAM_REASONS := {Unavailable, Upstream4xx}
  const PAUSE_REASONS := {ProxyPayment, Authentication}
  const CANDIDATE_REASONS := {Contract, Regression}
  const LOCAL_REASONS := {Preflight, Dependency, BackendPolicy}
  const TRANSPORT_REASONS := {RateLimited, AccessBlocked, Upstream5xx, Timeout, Transport}
  const DETERMINISTIC_REASONS := {ParseError, AiQuarantine}

  function DecideRecovery(outcome: Outcome, reason: Reason, upstreamPending: bool): Decision {
    if outcome == FreshPublished then
      Decision(Complete, FreshClass, [], false)
    else if outcome == Missing then
      Decision(RetryScheduler, SchedulerGap, LOCAL_DELAYS, false)
    else if upstreamPending || reason in UPSTREAM_REASONS then
      Decision(ProbeUpstream, UpstreamNotPublished, UPSTREAM_PROBE_DELAYS, false)
    else if reason in PAUSE_REASONS then
      Decision(PauseProvider, AuthOrQuota, [], false)
    else if outcome == Provisional || reason in CANDIDATE_REASONS then
      Decision(RetryCandidate, CandidateNotReady, CANDIDATE_DELAYS, false)
    else if reason == PublicationSync then
      Decision(RetryPublication, PublicationFailure, LOCAL_DELAYS, false)
    else if reason in LOCAL_REASONS then
      Decision(RetryLocal, LocalFailure, LOCAL_DELAYS, false)
    else if outcome == TimedOut || reason in TRANSPORT_REASONS then
      Decision(RetryTransport, TransportRetryable, TRANSPORT_DELAYS, true)
    else if reason in DETERMINISTIC_REASONS then
      Decision(Quarantine, DeterministicFailure, [], false)
    else
      Decision(Diagnose, UnknownClass, [], false)
  }

  /** How often the policy lets each action be tried. */
  function Budget(action: Action): nat {
    match action
    case RetryTransport => 3
    case RetryCandidate => 6
    case ProbeUpstream => 4
    case RetryScheduler | RetryPublication | RetryLocal => 3
    case Complete | PauseProvider | Quarantine | Diagnose => 0
  }

  /** What the convergence engine needs to know of a decision it did not make. */
  ghost predicate IsPolicyDecision(d: Decision) {
    && |d.delays| == Budget(d.action)
    && (d.paidFetchAllowed <==> d.action == RetryTransport)
    && OrderedDelays(d.delays)
  }

  predicate OrderedDelays(delays: seq<int>) {
    && (forall i :: 0 <= i < |delays| ==> 0 <= delays[i])
    && (forall i :: 0 < i < |delays| ==> delays[i - 1] <= delays[i])
  }

  lemma DelayListsAreOrdered()
    ensures OrderedDelays(TRANSPORT_DELAYS) && OrderedDelays(CANDIDATE_DELAYS)
    ensures OrderedDelays(UPSTREAM_PROBE_DELAYS) && OrderedDelays(LOCAL_DELAYS)
    ensures |TRANSPORT_DELAYS| == 3 && |CANDIDATE_DELAYS| == 6 && |UPSTREAM_PROBE_DELAYS| == 4 && |LOCAL_DELAYS| == 3
  {
  }

  /** The delays that go with an action. */
  function DelaysOf(action: Action): seq<int> {
    match action
    case RetryTransport => TRANSPORT_DELAYS
    case RetryCandidate => CANDIDATE_DELAYS
    case ProbeUpstream => UPSTREAM_PROBE_DELAYS
    case RetryScheduler | RetryPublication | RetryLocal => LOCAL_DELAYS
    case Complete | PauseProvider | Quarantine | Diagnose => []
  }

  lemma DelaysFitBudget(action: Action)
    ensures OrderedDelays(DelaysOf(action)) && |DelaysOf(action)| == Budget(action)
  {
    DelayListsAreOrdered();
  }

  lemma DecisionsUseTheirDelays(outcome: Outcome, reason: Reason, upstreamPending: bool)
    ensures var d := DecideRecovery(outcome, reason, upstreamPending);
            d.delays == DelaysOf(d.action) && (d.paidFetchAllowed <==> d.action == RetryTransport)
  {
  }

  /**
   Every decision of the policy carries exactly the delays of its action's budget, ordered,
   and money may be spent exactly for transport retries.
   */
  lemma DecisionsFollowPolicy(outcome: Outcome, reason: Reason, upstreamPending: bool)
    ensures IsPolicyDecision(DecideRecovery(outcome, reason, upstreamPending))
    ensures DecideRecovery(outcome, reason, upstreamPending).action == Complete <==> outcome == FreshPublished
  {
    DecisionsUseTheirDelays(outcome, reason, upstreamPending);
    DelaysFitBudget(DecideRecovery(outcome, reason, upstreamPending).action);
  }

  /**
   A transport failure is retried on paid transport exactly when nothing says that the
   data is fresh, unscheduled, still unpublished upstream, or only provisional.
   */
  lemma TransportFailureSpends(outcome: Outcome, reason: Reason, upstreamPending: bool)
    requires reason in TRANSPORT_REASONS
    ensures DecideRecovery(outcome, reason, upstreamPending).paidFetchAllowed
       <==> outcome !in {FreshPublished, Missing, Provisional} && !upstreamPending
  {
  }

  // ----- when each action is decided -----------------------------------------------

  /** Nothing is owed for a fresh outcome, and a missing one is the scheduler's, whatever else is said. */
  predicate Unsettled(outcome: Outcome) {
    outcome != FreshPublished && outcome != Missing
  }

  /** Upstream has not published: said so, or a reason that means so. */
  predicate Unpublished(reason: Reason, upstreamPending: bool) {
    upstreamPending || reason == Unavailable || reason == Upstream4xx
  }

  lemma ProbesAndPausesAreDecidedExactlyWhen(outcome: Outcome, reason: Reason, upstreamPending: bool)
    ensures var action := DecideRecovery(outcome, reason, upstreamPending).action;
            && (action == Complete <==> outcome == FreshPublished)
            && (action == RetryScheduler <==> outcome == Missing)
            && (action == ProbeUpstream <==> Unsettled(outcome) && Unpublished(reason, upstreamPending))
            && (action == PauseProvider <==>
                  Unsettled(outcome) && !upstreamPending && (reason == ProxyPayment || reason == Authentication))
  {
  }

  lemma RetriesAreDecidedExactlyWhen(outcome: Outcome, reason: Reason, upstreamPending: bool)
    requires Unsettled(outcome) && !upstreamPending
    ensures var action := DecideRecovery(outcome, reason, false).action;
            && (action == RetryCandidate <==>
                  || reason == Contract || reason == Regression
                  || (outcome == Provisional
                      && reason !in {Unavailable, Upstream4xx, ProxyPayment, Authentication}))
            && (action == RetryPublication <==> reason == PublicationSync && outcome != Provisional)
            && (action == RetryLocal <==>
                  (reason == Preflight || reason == Dependency || reason == BackendPolicy) && outcome != Provisional)
  {
  }

  lemma LastResortsAreDecidedExactlyWhen(outcome: Outcome, reason: Reason, upstreamPending: bool)
    requires Unsettled(outcome) && outcome != Provisional && !upstreamPending
    requires reason !in {Unavailable, Upstream4xx, ProxyPayment, Authentication, Contract, Regression}
    requires reason !in {PublicationSync, Preflight, Dependency, BackendPolicy}
    ensures var action := DecideRecovery(outcome, reason, false).action;
            && (action == RetryTransport <==>
                  || outcome == TimedOut
                  || reason in {RateLimited, AccessBlocked, Upstream5xx, Timeout, Transport})
            && (action == Quarantine <==> outcome != TimedOut && (reason == ParseError || reason == AiQuarantine))
            && (action == Diagnose <==>
                  && outcome != TimedOut
                  && reason !in {RateLimited, AccessBlocked, Upstream5xx, Timeout, Transport, ParseError, AiQuarantine})
  {
  }

  /** The class that is reported with an action, and its delays in minutes. */
  lemma ActionsHaveTheirClassAndDelays(outcome: Outcome, reason: Reason, upstreamPending: bool)
    ensures var d := DecideRecovery(outcome, reason, upstreamPending);
            && (d.action == Complete <==> d.reasonClass == FreshClass)
            && (d.action == RetryScheduler <==> d.reasonClass == SchedulerGap)
            && (d.action == ProbeUpstream <==> d.reasonClass == UpstreamNotPublished)
            && (d.action == PauseProvider <==> d.reasonClass == AuthOrQuota)
            && (d.action == RetryCandidate <==> d.reasonClass == CandidateNotReady)
            && (d.action == RetryPublication <==> d.reasonClass == PublicationFailure)
            && (d.action == RetryLocal <==> d.reasonClass == LocalFailure)
            && (d.action == RetryTransport <==> d.reasonClass == TransportRetryable)
            && (d.action == Quarantine <==> d.reasonClass == DeterministicFailure)
            && (d.action == Diagnose <==> d.reasonClass == UnknownClass)
            && (d.action == RetryTransport ==> d.delays == Minutes([5, 20, 60]))
            && (d.action == RetryCandidate ==> d.delays == Minutes([35, 55, 90, 180, 360, 720]))
            && (d.action == ProbeUpstream ==> d.delays == Minutes([30, 60, 120, 240]))
            && (d.action in {RetryScheduler, RetryPublication, RetryLocal} ==> d.delays == Minutes([1, 5, 15]))
            && (d.action in {Complete, PauseProvider, Quarantine, Diagnose} ==> d.delays == [])
  {
  }

  function Minutes(ms: seq<int>): (delays: seq<int>)
    ensures |delays| == |ms| && forall i :: 0 <= i < |ms| ==> delays[i] == 60 * ms[i]
  {
    seq(|ms|, i requires 0 <= i < |ms| => 60 * ms[i])
  }
}
