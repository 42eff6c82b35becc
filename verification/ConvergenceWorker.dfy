/**
 One bounded recovery by a worker (`app/convergence_worker.py`): claim, execute, classify the
 results per source, decide, finish. The executor is outside the model; whatever it returns
 (or raises, `None`) is a parameter.
 */
module ConvergenceWorker {
  import opened Options
  import opened RecoveryPolicy
  import opened ConvergenceTables
  import opened ConvergenceInvariant
  import opened ConvergenceFencing
  import opened ConvergenceQueue
  import opened ConvergenceStore

  /** One source's result: the empty string where it names no source. */
  datatype SourceResult = SourceResult(sourceId: string, outcome: Outcome, reason: Reason, upstreamPending: bool)

  datatype Execution = Execution(
    parserRun: Option<string>, results: seq<SourceResult>, paidRequests: int, paidCost: int)

  datatype Classification = Classification(outcome: Outcome, reason: Reason, succeeded: bool)

  function Priority(outcome: Outcome): nat {
    match outcome
    case TimedOut => 5
    case Failed => 4
    case LkgServed => 3
    case Provisional => 2
    case Skipped => 1
    case _ => 0
  }

  /** An outcome outside the priority table counts as failed. */
  function Recognised(outcome: Outcome): Outcome {
    if outcome in {FreshPublished, Provisional, LkgServed, Failed, TimedOut, Skipped} then outcome else Failed
  }

  ghost predicate Distinct(results: seq<SourceResult>) {
    forall i, j :: 0 <= i < j < |results| ==> results[i].sourceId != results[j].sourceId
  }

  /** The results name each expected source exactly once, and nothing else. */
  ghost predicate CoversExactly(expected: set<Source>, results: seq<SourceResult>) {
    && results != []
    && Distinct(results)
    && (forall i :: 0 <= i < |results| ==> results[i].sourceId != "" && results[i].sourceId in expected)
    && (forall source :: source in expected ==> exists i :: 0 <= i < |results| && results[i].sourceId == source)
  }

  ghost predicate AllFresh(results: seq<SourceResult>) {
    forall i :: 0 <= i < |results| ==> results[i].outcome == FreshPublished
  }

  ghost predicate AnyPending(results: seq<SourceResult>) {
    exists i :: 0 <= i < |results| && results[i].upstreamPending
  }

  /** `worst` is the first result of the highest priority. */
  ghost predicate FirstWorst(results: seq<SourceResult>, worst: int) {
    && 0 <= worst < |results|
    && (forall i :: 0 <= i < |results| ==>
          Priority(Recognised(results[i].outcome)) <= Priority(Recognised(results[worst].outcome)))
    && (forall i :: 0 <= i < worst ==>
          Priority(Recognised(results[i].outcome)) < Priority(Recognised(results[worst].outcome)))
  }

  ghost predicate Classifies(expected: set<Source>, results: seq<SourceResult>, c: Classification) {
    if !CoversExactly(expected, results) then c == Classification(Failed, Dependency, false)
    else if AllFresh(results) then c == Classification(FreshPublished, NoReason, true)
    else if AnyPending(results) then c == Classification(Skipped, Unavailable, true)
    else exists worst :: FirstWorst(results, worst) &&
           var outcome := Recognised(results[worst].outcome);
           c == Classification(outcome, if outcome == Provisional then NoReason else results[worst].reason, true)
  }

  ghost predicate Named(results: seq<SourceResult>, id: string) {
    exists i :: 0 <= i < |results| && results[i].sourceId == id
  }

  lemma IdSetsDecideCovering(expected: set<Source>, results: seq<SourceResult>, seen: set<string>)
    requires results != [] && forall id :: id in seen <==> Named(results, id)
    ensures Distinct(results) && "" !in seen && seen == expected <==> CoversExactly(expected, results)
  {
    assert forall i :: 0 <= i < |results| ==> Named(results, results[i].sourceId);
    if CoversExactly(expected, results) {
      assert forall id :: id in seen <==> id in expected;
    }
  }

  lemma OneMoreId(results: seq<SourceResult>, i: int, seen: set<string>)
    requires 0 <= i < |results|
    requires forall id :: id in seen <==> Named(results[..i], id)
    ensures forall id :: id in seen + {results[i].sourceId} <==> Named(results[..i + 1], id)
    ensures Distinct(results[..i + 1]) <==> Distinct(results[..i]) && results[i].sourceId !in seen
  {
    assert results[..i + 1] == results[..i] + [results[i]];
    assert results[..i + 1][i] == results[i];
    forall id ensures id in seen + {results[i].sourceId} <==> Named(results[..i + 1], id) {
      if Named(results[..i], id) {
        var k :| 0 <= k < i && results[..i][k].sourceId == id;
        assert results[..i + 1][k].sourceId == id;
      }
    }
  }

  /** Do the ids of the results form exactly the expected set, with no id twice? */
  method IdsMatch(expected: set<Source>, results: seq<SourceResult>) returns (matches: bool)
    ensures matches <==> CoversExactly(expected, results)
  {
    if results == [] { return false; }
    var seen: set<string> := {};
    var i := 0;
    while i < |results|
      invariant 0 <= i <= |results|
      invariant forall id :: id in seen <==> Named(results[..i], id)
      invariant |seen| <= i
      invariant |seen| == i <==> Distinct(results[..i])
    {
      OneMoreId(results, i, seen);
      seen := seen + {results[i].sourceId};
      i := i + 1;
    }
    assert results[..i] == results;
    IdSetsDecideCovering(expected, results, seen);
    matches := "" !in seen && |seen| == |results| && seen == expected;
  }

  method ClassifyExecution(expected: set<Source>, results: seq<SourceResult>) returns (c: Classification)
    ensures Classifies(expected, results, c)
  {
    var covers := IdsMatch(expected, results);
    if !covers { return Classification(Failed, Dependency, false); }

    var published, pending, worst := true, false, 0;
    var i := 0;
    while i < |results|
      invariant 0 <= i <= |results| && 0 <= worst < |results| && (worst < i || worst == 0)
      invariant published <==> AllFresh(results[..i])
      invariant pending <==> AnyPending(results[..i])
      invariant i > 0 ==> FirstWorst(results[..i], worst)
    {
      assert results[..i + 1] == results[..i] + [results[i]];
      published := published && results[i].outcome == FreshPublished;
      if results[i].upstreamPending {
        assert results[..i + 1][i].upstreamPending;
        pending := true;
      } else if pending {
        var k :| 0 <= k < |results[..i]| && results[..i][k].upstreamPending;
        assert results[..i + 1][k].upstreamPending;
      }
      if Priority(Recognised(results[worst].outcome)) < Priority(Recognised(results[i].outcome)) { worst := i; }
      i := i + 1;
    }
    assert results[..i] == results;
    if published { return Classification(FreshPublished, NoReason, true); }
    if pending { return Classification(Skipped, Unavailable, true); }
    var outcome, reason := Recognised(results[worst].outcome), results[worst].reason;
    if outcome in {FreshPublished, Provisional} { reason := NoReason; }
    var k :| 0 <= k < |results| && results[k].outcome != FreshPublished;
    assert Priority(Recognised(results[k].outcome)) > 0;
    c := Classification(outcome, reason, true);
  }

  /**
   What a worker sends to `finish_attempt`. It reports the moment of its claim, not of its
   completion, so its own request never looks late to the store.
   */
  ghost predicate IsWorkerFinish(
      lease: Lease, now: int, owner: Worker, execution: Option<Execution>, r: FinishRequest) {
    exists c: Classification ::
      && (if execution.Some? then Classifies(lease.sources, execution.value.results, c)
          else c == Classification(Failed, Dependency, false))
      && r == WorkerFinish(lease, now, owner, execution, c)
  }

  function WorkerFinish(
      lease: Lease, now: int, owner: Worker, execution: Option<Execution>, c: Classification): FinishRequest {
    FinishRequest(
      lease.attempt, owner, c.outcome, c.reason,
      DecideRecovery(c.outcome, c.reason, c.outcome == Skipped && c.reason == Unavailable),
      now, c.succeeded,
      if execution.Some? then execution.value.parserRun else None,
      if execution.Some? then execution.value.paidRequests else 0,
      if execution.Some? then execution.value.paidCost else 0)
  }

  /**
   A worker asks to complete exactly when its results contain every source of the claim's
   snapshot exactly once and all of them are fresh; and then it also reports success.
   */
  lemma WorkerCompletesExactlyWhenAllFresh(
      lease: Lease, now: int, owner: Worker, execution: Option<Execution>, r: FinishRequest)
    requires IsWorkerFinish(lease, now, owner, execution, r)
    ensures r.decision.action == Complete <==>
            && execution.Some?
            && CoversExactly(lease.sources, execution.value.results) && AllFresh(execution.value.results)
    ensures r.decision.action == Complete ==> r.succeeded
    ensures IsPolicyDecision(r.decision)
  {
    var c: Classification :|
      (if execution.Some? then Classifies(lease.sources, execution.value.results, c)
       else c == Classification(Failed, Dependency, false))
      && r == WorkerFinish(lease, now, owner, execution, c);
    DecisionsFollowPolicy(c.outcome, c.reason, c.outcome == Skipped && c.reason == Unavailable);
  }

  /** Hence no worker, whatever happened to the tables meanwhile, ever meets that error. */
  lemma WorkersNeverCompleteAFailure(
      lease: Lease, now: int, owner: Worker, execution: Option<Execution>, r: FinishRequest, t: Tables)
    requires IsWorkerFinish(lease, now, owner, execution, r)
    ensures FinishCheck(t, r) != FailureCannotComplete
  {
    WorkerCompletesExactlyWhenAllFresh(lease, now, owner, execution, r);
  }

  /** In a run whose finishes come from workers, this is what turns a chain fresh. */
  lemma FreshMeansEverySourceIsFresh(
      t: Tables, e: Event, id: ChainId, lease: Lease, now: int, owner: Worker, execution: Option<Execution>)
    requires Inv(t) && id in t.chains && t.chains[id].state != Fresh && Step(t, e).chains[id].state == Fresh
    requires e.Finish? ==> IsWorkerFinish(lease, now, owner, execution, e.finish)
    ensures || (e.Finish? && lease.attempt.chain == id && Leased(t, lease.attempt) && execution.Some?
                && CoversExactly(lease.sources, execution.value.results) && AllFresh(execution.value.results))
            || (&& e.Reconcile? && SourcesOf(t, id) != {}
                && forall source :: source in SourcesOf(t, id) ==>
                     exists i :: && 0 <= i < |t.telemetry| && t.telemetry[i].source == source
                                 && t.telemetry[i].outcome == FreshPublished
                                 && t.chains[id].createdAt < t.telemetry[i].finishedAt)
  {
    FreshHasAWitness(t, e, id);
    if e.Finish? {
      WorkerCompletesExactlyWhenAllFresh(lease, now, owner, execution, e.finish);
      FinishAppliesExactlyUnderLease(t, e.finish);
    }
  }

  /** Each expected source is named by one result, and nothing else is. */
  lemma CoveringMeans(expected: set<Source>, results: seq<SourceResult>)
    ensures CoversExactly(expected, results) <==>
            && |results| > 0
            && (forall i :: 0 <= i < |results| ==> results[i].sourceId in expected && |results[i].sourceId| > 0)
            && (forall source :: source in expected ==>
                  exists i :: && 0 <= i < |results| && results[i].sourceId == source
                              && forall j :: 0 <= j < |results| && j != i ==> results[j].sourceId != source)
  {
    if CoversExactly(expected, results) {
      forall source | source in expected
        ensures exists i :: && 0 <= i < |results| && results[i].sourceId == source
                            && forall j :: 0 <= j < |results| && j != i ==> results[j].sourceId != source
      {
        var i :| 0 <= i < |results| && results[i].sourceId == source;
        forall j | 0 <= j < |results| && j != i ensures results[j].sourceId != source {
          assert i < j ==> results[i].sourceId != results[j].sourceId;
        }
      }
    }
  }

  /** Results that do not cover are a dependency failure; all fresh is fresh; any pending one is a skip. */
  lemma ClassificationIs(expected: set<Source>, results: seq<SourceResult>, c: Classification)
    requires Classifies(expected, results, c)
    ensures !c.succeeded <==> !CoversExactly(expected, results)
    ensures !c.succeeded ==> c.outcome == Failed && c.reason == Dependency
    ensures c.outcome == FreshPublished <==>
            c.succeeded && forall i :: 0 <= i < |results| ==> results[i].outcome == FreshPublished
    ensures c.outcome == FreshPublished ==> c.reason == NoReason
    ensures && c.succeeded && c.outcome != FreshPublished
            && (exists i :: 0 <= i < |results| && results[i].upstreamPending) ==>
              c.outcome == Skipped && c.reason == Unavailable
  {
    if CoversExactly(expected, results) && !AllFresh(results) && !AnyPending(results) {
      WorstOutcomeDecides(expected, results, c);
    }
  }

  /** A result with an outcome that is none of the known ones counts as failed. */
  predicate CountsAs(result: SourceResult, outcome: Outcome) {
    || result.outcome == outcome
    || (outcome == Failed && result.outcome !in {FreshPublished, Provisional, LkgServed, Failed, TimedOut, Skipped})
  }

  predicate Occurs(results: seq<SourceResult>, outcome: Outcome) {
    exists i :: 0 <= i < |results| && CountsAs(results[i], outcome)
  }

  lemma WhatOccursIsNoWorse(results: seq<SourceResult>, worst: int, outcome: Outcome)
    requires FirstWorst(results, worst) && Occurs(results, outcome)
    requires outcome in {TimedOut, Failed, LkgServed, Provisional, Skipped}
    ensures Priority(outcome) <= Priority(Recognised(results[worst].outcome))
  {
    var i :| 0 <= i < |results| && CountsAs(results[i], outcome);
    assert Recognised(results[i].outcome) == outcome;
  }

  lemma WorstIsNotFresh(results: seq<SourceResult>, worst: int)
    requires FirstWorst(results, worst) && !AllFresh(results)
    ensures Recognised(results[worst].outcome) in {TimedOut, Failed, LkgServed, Provisional, Skipped}
    ensures Occurs(results, Recognised(results[worst].outcome))
  {
    var other :| 0 <= other < |results| && results[other].outcome != FreshPublished;
    assert Priority(Recognised(results[other].outcome)) > 0;
    assert CountsAs(results[worst], Recognised(results[worst].outcome));
  }

  lemma WorstOccursAndNothingWorse(results: seq<SourceResult>, worst: int)
    requires FirstWorst(results, worst) && !AllFresh(results)
    ensures var outcome := Recognised(results[worst].outcome);
            && (outcome == TimedOut <==> Occurs(results, TimedOut))
            && (outcome == Failed <==> Occurs(results, Failed) && !Occurs(results, TimedOut))
            && (outcome == LkgServed <==>
                  Occurs(results, LkgServed) && !Occurs(results, Failed) && !Occurs(results, TimedOut))
            && (outcome == Provisional <==>
                  && Occurs(results, Provisional)
                  && !Occurs(results, LkgServed) && !Occurs(results, Failed) && !Occurs(results, TimedOut))
  {
    WorstIsNotFresh(results, worst);
    if Occurs(results, TimedOut) { WhatOccursIsNoWorse(results, worst, TimedOut); }
    if Occurs(results, Failed) { WhatOccursIsNoWorse(results, worst, Failed); }
    if Occurs(results, LkgServed) { WhatOccursIsNoWorse(results, worst, LkgServed); }
    if Occurs(results, Provisional) { WhatOccursIsNoWorse(results, worst, Provisional); }
  }

  /**
   Of covering results that are neither all fresh nor pending, a timed-out one outranks a failed
   one, that a served last-known-good one, that a provisional one, that a skipped one.
   */
  lemma WorstOutcomeDecides(expected: set<Source>, results: seq<SourceResult>, c: Classification)
    requires Classifies(expected, results, c) && CoversExactly(expected, results)
    requires !AllFresh(results) && !AnyPending(results)
    ensures c.succeeded
    ensures c.outcome == TimedOut <==> Occurs(results, TimedOut)
    ensures c.outcome == Failed <==> Occurs(results, Failed) && !Occurs(results, TimedOut)
    ensures c.outcome == LkgServed <==>
            Occurs(results, LkgServed) && !Occurs(results, Failed) && !Occurs(results, TimedOut)
    ensures c.outcome == Provisional <==>
            && Occurs(results, Provisional)
            && !Occurs(results, LkgServed) && !Occurs(results, Failed) && !Occurs(results, TimedOut)
    ensures c.outcome in {TimedOut, Failed, LkgServed, Provisional, Skipped}
  {
    var worst :| FirstWorst(results, worst) &&
      var outcome := Recognised(results[worst].outcome);
      c == Classification(outcome, if outcome == Provisional then NoReason else results[worst].reason, true);
    WorstIsNotFresh(results, worst);
    WorstOccursAndNothingWorse(results, worst);
  }

  /** The reason is that of the first result that counts as the outcome decided; a provisional one has none. */
  lemma ReasonIsOfTheFirstWorst(expected: set<Source>, results: seq<SourceResult>, c: Classification) returns (k: int)
    requires Classifies(expected, results, c) && CoversExactly(expected, results)
    requires !AllFresh(results) && !AnyPending(results)
    ensures 0 <= k < |results| && CountsAs(results[k], c.outcome)
    ensures forall i :: 0 <= i < k ==> !CountsAs(results[i], c.outcome)
    ensures c.reason == if c.outcome == Provisional then NoReason else results[k].reason
  {
    k :| FirstWorst(results, k) &&
      var outcome := Recognised(results[k].outcome);
      c == Classification(outcome, if outcome == Provisional then NoReason else results[k].reason, true);
    WorstIsNotFresh(results, k);
    forall i | 0 <= i < k ensures !CountsAs(results[i], c.outcome) {
      assert Priority(Recognised(results[i].outcome)) < Priority(c.outcome);
    }
  }

  /** What a worker reports: its own attempt, the moment of its claim, and the run and usage of its executor. */
  lemma WorkerReportIs(lease: Lease, now: int, owner: Worker, execution: Option<Execution>, r: FinishRequest)
    requires IsWorkerFinish(lease, now, owner, execution, r)
    ensures r.attempt == lease.attempt && r.owner == owner && r.finishedAt == now
    ensures execution.None? ==>
              && r.outcome == Failed && r.reason == Dependency && !r.succeeded && r.decision.action == RetryLocal
              && r.parserRun == None && r.paidRequests == 0 && r.paidCost == 0
    ensures execution.Some? ==>
              && r.parserRun == execution.value.parserRun
              && r.paidRequests == execution.value.paidRequests && r.paidCost == execution.value.paidCost
              && Classifies(lease.sources, execution.value.results, Classification(r.outcome, r.reason, r.succeeded))
    ensures r.decision == DecideRecovery(r.outcome, r.reason, r.outcome == Skipped && r.reason == Unavailable)
  {
    var c: Classification :|
      (if execution.Some? then Classifies(lease.sources, execution.value.results, c)
       else c == Classification(Failed, Dependency, false))
      && r == WorkerFinish(lease, now, owner, execution, c);
    assert c == Classification(r.outcome, r.reason, r.succeeded);
  }

  // ----- run_once ------------------------------------------------------------------

  const SAFE_EXECUTABLE_ACTIONS := {RetryCandidate, RetryTransport, ProbeUpstream}
  const DEFAULT_WORKER_ACTIONS := {RetryTransport}

  datatype Summary =
    | UnsupportedAction
    | InvalidLease
    | NotClaimed
    | Finished(lease: Lease, request: FinishRequest, result: FinishResult)

  function SelectedActions(actions: Option<set<Action>>): set<Action> {
    if actions.None? then DEFAULT_WORKER_ACTIONS else actions.value
  }

  /** The second half of a run, on tables that others may have changed since the claim. */
  method Settle(store: Store, lease: Lease, now: int, owner: Worker, execution: Option<Execution>)
      returns (finish: FinishRequest, result: FinishResult)
    requires Reachable(store.View())
    modifies store`chains, store`attempts
    ensures Reachable(store.View())
    ensures IsWorkerFinish(lease, now, owner, execution, finish)
    ensures store.View() == FinishTables(old(store.View()), finish)
    ensures result == FinishCheck(old(store.View()), finish) && result != FailureCannotComplete
  {
    var c := Classification(Failed, Dependency, false);
    if execution.Some? { c := ClassifyExecution(lease.sources, execution.value.results); }
    finish := WorkerFinish(lease, now, owner, execution, c);
    WorkersNeverCompleteAFailure(lease, now, owner, execution, finish, store.View());
    result := store.FinishAttempt(finish);
  }

  /**
   With no other worker in between, a claimed attempt is settled, or refused for the paid usage
   it reports; an executor that fails or answers badly settles it as a local failure.
   */
  method RunOnce(
      store: Store, now: int, owner: Worker, leaseSeconds: int, actions: Option<set<Action>>,
      eligible: Option<set<Source>>, execution: Option<Execution>) returns (summary: Summary)
    requires Reachable(store.View())
    modifies store`chains, store`attempts
    ensures Reachable(store.View())
    ensures summary.UnsupportedAction? <==> !(SelectedActions(actions) <= SAFE_EXECUTABLE_ACTIONS)
    ensures summary.UnsupportedAction? || summary.InvalidLease? ==> store.View() == old(store.View())
    ensures summary.NotClaimed? ==>
            forall id :: !LooksDue(old(store.View()), id, now, Filters(Some(SelectedActions(actions)), eligible))
    ensures summary.Finished? ==>
              var claim := ClaimRequest(owner, now, leaseSeconds, Filters(Some(SelectedActions(actions)), eligible));
              var id := summary.lease.attempt.chain;
              && MayPick(old(store.View()), claim, Some(id))
              && IsWorkerFinish(summary.lease, now, owner, execution, summary.request)
              && store.View() == FinishTables(ClaimTables(old(store.View()), claim, Some(id)), summary.request)
              && summary.result == FinishCheck(ClaimTables(old(store.View()), claim, Some(id)), summary.request)
              && summary.result in {Applied, MayNotSpend, NegativeUsage}
              && (summary.result == NegativeUsage
                  <==> execution.Some? && (execution.value.paidRequests < 0 || execution.value.paidCost < 0))
              && (execution.None? || execution.value.paidRequests == 0 ==> summary.result != MayNotSpend)
  {
    var selected := if actions.None? then DEFAULT_WORKER_ACTIONS else actions.value;
    if !(selected <= SAFE_EXECUTABLE_ACTIONS) { return UnsupportedAction; }
    var request := ClaimRequest(owner, now, leaseSeconds, Filters(Some(selected), eligible));
    ghost var before := store.View();
    var claimed := store.ClaimDue(request);
    match claimed
    case LeaseSecondsInvalid => summary := InvalidLease;
    case NothingDue =>
      PeekAgreesWithTake(before, request, None);
      summary := NotClaimed;
    case Claimed(lease) =>
      var finish, result := Settle(store, lease, now, owner, execution);
      LeaseIsFresh(before, request, lease.attempt.chain, finish);
      summary := Finished(lease, finish, result);
  }

  /** A claim's lease is held by its owner right after the claim. */
  lemma LeaseIsFresh(t: Tables, r: ClaimRequest, id: ChainId, finish: FinishRequest)
    requires MayPick(t, r, Some(id)) && 30 <= r.leaseSeconds
    requires finish.owner == r.owner && finish.finishedAt == r.now
    requires finish.attempt == NextAttempt(SweepTables(t, r.now), id)
    ensures FinishCheck(ClaimTables(t, r, Some(id)), finish)
         in {Applied, NegativeUsage, MayNotSpend, FailureCannotComplete}
    ensures FinishCheck(ClaimTables(t, r, Some(id)), finish) == NegativeUsage
            <==> finish.paidRequests < 0 || finish.paidCost < 0
    ensures finish.paidRequests == 0 ==> FinishCheck(ClaimTables(t, r, Some(id)), finish) != MayNotSpend
  {
  }
}
