/**
 What each transaction of the convergence store does to the rows it touches, spelled out field by
 field and condition by condition, as the statements of `app/convergence_store.py` put it.
 */
module ConvergenceEffects {
  import opened Options
  import opened RecoveryPolicy
  import opened ConvergenceTables
  import opened ConvergenceInvariant
  import opened ConvergenceFencing
  import opened ConvergenceQueue

  // ----- create_or_get_chain -------------------------------------------------------

  /** A chain is created once, with its first attempt one delay after the observation; later calls only add sources. */
  lemma CreatedChainIs(t: Tables, r: CreateRequest)
    ensures var u := CreateTables(t, r);
            && u.attempts == t.attempts && u.telemetry == t.telemetry && u.cursor == t.cursor
            && u.chains.Keys == t.chains.Keys + {r.id}
            && (forall id :: id in t.chains ==> u.chains[id] == t.chains[id])
            && (forall source :: source in SourcesOf(u, r.id) <==> source in SourcesOf(t, r.id) || source in r.selected)
            && (forall id :: id != r.id ==> SourcesOf(u, id) == SourcesOf(t, id))
    ensures r.id !in t.chains ==>
              var c := CreateTables(t, r).chains[r.id];
              && c.action == r.decision.action && c.reasonClass == r.decision.reasonClass
              && c.delays == r.decision.delays && c.paidFetchAllowed == r.decision.paidFetchAllowed
              && c.paidRequests == 0 && c.paidCost == 0 && c.attemptIndex == 0
              && c.deadlineAt == r.deadlineAt && c.createdAt == r.observedAt
              && c.lastOutcome == r.outcome && c.lastReason == r.reason
              && c.leaseOwner.None? && c.leaseUntil.None?
              && (c.nextAttemptAt.Some? <==> |r.decision.delays| > 0)
              && (c.nextAttemptAt.Some? ==> c.nextAttemptAt.value - r.observedAt == r.decision.delays[0])
    ensures r.id !in t.chains ==> StartsIn(CreateTables(t, r).chains[r.id].state, r.decision.action)
  {
  }

  /** The state that goes with an action still to be taken. */
  predicate StartsIn(state: ChainState, action: Action) {
    && (state == UpstreamPending <==> action == ProbeUpstream)
    && (state == Paused <==> action == PauseProvider)
    && (state == Quarantined <==> action == Quarantine)
    && (state == DiagnosisRequired <==> action == Diagnose)
    && (state == Waiting <==>
          action in {Complete, RetryTransport, RetryCandidate, RetryPublication, RetryScheduler, RetryLocal})
  }

  /** Every refusal names a fault that the request has. */
  lemma CreateRefusalsAreFaults(cohorts: map<string, set<Source>>, r: CreateRequest)
    ensures match CreateCheck(cohorts, r)
            case None => r.selected != {} && r.observedAt < r.deadlineAt
            case Some(UnknownCohort) => r.id.cohort !in cohorts
            case Some(NoSources) => r.selected == {}
            case Some(SourcesOutsideCohort) =>
              r.id.cohort in cohorts && exists source :: source in r.selected && source !in cohorts[r.id.cohort]
            case Some(FreshCreatesNoChain) => r.decision.action == Complete
            case Some(DeadlineNotAfterObservation) => r.deadlineAt <= r.observedAt
            case Some(DelaysNotOrdered) =>
              exists i :: 0 <= i < |r.decision.delays| &&
                          (r.decision.delays[i] < 0 || (i > 0 && r.decision.delays[i] < r.decision.delays[i - 1]))
  {
  }

  // ----- the sweep of claim_due ----------------------------------------------------

  /** An expired lease sends its chain back to waiting, due at once; a deadline that is over exhausts it. */
  lemma SweptChainIs(t: Tables, now: int, id: ChainId)
    requires id in t.chains
    ensures var c, d := t.chains[id], SweepTables(t, now).chains[id];
            if c.state in {Waiting, UpstreamPending, Running} && c.deadlineAt <= now then
              d == c.(state := Exhausted, nextAttemptAt := None, leaseOwner := None, leaseUntil := None,
                      updatedAt := now)
            else if c.state == Running && c.leaseUntil.Some? && c.leaseUntil.value <= now then
              d == c.(state := Waiting, nextAttemptAt := Some(now), leaseOwner := None, leaseUntil := None,
                      updatedAt := now)
            else d == c
  {
    SweepIsPointwise(t, now, id);
  }

  /** The running attempts of chains whose lease is over fail as expired; every other row stays. */
  lemma SweptAttemptIs(t: Tables, now: int, a: AttemptId)
    requires a in t.attempts && a.chain in t.chains
    ensures SweepTables(t, now).attempts.Keys == t.attempts.Keys
    ensures var c, row := t.chains[a.chain], t.attempts[a];
            SweepTables(t, now).attempts[a] ==
            if c.state == Running && c.leaseUntil.Some? && c.leaseUntil.value <= now && row.state == AttemptRunning
            then row.(state := AttemptFailed, reason := Some(LeaseExpired), finishedAt := Some(now))
            else row
  {
  }

  // ----- which chains a claim may take ---------------------------------------------

  /** A claimed chain is of an allowed action and every source of it is eligible; it was open, due and in time. */
  lemma ClaimableMeans(t: Tables, id: ChainId, now: int, f: Filters)
    ensures Claimable(t, id, now, f) <==>
            && id in t.chains
            && (t.chains[id].state == Waiting || t.chains[id].state == UpstreamPending)
            && t.chains[id].nextAttemptAt.Some? && t.chains[id].nextAttemptAt.value <= now
            && now < t.chains[id].deadlineAt
            && (t.chains[id].leaseUntil.Some? ==> t.chains[id].leaseUntil.value <= now)
            && (f.actions.Some? ==> t.chains[id].action in f.actions.value)
            && (f.eligible.Some? ==>
                  f.eligible.value != {} && forall source :: source in SourcesOf(t, id) ==> source in f.eligible.value)
  {
  }

  /** Every open chain that is due and in time is kept back by its action or by one of its sources. */
  ghost predicate OnlyFilteredAreDue(t: Tables, now: int, f: Filters) {
    forall id :: id in t.chains && t.chains[id].state in {Waiting, UpstreamPending} &&
                 t.chains[id].nextAttemptAt.Some? && t.chains[id].nextAttemptAt.value <= now &&
                 now < t.chains[id].deadlineAt ==>
      || (f.actions.Some? && t.chains[id].action !in f.actions.value)
      || (f.eligible.Some? && exists source :: source in SourcesOf(t, id) && source !in f.eligible.value)
  }

  lemma NothingClaimableMeans(t: Tables, now: int, f: Filters)
    requires Inv(t) && ClaimableChains(t, now, f) == {}
    ensures OnlyFilteredAreDue(t, now, f)
  {
    forall id | id in t.chains && t.chains[id].state in {Waiting, UpstreamPending} &&
                t.chains[id].nextAttemptAt.Some? && t.chains[id].nextAttemptAt.value <= now &&
                now < t.chains[id].deadlineAt
      ensures || (f.actions.Some? && t.chains[id].action !in f.actions.value)
              || (f.eligible.Some? && exists source :: source in SourcesOf(t, id) && source !in f.eligible.value)
    {
      assert id !in ClaimableChains(t, now, f);
      ClaimableMeans(t, id, now, f);
      assert ChainInv(t.chains[id], id, t.attempts);
      var source :| source in SourcesOf(t, id);
    }
  }

  /** After any claim that took nothing. */
  lemma UnclaimedAreFiltered(t: Tables, r: ClaimRequest)
    requires Reachable(t) && MayPick(t, r, None)
    ensures OnlyFilteredAreDue(ClaimTables(t, r, None), r.now, r.filters)
  {
    ReachableTablesKeepInv(t);
    SweepKeeps(t, r.now);
    NothingClaimableMeans(SweepTables(t, r.now), r.now, r.filters);
  }

  /** After any claim that took a chain. */
  lemma ClaimedIsAllowed(t: Tables, r: ClaimRequest, id: ChainId)
    requires MayPick(t, r, Some(id))
    ensures var u := ClaimTables(t, r, Some(id));
            && id in u.chains
            && (r.filters.actions.Some? ==> u.chains[id].action in r.filters.actions.value)
            && (r.filters.eligible.Some? ==>
                  forall source :: source in SourcesOf(u, id) ==> source in r.filters.eligible.value)
  {
    ClaimableMeans(SweepTables(t, r.now), id, r.now, r.filters);
  }

  lemma LooksDueMeans(t: Tables, id: ChainId, now: int, f: Filters)
    ensures LooksDue(t, id, now, f) <==>
            && id in t.chains
            && now < t.chains[id].deadlineAt
            && (|| (&& (t.chains[id].state == Waiting || t.chains[id].state == UpstreamPending)
                    && t.chains[id].nextAttemptAt.Some? && t.chains[id].nextAttemptAt.value <= now
                    && (t.chains[id].leaseUntil.Some? ==> t.chains[id].leaseUntil.value <= now))
                || (t.chains[id].state == Running
                    && t.chains[id].leaseUntil.Some? && t.chains[id].leaseUntil.value <= now))
            && (f.actions.Some? ==> t.chains[id].action in f.actions.value)
            && (f.eligible.Some? ==>
                  f.eligible.value != {} && forall source :: source in SourcesOf(t, id) ==> source in f.eligible.value)
  {
  }

  /** The chain taken is the earliest due, then the oldest, then the first by id. */
  lemma FirstMeans(t: Tables, id: ChainId, now: int, f: Filters, place: ChainId -> int, other: ChainId)
    requires IsFirst(t, id, now, f, place) && Claimable(t, other, now, f)
    ensures var (c, d) := (t.chains[id], t.chains[other]);
            && c.nextAttemptAt.value <= d.nextAttemptAt.value
            && (c.nextAttemptAt.value == d.nextAttemptAt.value ==> c.createdAt <= d.createdAt)
            && (c.nextAttemptAt.value == d.nextAttemptAt.value && c.createdAt == d.createdAt ==>
                  place(id) <= place(other))
  {
  }

  /** The lease: one more attempt, running for the chain's action under the owner till the lease ends. */
  lemma LeasedRowsAre(t: Tables, id: ChainId, r: ClaimRequest)
    requires id in t.chains
    ensures var (c, u) := (t.chains[id], LeaseTables(t, id, r));
            && u.sources == t.sources && u.telemetry == t.telemetry && u.cursor == t.cursor
            && u.chains.Keys == t.chains.Keys
            && (forall other :: other in t.chains && other != id ==> u.chains[other] == t.chains[other])
            && u.chains[id] == c.(state := Running, attemptIndex := c.attemptIndex + 1, nextAttemptAt := None,
                                  leaseOwner := Some(r.owner), leaseUntil := Some(r.now + r.leaseSeconds),
                                  updatedAt := r.now)
            && u.attempts == t.attempts[AttemptId(id, c.attemptIndex + 1) :=
                 Attempt(c.action, AttemptRunning, r.owner, None, None, None, 0, 0, r.now, None)]
  {
  }

  // ----- finish_attempt ------------------------------------------------------------

  /** Why a finish is refused, in terms of the lease. */
  lemma RefusalsOfFinish(t: Tables, r: FinishRequest)
    requires Inv(t)
    ensures var result := FinishCheck(t, r);
            var known := 0 <= r.paidRequests && 0 <= r.paidCost && r.attempt in t.attempts;
            var own := known && t.attempts[r.attempt].worker == r.owner;
            var leased := own && Leased(t, r.attempt);
            var inTime := leased && r.finishedAt < t.chains[r.attempt.chain].leaseUntil.value;
            && (result == NegativeUsage <==> r.paidRequests < 0 || r.paidCost < 0)
            && (result == AttemptNotFound <==> 0 <= r.paidRequests && 0 <= r.paidCost && r.attempt !in t.attempts)
            && (result == AttemptOfAnotherWorker <==> known && !own)
            && (result == Replayed <==> own && t.attempts[r.attempt].state != AttemptRunning)
            && (result == LeaseOfAnotherWorker <==>
                  own && t.attempts[r.attempt].state == AttemptRunning && !Leased(t, r.attempt))
            && (result == LeaseHasExpired <==> leased && !inTime)
            && (result == MayNotSpend <==>
                  inTime && 0 < r.paidRequests && !t.chains[r.attempt.chain].paidFetchAllowed)
            && (result == FailureCannotComplete <==>
                  && inTime && (0 < r.paidRequests ==> t.chains[r.attempt.chain].paidFetchAllowed)
                  && r.decision.action == Complete && !r.succeeded)
  {
    FinishAppliesExactlyUnderLease(t, r);
    if r.attempt in t.attempts {
      assert ChainInv(t.chains[r.attempt.chain], r.attempt.chain, t.attempts);
      assert r.attempt == AttemptId(r.attempt.chain, r.attempt.number);
    }
  }

  /** The rows counted against the delays: the attempts of the chain made for the decided action. */
  function MadeFor(t: Tables, r: FinishRequest): nat {
    |set a | a in t.attempts && a.chain == r.attempt.chain && t.attempts[a].action == r.decision.action|
  }

  predicate Retries(action: Action) {
    action in {ProbeUpstream, RetryTransport, RetryCandidate, RetryPublication, RetryScheduler, RetryLocal}
  }

  /**
   Where an applied finish leaves the chain `d`. A retry waits the delay whose place is the number
   of attempts made for its action, if there is one and it ends before the deadline; else the chain
   is exhausted.
   */
  predicate ScheduledAs(d: Chain, r: FinishRequest, made: nat) {
    var left := made < |r.decision.delays| && r.finishedAt + r.decision.delays[made] < d.deadlineAt;
    && (d.state == Fresh <==> r.decision.action == Complete)
    && (d.state == Paused <==> r.decision.action == PauseProvider)
    && (d.state == Quarantined <==> r.decision.action == Quarantine)
    && (d.state == DiagnosisRequired <==> r.decision.action == Diagnose)
    && (d.state == UpstreamPending <==> left && r.decision.action == ProbeUpstream)
    && (d.state == Waiting <==> left && Retries(r.decision.action) && r.decision.action != ProbeUpstream)
    && (d.state == Exhausted <==> !left && Retries(r.decision.action))
    && (d.nextAttemptAt.Some? <==> left && Retries(r.decision.action))
    && (d.nextAttemptAt.Some? ==> d.nextAttemptAt.value - r.finishedAt == r.decision.delays[made])
  }

  lemma FinishedChainIsScheduled(c: Chain, r: FinishRequest, made: nat)
    ensures ScheduledAs(FinishedChain(c, r, made), r, made)
  {
  }

  lemma FinishedChainIs(t: Tables, r: FinishRequest)
    requires Inv(t) && FinishCheck(t, r) == Applied
    ensures r.attempt.chain in FinishTables(t, r).chains
    ensures ScheduledAs(FinishTables(t, r).chains[r.attempt.chain], r, MadeFor(t, r))
  {
    var id := r.attempt.chain;
    FinishAppliesExactlyUnderLease(t, r);
    assert RowsFor(t, id, r.decision.action)
        == set a | a in t.attempts && a.chain == id && t.attempts[a].action == r.decision.action;
    assert FinishTables(t, r).chains[id] == FinishedChain(t.chains[id], r, MadeFor(t, r));
    FinishedChainIsScheduled(t.chains[id], r, MadeFor(t, r));
  }

  lemma ReachableFinishIs(t: Tables, r: FinishRequest)
    requires Reachable(t)
    ensures FinishCheck(t, r) == Applied ==>
              && r.attempt.chain in FinishTables(t, r).chains
              && ScheduledAs(FinishTables(t, r).chains[r.attempt.chain], r, MadeFor(t, r))
  {
    ReachableTablesKeepInv(t);
    if FinishCheck(t, r) == Applied { FinishedChainIs(t, r); }
  }

  /** And what else it writes: totals grow by the usage, the lease is given up, nothing else moves. */
  lemma FinishedRowsAre(t: Tables, r: FinishRequest)
    requires Inv(t) && FinishCheck(t, r) == Applied
    ensures var u := FinishTables(t, r);
            var (c, d) := (t.chains[r.attempt.chain], u.chains[r.attempt.chain]);
            var (row, done) := (t.attempts[r.attempt], u.attempts[r.attempt]);
            && d.action == r.decision.action && d.reasonClass == r.decision.reasonClass
            && d.delays == r.decision.delays && d.paidFetchAllowed == r.decision.paidFetchAllowed
            && d.paidRequests - c.paidRequests == r.paidRequests && d.paidCost - c.paidCost == r.paidCost
            && d.lastOutcome == r.outcome && d.lastReason == r.reason
            && d.leaseOwner.None? && d.leaseUntil.None? && d.updatedAt == r.finishedAt
            && d.attemptIndex == c.attemptIndex && d.deadlineAt == c.deadlineAt && d.createdAt == c.createdAt
            && (done.state == AttemptSucceeded <==> r.succeeded) && (done.state == AttemptFailed <==> !r.succeeded)
            && done == row.(state := done.state, parserRun := r.parserRun, outcome := Some(r.outcome),
                            reason := Some(r.reason), paidRequests := r.paidRequests, paidCost := r.paidCost,
                            finishedAt := Some(r.finishedAt))
            && u.sources == t.sources && u.telemetry == t.telemetry && u.cursor == t.cursor
            && (forall other :: other in t.chains && other != r.attempt.chain ==> u.chains[other] == t.chains[other])
            && (forall a :: a in t.attempts && a != r.attempt ==> u.attempts[a] == t.attempts[a])
  {
    FinishAppliesExactlyUnderLease(t, r);
  }

  // ----- reconcile_fresh_primary_outcomes ------------------------------------------

  /**
   A reconciliation closes exactly the unresolved chains all of whose sources have a fresh primary
   that finished after the chain was created, and leaves every other chain alone.
   */
  lemma ReconcileClosesExactly(t: Tables, now: int, id: ChainId)
    requires id in t.chains
    ensures var (c, d) := (t.chains[id], ReconcileTables(t, now).chains[id]);
            if && c.state in {Waiting, UpstreamPending, Paused, Quarantined, DiagnosisRequired, Exhausted}
               && forall source :: source in SourcesOf(t, id) ==>
                    exists i :: && 0 <= i < |t.telemetry| && t.telemetry[i].source == source
                                && t.telemetry[i].outcome == FreshPublished && c.createdAt < t.telemetry[i].finishedAt
            then d == c.(action := Complete, reasonClass := FreshClass, state := Fresh, delays := [],
                         paidFetchAllowed := false, nextAttemptAt := None, lastOutcome := FreshPublished,
                         lastReason := NoReason, leaseOwner := None, leaseUntil := None, updatedAt := now)
            else d == c
  {
  }

  /** For every chain: closed now if and only if it was unresolved and every source has such a primary. */
  ghost predicate ClosedExactlyTheFresh(t: Tables, u: Tables) {
    forall id :: id in t.chains ==>
      && id in u.chains
      && (u.chains[id].state == Fresh && t.chains[id].state != Fresh <==>
            && t.chains[id].state in {Waiting, UpstreamPending, Paused, Quarantined, DiagnosisRequired, Exhausted}
            && forall source :: source in SourcesOf(t, id) ==>
                 exists i :: && 0 <= i < |t.telemetry| && t.telemetry[i].source == source
                             && t.telemetry[i].outcome == FreshPublished
                             && t.chains[id].createdAt < t.telemetry[i].finishedAt)
      && (u.chains[id].state != Fresh ==> u.chains[id] == t.chains[id])
  }

  lemma ReconcileClosesExactlyTheFresh(t: Tables, now: int)
    ensures ClosedExactlyTheFresh(t, ReconcileTables(t, now))
  {
    forall id | id in t.chains { ReconcileClosesExactly(t, now, id); }
  }

  /** It writes nothing but chains. */
  lemma ReconcileWritesChainsOnly(t: Tables, now: int)
    ensures var u := ReconcileTables(t, now);
            u == t.(chains := u.chains) && u.chains.Keys == t.chains.Keys
  {
  }

  // ----- advance_planner_cursor ----------------------------------------------------

  /** The cursor becomes the later of the two, by time and then by attempt. */
  lemma AdvanceKeepsTheLater(t: Tables, to: Cursor)
    ensures var u := AdvanceTables(t, to);
            && u == t.(cursor := u.cursor) && u.cursor.Some?
            && (u.cursor == Some(to) || u.cursor == t.cursor)
            && to.finishedAt <= u.cursor.value.finishedAt
            && (to.finishedAt == u.cursor.value.finishedAt ==> to.id <= u.cursor.value.id)
            && (t.cursor.Some? ==>
                  && t.cursor.value.finishedAt <= u.cursor.value.finishedAt
                  && (t.cursor.value.finishedAt == u.cursor.value.finishedAt ==>
                        t.cursor.value.id <= u.cursor.value.id))
  {
  }
}
