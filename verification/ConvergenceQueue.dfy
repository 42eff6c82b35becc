/**
 What a claim finds, what it leaves behind, and where a chain can go from each state.
 */
module ConvergenceQueue {
  import opened Options
  import opened RecoveryPolicy
  import opened ConvergenceTables
  import opened ConvergenceInvariant

  // ----- the peek and the take -----------------------------------------------------

  /**
   For every chain, looking due now is the same as being claimable once expired leases are
   reaped and overdue chains exhausted. This needs no invariant: it holds of any tables.
   */
  lemma SweepMakesDueWhatLooksDue(t: Tables, id: ChainId, now: int, f: Filters)
    ensures LooksDue(t, id, now, f) <==> Claimable(SweepTables(t, now), id, now, f)
  {
    if id in t.chains { SweepIsPointwise(t, now, id); }
  }

  /** Hence the peek answers yes exactly when a claim with the same time and filters is granted. */
  lemma PeekAgreesWithTake(t: Tables, r: ClaimRequest, picked: Option<ChainId>)
    requires MayPick(t, r, picked)
    ensures picked.Some? <==> exists id :: LooksDue(t, id, r.now, r.filters)
  {
    var swept := SweepTables(t, r.now);
    forall id ensures LooksDue(t, id, r.now, r.filters) <==> id in ClaimableChains(swept, r.now, r.filters) {
      SweepMakesDueWhatLooksDue(t, id, r.now, r.filters);
    }
    if picked.Some? {
      assert picked.value in ClaimableChains(swept, r.now, r.filters);
      assert LooksDue(t, picked.value, r.now, r.filters);
    }
  }

  /** `ORDER BY next_attempt_at, created_at, chain_id`, with the ids' places in the order of their text. */
  predicate Precedes(a: Chain, b: Chain, placeOfA: int, placeOfB: int) {
    && NoLaterThan(a, b)
    && (NoLaterThan(b, a) ==> placeOfA <= placeOfB)
  }

  ghost predicate IsFirst(t: Tables, id: ChainId, now: int, f: Filters, place: ChainId -> int) {
    && Claimable(t, id, now, f)
    && forall other :: Claimable(t, other, now, f) ==>
         Precedes(t.chains[id], t.chains[other], place(id), place(other))
  }

  /** The query always has an answer: if anything is claimable, something is first. */
  lemma {:induction false} SomethingIsFirst(t: Tables, now: int, f: Filters, ids: set<ChainId>, place: ChainId -> int)
      returns (first: ChainId)
    requires ids != {} && forall id :: id in ids ==> Claimable(t, id, now, f)
    ensures first in ids && Claimable(t, first, now, f)
    ensures forall id :: id in ids ==>
              id in t.chains && Precedes(t.chains[first], t.chains[id], place(first), place(id))
    decreases |ids|
  {
    var id :| id in ids;
    if ids == {id} {
      first := id;
    } else {
      var rest := ids - {id};
      assert ids == rest + {id};
      first := SomethingIsFirst(t, now, f, rest, place);
      if !Precedes(t.chains[first], t.chains[id], place(first), place(id)) { first := id; }
    }
  }

  /** And only one: ids with distinct texts leave no choice. */
  lemma FirstIsUnique(t: Tables, now: int, f: Filters, place: ChainId -> int, a: ChainId, b: ChainId)
    requires forall x: ChainId, y: ChainId :: place(x) == place(y) ==> x == y
    requires IsFirst(t, a, now, f, place) && IsFirst(t, b, now, f, place)
    ensures a == b
  {
  }

  // ----- deadlines -----------------------------------------------------------------

  /** Every claim is due and before its deadline, in the tables as they were and as swept. */
  lemma ClaimsAreDueBeforeDeadline(t: Tables, r: ClaimRequest, id: ChainId)
    requires MayPick(t, r, Some(id))
    ensures id in t.chains && r.now < t.chains[id].deadlineAt
    ensures t.chains[id].state == Running
            || (t.chains[id].nextAttemptAt.Some? && t.chains[id].nextAttemptAt.value <= r.now)
  {
    SweepMakesDueWhatLooksDue(t, id, r.now, r.filters);
  }

  /** After a committed claim, with or without a chain, no open chain is past its deadline. */
  lemma ClaimLeavesNothingOverdue(t: Tables, r: ClaimRequest, picked: Option<ChainId>, id: ChainId)
    requires MayPick(t, r, picked) && id in t.chains
    ensures var c := ClaimTables(t, r, picked).chains[id];
            c.state in {Waiting, UpstreamPending, Running} ==> r.now < c.deadlineAt
  {
  }

  /** A retry that a finish schedules falls strictly before the deadline, which never moves. */
  lemma RetriesFallBeforeDeadline(t: Tables, r: FinishRequest)
    requires FinishCheck(t, r) == Applied && t.chains[r.attempt.chain].state == Running
    ensures var c := FinishTables(t, r).chains[r.attempt.chain];
            && c.deadlineAt == t.chains[r.attempt.chain].deadlineAt
            && (c.state in {Waiting, UpstreamPending} <==> c.nextAttemptAt.Some?)
            && (c.nextAttemptAt.Some? ==> c.nextAttemptAt.value < c.deadlineAt)
  {
  }

  // ----- where a chain can go ------------------------------------------------------

  const PARKED := {Paused, Quarantined, DiagnosisRequired, Exhausted}

  predicate MayMove(before: ChainState, after: ChainState) {
    || before == after
    || (before in {Waiting, UpstreamPending} && after in {Running, Exhausted, Fresh})
    || (before == Running && after != Cancelled)
    || (before in PARKED && after == Fresh)
  }

  /** A move of one chain in one step: state graph kept, fresh frozen, identity and deadline fixed. */
  predicate ChainMoves(c: Chain, d: Chain) {
    && MayMove(c.state, d.state)
    && (c.state == Fresh ==> d == c)
    && d.deadlineAt == c.deadlineAt
    && d.createdAt == c.createdAt
  }

  lemma ClaimMovesChains(t: Tables, r: ClaimRequest, picked: Option<ChainId>, id: ChainId)
    requires MayPick(t, r, picked) && id in t.chains
    ensures id in ClaimTables(t, r, picked).chains
    ensures ChainMoves(t.chains[id], ClaimTables(t, r, picked).chains[id])
    ensures ClaimTables(t, r, picked).chains[id].state != Fresh || t.chains[id].state == Fresh
  {
    SweepIsPointwise(t, r.now, id);
  }

  lemma CreateMovesChains(t: Tables, r: CreateRequest, id: ChainId)
    requires id in t.chains
    ensures id in CreateTables(t, r).chains && CreateTables(t, r).chains[id] == t.chains[id]
    ensures SourcesOf(t, id) <= SourcesOf(CreateTables(t, r), id)
  {
  }

  lemma ReconcileMovesChains(t: Tables, now: int, id: ChainId)
    requires id in t.chains
    ensures id in ReconcileTables(t, now).chains && ReconcileTables(t, now).sources == t.sources
    ensures ChainMoves(t.chains[id], ReconcileTables(t, now).chains[id])
  {
  }

  lemma StepMovesChains(t: Tables, e: Event, id: ChainId)
    requires Inv(t) && id in t.chains
    ensures id in Step(t, e).chains
    ensures ChainMoves(t.chains[id], Step(t, e).chains[id])
    ensures SourcesOf(t, id) <= SourcesOf(Step(t, e), id)
  {
    match e
    case Create(r) => if CreateAllowed(r) { CreateMovesChains(t, r, id); }
    case Claim(r, picked) => if MayPick(t, r, picked) { ClaimMovesChains(t, r, picked, id); }
    case Finish(r) => FinishMovesChains(t, r, id);
    case Reconcile(now) => ReconcileMovesChains(t, now, id);
    case Record(row) =>
    case Advance(to) =>
  }

  lemma FinishMovesChains(t: Tables, r: FinishRequest, id: ChainId)
    requires Inv(t) && id in t.chains
    ensures FinishTables(t, r).chains.Keys == t.chains.Keys && FinishTables(t, r).sources == t.sources
    ensures ChainMoves(t.chains[id], FinishTables(t, r).chains[id])
    ensures FinishTables(t, r).chains[id].state == Fresh && t.chains[id].state != Fresh ==>
              FinishCheck(t, r) == Applied && r.attempt.chain == id && r.decision.action == Complete && r.succeeded
  {
    assert ChainInv(t.chains[id], id, t.attempts);
  }

  /** Fresh is never left, not a field of the chain changes; a parked chain can only become fresh. */
  lemma {:induction false} ParkedChainsOnlyBecomeFresh(t: Tables, es: seq<Event>, id: ChainId)
    requires Inv(t) && id in t.chains
    ensures id in Run(t, es).chains
    ensures t.chains[id].state == Fresh ==> Run(t, es).chains[id] == t.chains[id]
    ensures t.chains[id].state in PARKED ==> Run(t, es).chains[id].state in {t.chains[id].state, Fresh}
    ensures Run(t, es).chains[id].deadlineAt == t.chains[id].deadlineAt
    ensures SourcesOf(t, id) <= SourcesOf(Run(t, es), id)
    decreases |es|
  {
    if es != [] {
      StepMovesChains(t, es[0], id);
      StepKeeps(t, es[0]);
      ParkedChainsOnlyBecomeFresh(Step(t, es[0]), es[1..], id);
    }
  }

  /**
   A chain becomes fresh only through a finish of its leased attempt that succeeded and decided
   to complete, or through a reconciliation that found a fresh primary outcome, newer than the
   chain, for every source the chain has.
   */
  lemma FreshHasAWitness(t: Tables, e: Event, id: ChainId)
    requires Inv(t) && id in t.chains && t.chains[id].state != Fresh
    requires Step(t, e).chains[id].state == Fresh
    ensures || (e.Finish? && FinishCheck(t, e.finish) == Applied && e.finish.attempt.chain == id
                && e.finish.decision.action == Complete && e.finish.succeeded)
            || (&& e.Reconcile? && SourcesOf(t, id) != {}
                && t.chains[id].state in {Waiting, UpstreamPending, Paused, Quarantined, DiagnosisRequired, Exhausted}
                && forall source :: source in SourcesOf(t, id) ==>
                     exists i :: && 0 <= i < |t.telemetry| && t.telemetry[i].source == source
                                 && t.telemetry[i].outcome == FreshPublished
                                 && t.chains[id].createdAt < t.telemetry[i].finishedAt)
  {
    assert ChainInv(t.chains[id], id, t.attempts);
    match e
    case Create(r) =>
    case Claim(r, picked) => if MayPick(t, r, picked) { ClaimMovesChains(t, r, picked, id); }
    case Finish(r) => FinishMovesChains(t, r, id);
    case Reconcile(now) =>
    case Record(row) =>
    case Advance(to) =>
  }
}
