/**
 What every interleaving of convergence transactions keeps: runs are sequences of
 transactions by any workers, at any times, in any order.
 */
module ConvergenceInvariant {
  import opened Options
  import opened RecoveryPolicy
  import opened ConvergenceTables

  datatype Event =
    | Create(create: CreateRequest)
    | Claim(claim: ClaimRequest, picked: Option<ChainId>)
    | Finish(finish: FinishRequest)
    | Reconcile(now: int)
    | Record(row: PrimaryRow)
    | Advance(to: Cursor)

  /** What `create_or_get_chain` checks of a request, whatever the cohort registry holds. */
  predicate CreateAllowed(r: CreateRequest) {
    r.selected != {} && r.decision.action != Complete && r.observedAt < r.deadlineAt && OrderedDelays(r.decision.delays)
  }

  lemma CheckedCreatesAreAllowed(cohorts: map<string, set<Source>>, r: CreateRequest)
    ensures CreateCheck(cohorts, r).None? <==>
            CreateAllowed(r) && r.id.cohort in cohorts && r.selected <= cohorts[r.id.cohort]
  {
  }

  /** One committed transaction; a refused one, or a pick the query cannot make, changes nothing. */
  ghost function Step(t: Tables, e: Event): Tables {
    match e
    case Create(r) => if CreateAllowed(r) then CreateTables(t, r) else t
    case Claim(r, picked) => if MayPick(t, r, picked) then ClaimTables(t, r, picked) else t
    case Finish(r) => FinishTables(t, r)
    case Reconcile(now) => ReconcileTables(t, now)
    case Record(row) => t.(telemetry := t.telemetry + [row])
    case Advance(to) => AdvanceTables(t, to)
  }

  ghost function Run(t: Tables, es: seq<Event>): Tables
    decreases |es|
  {
    if es == [] then t else Run(Step(t, es[0]), es[1..])
  }

  // ----- the invariant -------------------------------------------------------------

  ghost predicate EveryChainHasSources(t: Tables) {
    && t.sources.Keys == t.chains.Keys
    && forall id :: id in t.sources ==> t.sources[id] != {}
  }

  /** The attempt numbers of the chain are exactly 1..attemptIndex. */
  ghost predicate NumbersContiguous(c: Chain, id: ChainId, attempts: map<AttemptId, Attempt>) {
    && 0 <= c.attemptIndex
    && forall n :: AttemptId(id, n) in attempts <==> 1 <= n <= c.attemptIndex
  }

  /** Lease fields are set exactly while the chain runs. */
  predicate LeaseMarksRunning(c: Chain) {
    && (c.state == Running <==> c.leaseOwner.Some?)
    && (c.state == Running <==> c.leaseUntil.Some?)
  }

  /**
   Only the newest attempt of a chain may be running, and it is left running without a lease
   only where its chain was exhausted at the deadline (and perhaps closed as fresh since).
   */
  ghost predicate OnlyNewestRuns(c: Chain, id: ChainId, attempts: map<AttemptId, Attempt>) {
    forall n :: AttemptId(id, n) in attempts && attempts[AttemptId(id, n)].state == AttemptRunning ==>
                  n == c.attemptIndex && c.state in {Running, Exhausted, Fresh}
  }

  /** The newest attempt of a running chain runs, under the lease owner, for the chain's action. */
  predicate HasItsAttempt(c: Chain, id: ChainId, attempts: map<AttemptId, Attempt>) {
    var newest := AttemptId(id, c.attemptIndex);
    && newest in attempts
    && attempts[newest].state == AttemptRunning
    && Some(attempts[newest].worker) == c.leaseOwner
    && attempts[newest].action == c.action
  }

  ghost predicate ChainInv(c: Chain, id: ChainId, attempts: map<AttemptId, Attempt>) {
    && c.state != Cancelled
    && NumbersContiguous(c, id, attempts)
    && LeaseMarksRunning(c)
    && OnlyNewestRuns(c, id, attempts)
    && (c.state == Running ==> HasItsAttempt(c, id, attempts))
    && (c.nextAttemptAt.Some? ==> c.state !in {Running, Exhausted, Fresh})
  }

  ghost predicate Inv(t: Tables) {
    && EveryChainHasSources(t)
    && (forall a :: a in t.attempts ==> a.chain in t.chains)
    && (forall id :: id in t.chains ==> ChainInv(t.chains[id], id, t.attempts))
  }

  /** A chain's part of the invariant looks at the chain's own attempt rows only. */
  lemma ChainInvFrame(c: Chain, id: ChainId, before: map<AttemptId, Attempt>, after: map<AttemptId, Attempt>)
    requires ChainInv(c, id, before)
    requires forall n :: AttemptId(id, n) in before <==> AttemptId(id, n) in after
    requires forall n :: AttemptId(id, n) in before ==> before[AttemptId(id, n)] == after[AttemptId(id, n)]
    ensures ChainInv(c, id, after)
  {
  }

  // ----- every transaction keeps it ------------------------------------------------

  lemma CreateKeeps(t: Tables, r: CreateRequest)
    requires Inv(t) && CreateAllowed(r)
    ensures Inv(CreateTables(t, r))
  {
    var u := CreateTables(t, r);
    forall id | id in u.chains ensures ChainInv(u.chains[id], id, u.attempts) {
      if id == r.id && id !in t.chains {
        assert forall n :: AttemptId(id, n) in t.attempts ==> AttemptId(id, n).chain in t.chains;
      }
    }
  }

  lemma ReapKeeps(t: Tables, now: int)
    requires Inv(t)
    ensures Inv(ReapTables(t, ExpiredLeases(t, now), now))
  {
    var u := ReapTables(t, ExpiredLeases(t, now), now);
    forall id | id in u.chains ensures ChainInv(u.chains[id], id, u.attempts) {
      assert ChainInv(t.chains[id], id, t.attempts);
      if id !in ExpiredLeases(t, now) {
        ChainInvFrame(t.chains[id], id, t.attempts, u.attempts);
      }
    }
  }

  lemma ExhaustKeeps(t: Tables, now: int)
    requires Inv(t)
    ensures Inv(ExhaustTables(t, now))
  {
  }

  lemma SweepKeeps(t: Tables, now: int)
    requires Inv(t)
    ensures Inv(SweepTables(t, now))
  {
    ReapKeeps(t, now);
    ExhaustKeeps(ReapTables(t, ExpiredLeases(t, now), now), now);
  }

  /** The insert of a claim never collides with an attempt row that is already there. */
  lemma LeaseKeeps(t: Tables, id: ChainId, r: ClaimRequest)
    requires Inv(t) && Claimable(t, id, r.now, r.filters)
    ensures NextAttempt(t, id) !in t.attempts
    ensures Inv(LeaseTables(t, id, r))
  {
    var u := LeaseTables(t, id, r);
    assert ChainInv(t.chains[id], id, t.attempts);
    assert ChainInv(u.chains[id], id, u.attempts);
    forall other | other in u.chains && other != id ensures ChainInv(u.chains[other], other, u.attempts) {
      ChainInvFrame(t.chains[other], other, t.attempts, u.attempts);
    }
  }

  lemma FinishKeeps(t: Tables, r: FinishRequest)
    requires Inv(t)
    ensures Inv(FinishTables(t, r))
  {
    if FinishCheck(t, r) == Applied {
      var u, id := FinishTables(t, r), r.attempt.chain;
      assert ChainInv(t.chains[id], id, t.attempts);
      assert r.attempt == AttemptId(id, r.attempt.number);
      assert ChainInv(u.chains[id], id, u.attempts);
      forall other | other in u.chains && other != id ensures ChainInv(u.chains[other], other, u.attempts) {
        ChainInvFrame(t.chains[other], other, t.attempts, u.attempts);
      }
    }
  }

  lemma ReconcileKeeps(t: Tables, now: int)
    requires Inv(t)
    ensures Inv(ReconcileTables(t, now))
  {
  }

  lemma StepKeeps(t: Tables, e: Event)
    requires Inv(t)
    ensures Inv(Step(t, e))
  {
    match e
    case Create(r) => if CreateAllowed(r) { CreateKeeps(t, r); }
    case Claim(r, picked) =>
      SweepKeeps(t, r.now);
      if MayPick(t, r, picked) && picked.Some? { LeaseKeeps(SweepTables(t, r.now), picked.value, r); }
    case Finish(r) => FinishKeeps(t, r);
    case Reconcile(now) => ReconcileKeeps(t, now);
    case Record(row) =>
    case Advance(to) =>
  }

  lemma {:induction false} RunKeeps(t: Tables, es: seq<Event>)
    requires Inv(t)
    ensures Inv(Run(t, es))
    decreases |es|
  {
    if es != [] {
      StepKeeps(t, es[0]);
      RunKeeps(Step(t, es[0]), es[1..]);
    }
  }

  // ----- reachable tables ----------------------------------------------------------

  ghost predicate Reachable(t: Tables) {
    exists es :: t == Run(EMPTY_TABLES, es)
  }

  lemma {:induction false} RunOneMore(t: Tables, es: seq<Event>, e: Event)
    ensures Run(t, es + [e]) == Step(Run(t, es), e)
    decreases |es|
  {
    if es == [] {
      assert Run(Step(t, e), []) == Step(t, e);
    } else {
      assert (es + [e])[1..] == es[1..] + [e];
      RunOneMore(Step(t, es[0]), es[1..], e);
    }
  }

  lemma StepStaysReachable(t: Tables, e: Event)
    requires Reachable(t)
    ensures Reachable(Step(t, e))
  {
    var es :| t == Run(EMPTY_TABLES, es);
    RunOneMore(EMPTY_TABLES, es, e);
  }

  lemma ReachableTablesKeepInv(t: Tables)
    requires Reachable(t)
    ensures Inv(t)
  {
    var es :| t == Run(EMPTY_TABLES, es);
    RunKeeps(EMPTY_TABLES, es);
  }

  /**
   In reachable tables the insert of a claim never meets a row that is already there, and the
   update finds the picked chain as its WHERE clause wants it.
   */
  lemma InsertNeverCollides(t: Tables, r: ClaimRequest, id: ChainId)
    requires Reachable(t) && MayPick(t, r, Some(id))
    ensures var swept := SweepTables(t, r.now);
            && id in swept.chains
            && NextAttempt(swept, id) !in swept.attempts
            && swept.chains[id].state in {Waiting, UpstreamPending}
            && (swept.chains[id].leaseUntil.None? || swept.chains[id].leaseUntil.value <= r.now)
  {
    ReachableTablesKeepInv(t);
    SweepKeeps(t, r.now);
    LeaseKeeps(SweepTables(t, r.now), id, r);
  }
}
