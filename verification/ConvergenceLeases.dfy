/**
 What can happen between a worker's claim and its finish (`app/convergence_worker.py`): other
 transactions run, sources are added, the lease may end. When is the finish still accepted, and
 which sources does it speak of?
 */
module ConvergenceLeases {
  import opened Options
  import opened RecoveryPolicy
  import opened ConvergenceTables
  import opened ConvergenceInvariant
  import opened ConvergenceFencing
  import opened ConvergenceStore
  import opened ConvergenceWorker

  // ----- how long a lease lasts ----------------------------------------------------

  /** A committed claim at or after the lease's end or the chain's deadline, or a finish of the attempt itself. */
  ghost predicate Ends(t: Tables, e: Event, a: AttemptId, until: int, deadline: int) {
    match e
    case Create(_) => false
    case Claim(r, picked) => MayPick(t, r, picked) && (until <= r.now || deadline <= r.now)
    case Finish(f) => f.attempt == a && FinishCheck(t, f) == Applied
    case Reconcile(_) => false
    case Record(_) => false
    case Advance(_) => false
  }

  ghost predicate Undisturbed(t: Tables, es: seq<Event>, a: AttemptId, until: int, deadline: int)
    decreases |es|
  {
    es == [] || (!Ends(t, es[0], a, until, deadline) && Undisturbed(Step(t, es[0]), es[1..], a, until, deadline))
  }

  /** The attempt holds the lease on the chain as it is. */
  predicate Holds(t: Tables, a: AttemptId, c: Chain) {
    Leased(t, a) && t.chains[a.chain] == c && c.leaseUntil.Some?
  }

  lemma ClaimSparesTheLease(t: Tables, r: ClaimRequest, picked: Option<ChainId>, a: AttemptId, c: Chain)
    requires Inv(t) && Holds(t, a, c) && MayPick(t, r, picked)
    requires r.now < c.leaseUntil.value && r.now < c.deadlineAt
    ensures Holds(ClaimTables(t, r, picked), a, c)
  {
    SweepIsPointwise(t, r.now, a.chain);
  }

  lemma ClaimEndsTheLease(t: Tables, r: ClaimRequest, picked: Option<ChainId>, a: AttemptId, c: Chain)
    requires Inv(t) && Holds(t, a, c) && MayPick(t, r, picked)
    requires c.leaseUntil.value <= r.now || c.deadlineAt <= r.now
    ensures Lost(ClaimTables(t, r, picked), a)
  {
    SweepIsPointwise(t, r.now, a.chain);
  }

  lemma FinishEndsOnlyItsLease(t: Tables, f: FinishRequest, a: AttemptId, c: Chain)
    requires Inv(t) && Holds(t, a, c)
    ensures if f.attempt == a && FinishCheck(t, f) == Applied then Lost(FinishTables(t, f), a)
            else Holds(FinishTables(t, f), a, c)
  {
    FinishAppliesExactlyUnderLease(t, f);
    assert f.attempt == AttemptId(f.attempt.chain, f.attempt.number) && a == AttemptId(a.chain, a.number);
  }

  lemma CreateSparesTheLease(t: Tables, r: CreateRequest, a: AttemptId, c: Chain)
    requires Holds(t, a, c)
    ensures Holds(CreateTables(t, r), a, c)
  {
  }

  lemma ReconcileSparesHolders(t: Tables, now: int, a: AttemptId, c: Chain)
    requires Holds(t, a, c)
    ensures Holds(ReconcileTables(t, now), a, c)
  {
  }

  lemma StepSparesOrEndsTheLease(t: Tables, e: Event, a: AttemptId, c: Chain)
    requires Inv(t) && Holds(t, a, c)
    ensures if Ends(t, e, a, c.leaseUntil.value, c.deadlineAt) then Lost(Step(t, e), a) else Holds(Step(t, e), a, c)
  {
    match e
    case Create(r) => if CreateAllowed(r) { CreateSparesTheLease(t, r, a, c); }
    case Claim(r, picked) =>
      if MayPick(t, r, picked) {
        if c.leaseUntil.value <= r.now || c.deadlineAt <= r.now {
          ClaimEndsTheLease(t, r, picked, a, c);
        } else {
          ClaimSparesTheLease(t, r, picked, a, c);
        }
      }
    case Finish(f) => FinishEndsOnlyItsLease(t, f, a, c);
    case Reconcile(now) => ReconcileSparesHolders(t, now, a, c);
    case Record(row) =>
    case Advance(to) =>
  }

  /** Over any run a lease lasts exactly as long as nothing ends it, whatever the clock says. */
  lemma {:induction false} LeaseLastsExactlyIfUndisturbed(t: Tables, es: seq<Event>, a: AttemptId, c: Chain)
    requires Inv(t) && Holds(t, a, c)
    ensures Inv(Run(t, es))
    ensures if Undisturbed(t, es, a, c.leaseUntil.value, c.deadlineAt) then Holds(Run(t, es), a, c)
            else Lost(Run(t, es), a)
    decreases |es|
  {
    if es != [] {
      StepKeeps(t, es[0]);
      StepSparesOrEndsTheLease(t, es[0], a, c);
      if Ends(t, es[0], a, c.leaseUntil.value, c.deadlineAt) {
        LostForever(Step(t, es[0]), es[1..], a);
      } else {
        LeaseLastsExactlyIfUndisturbed(Step(t, es[0]), es[1..], a, c);
      }
    }
  }

  // ----- the finish of a worker, after anything ------------------------------------

  /** What `claim_due` hands out, given the tables it leaves behind. */
  function LeaseOf(claimed: Tables, r: ClaimRequest, id: ChainId): Lease
    requires id in claimed.chains
  {
    Lease(AttemptId(id, claimed.chains[id].attemptIndex), r.owner, r.now + r.leaseSeconds, claimed.chains[id],
          SourcesOf(claimed, id))
  }

  predicate Admissible(c: Chain, f: FinishRequest) {
    0 <= f.paidRequests && 0 <= f.paidCost && (f.paidRequests == 0 || c.paidFetchAllowed)
  }

  lemma ClaimHoldsItsLease(t: Tables, r: ClaimRequest, id: ChainId)
    requires Inv(t) && MayPick(t, r, Some(id))
    ensures var u := ClaimTables(t, r, Some(id));
            && Inv(u) && Holds(u, LeaseOf(u, r, id).attempt, u.chains[id])
            && u.chains[id].leaseOwner == Some(r.owner) && u.chains[id].leaseUntil == Some(r.now + r.leaseSeconds)
  {
    StepKeeps(t, Claim(r, Some(id)));
  }

  /** The store calls a finish late only for the attempt that still holds the lease. */
  lemma NeverLateUnlessLeased(t: Tables, f: FinishRequest)
    requires Inv(t) && FinishCheck(t, f) == LeaseHasExpired
    ensures Leased(t, f.attempt) && t.chains[f.attempt.chain].leaseUntil.value <= f.finishedAt
  {
    assert ChainInv(t.chains[f.attempt.chain], f.attempt.chain, t.attempts);
    assert f.attempt == AttemptId(f.attempt.chain, f.attempt.number);
  }

  /** A finish by the holder of a lease that reports a time before the lease's end. */
  predicate HolderFinishes(a: AttemptId, c: Chain, f: FinishRequest) {
    && f.attempt == a && c.leaseOwner == Some(f.owner)
    && c.leaseUntil.Some? && f.finishedAt < c.leaseUntil.value
    && (f.decision.action == Complete ==> f.succeeded)
  }

  lemma HolderIsNeverLate(t: Tables, es: seq<Event>, a: AttemptId, c: Chain, f: FinishRequest)
    requires Inv(t) && Holds(t, a, c) && HolderFinishes(a, c, f)
    ensures FinishCheck(Run(t, es), f) != LeaseHasExpired
  {
    LeaseLastsExactlyIfUndisturbed(t, es, a, c);
    if FinishCheck(Run(t, es), f) == LeaseHasExpired { NeverLateUnlessLeased(Run(t, es), f); }
  }

  lemma HolderFinishAppliesExactlyIfUndisturbed(t: Tables, es: seq<Event>, a: AttemptId, c: Chain, f: FinishRequest)
    requires Inv(t) && Holds(t, a, c) && HolderFinishes(a, c, f)
    ensures FinishCheck(Run(t, es), f) == Applied <==>
            Admissible(c, f) && Undisturbed(t, es, a, c.leaseUntil.value, c.deadlineAt)
  {
    LeaseLastsExactlyIfUndisturbed(t, es, a, c);
    FinishAppliesExactlyUnderLease(Run(t, es), f);
  }

  /** The lease fields that a claim for `r` sets. */
  predicate LeasedFor(c: Chain, r: ClaimRequest) {
    c.leaseOwner == Some(r.owner) && c.leaseUntil.Some? && c.leaseUntil.value == r.now + r.leaseSeconds
  }

  lemma WorkersAreHolders(lease: Lease, r: ClaimRequest, execution: Option<Execution>, f: FinishRequest)
    requires IsWorkerFinish(lease, r.now, r.owner, execution, f)
    requires LeasedFor(lease.chain, r) && 30 <= r.leaseSeconds
    ensures HolderFinishes(lease.attempt, lease.chain, f)
  {
    WorkerCompletesExactlyWhenAllFresh(lease, r.now, r.owner, execution, f);
  }

  /** A committed claim left the tables `claimed` and handed out `lease`. */
  ghost predicate HandsOut(r: ClaimRequest, claimed: Tables, lease: Lease) {
    var id := lease.attempt.chain;
    exists t: Tables ::
      && Inv(t) && MayPick(t, r, Some(id)) && 30 <= r.leaseSeconds
      && claimed == ClaimTables(t, r, Some(id)) && lease == LeaseOf(claimed, r, id)
  }

  lemma HandedOutIsHeld(r: ClaimRequest, claimed: Tables, lease: Lease)
    requires HandsOut(r, claimed, lease)
    ensures Inv(claimed) && Holds(claimed, lease.attempt, lease.chain) && LeasedFor(lease.chain, r)
    ensures 30 <= r.leaseSeconds && lease.until == r.now + r.leaseSeconds
    ensures lease.sources == SourcesOf(claimed, lease.attempt.chain)
  {
    var t: Tables :| Inv(t) && MayPick(t, r, Some(lease.attempt.chain)) && 30 <= r.leaseSeconds
      && claimed == ClaimTables(t, r, Some(lease.attempt.chain)) && lease == LeaseOf(claimed, r, lease.attempt.chain);
    ClaimHoldsItsLease(t, r, lease.attempt.chain);
  }

  /**
   `run_once` finishes with the time of its claim. So, after the claim left the tables `claimed`,
   its finish is never refused as late, and it is applied exactly if it reports admissible usage
   and meanwhile no claim was committed at or after the lease's end or the deadline, and no finish
   of the same attempt was applied.
   */
  lemma WorkerFinishAppliesExactlyIfUndisturbed(
      claimed: Tables, r: ClaimRequest, lease: Lease, es: seq<Event>, execution: Option<Execution>, f: FinishRequest)
    requires HandsOut(r, claimed, lease) && IsWorkerFinish(lease, r.now, r.owner, execution, f)
    ensures FinishCheck(Run(claimed, es), f) != LeaseHasExpired
    ensures FinishCheck(Run(claimed, es), f) == Applied <==>
            Admissible(lease.chain, f) && Undisturbed(claimed, es, lease.attempt, lease.until, lease.chain.deadlineAt)
  {
    HandedOutIsHeld(r, claimed, lease);
    LeasedWorkerFinishes(claimed, r, lease, es, execution, f);
  }

  lemma LeasedWorkerFinishes(
      t: Tables, r: ClaimRequest, lease: Lease, es: seq<Event>, execution: Option<Execution>, f: FinishRequest)
    requires Inv(t) && Holds(t, lease.attempt, lease.chain) && LeasedFor(lease.chain, r) && 30 <= r.leaseSeconds
    requires IsWorkerFinish(lease, r.now, r.owner, execution, f)
    requires lease.chain.leaseUntil.Some? && lease.until == lease.chain.leaseUntil.value
    ensures FinishCheck(Run(t, es), f) != LeaseHasExpired
    ensures FinishCheck(Run(t, es), f) == Applied <==>
            Admissible(lease.chain, f) && Undisturbed(t, es, lease.attempt, lease.until, lease.chain.deadlineAt)
  {
    WorkersAreHolders(lease, r, execution, f);
    HolderIsNeverLate(t, es, lease.attempt, lease.chain, f);
    HolderFinishAppliesExactlyIfUndisturbed(t, es, lease.attempt, lease.chain, f);
  }

  // ----- a worker that outlives its lease ------------------------------------------

  /** What the worker of a lease sends when its executor fails. */
  function FailedFinish(lease: Lease, r: ClaimRequest): FinishRequest {
    WorkerFinish(lease, r.now, r.owner, None, Classification(Failed, Dependency, false))
  }

  /**
   Any lease can be outlived: others are at work at its end or later, nobody has claimed, and the
   worker's finish still settles the attempt; had it reported the time, it would be refused.
   */
  lemma OutlivedLeaseStillFinishes(claimed: Tables, r: ClaimRequest, lease: Lease, later: int)
    requires HandsOut(r, claimed, lease) && lease.until <= later
    ensures var (u, f) := (ReconcileTables(claimed, later), FailedFinish(lease, r));
            && IsWorkerFinish(lease, r.now, r.owner, None, f)
            && FinishCheck(u, f) == Applied && FinishTables(u, f) != u
            && FinishCheck(u, f.(finishedAt := later)) == LeaseHasExpired
  {
    FailedFinishIsTheWorkers(lease, r);
    HandedOutIsHeld(r, claimed, lease);
    ReconcileSparesTheLease(claimed, later, lease.attempt, lease.chain);
    FailedFinishSettles(ReconcileTables(claimed, later), lease, r, later);
  }

  lemma FailedFinishIsTheWorkers(lease: Lease, r: ClaimRequest)
    ensures IsWorkerFinish(lease, r.now, r.owner, None, FailedFinish(lease, r))
  {
    var c := Classification(Failed, Dependency, false);
    assert FailedFinish(lease, r) == WorkerFinish(lease, r.now, r.owner, None, c);
  }

  lemma ReconcileSparesTheLease(t: Tables, now: int, a: AttemptId, c: Chain)
    requires Inv(t) && Holds(t, a, c)
    ensures Inv(ReconcileTables(t, now)) && Holds(ReconcileTables(t, now), a, c)
  {
    ReconcileKeeps(t, now);
    ReconcileSparesHolders(t, now, a, c);
  }

  lemma FailedFinishSettles(t: Tables, lease: Lease, r: ClaimRequest, later: int)
    requires Inv(t) && Holds(t, lease.attempt, lease.chain) && LeasedFor(lease.chain, r) && 30 <= r.leaseSeconds
    requires lease.chain.leaseUntil.value <= later
    ensures var f := FailedFinish(lease, r);
            && FinishCheck(t, f) == Applied && FinishTables(t, f) != t
            && FinishCheck(t, f.(finishedAt := later)) == LeaseHasExpired
  {
    FailedFinishIsTheWorkers(lease, r);
    WorkersAreHolders(lease, r, None, FailedFinish(lease, r));
    FinishAppliesExactlyUnderLease(t, FailedFinish(lease, r));
    LateReportIsRefused(t, FailedFinish(lease, r), later);
  }

  lemma LateReportIsRefused(t: Tables, f: FinishRequest, now: int)
    requires Inv(t) && FinishCheck(t, f) == Applied && t.chains[f.attempt.chain].leaseUntil.Some?
    requires t.chains[f.attempt.chain].leaseUntil.value <= now
    ensures FinishCheck(t, f.(finishedAt := now)) == LeaseHasExpired
    ensures FinishTables(t, f) != t
  {
    assert FinishTables(t, f).attempts[f.attempt].state != AttemptRunning;
  }

  const CHAIN := ChainId("cohort", Window("window"))
  const TIMED_OUT := CreateRequest(
    CHAIN, {"a"}, Decision(RetryTransport, TransportRetryable, TRANSPORT_DELAYS, true), TimedOut, Timeout, 0, 14400)
  const CLAIM := ClaimRequest("worker", 300, 30, Filters(None, None))

  /** There is such a lease: a timed-out source, claimed when its first delay is over, for 30 seconds. */
  lemma SomeLeaseIsHandedOut() returns (claimed: Tables, lease: Lease)
    ensures HandsOut(CLAIM, claimed, lease) && Reachable(claimed)
    ensures lease.attempt == AttemptId(CHAIN, 1) && lease.until == 330 && lease.sources == {"a"}
  {
    var t := Step(EMPTY_TABLES, Create(TIMED_OUT));
    assert EMPTY_TABLES == Run(EMPTY_TABLES, []);
    StepStaysReachable(EMPTY_TABLES, Create(TIMED_OUT));
    StepStaysReachable(t, Claim(CLAIM, Some(CHAIN)));
    TimedOutIsPicked();
    claimed := ClaimTables(t, CLAIM, Some(CHAIN));
    lease := LeaseOf(claimed, CLAIM, CHAIN);
  }

  lemma TimedOutIsPicked()
    ensures var t := Step(EMPTY_TABLES, Create(TIMED_OUT));
            && Inv(t) && MayPick(t, CLAIM, Some(CHAIN))
            && ClaimTables(t, CLAIM, Some(CHAIN)).chains[CHAIN].attemptIndex == 1
            && SourcesOf(ClaimTables(t, CLAIM, Some(CHAIN)), CHAIN) == {"a"}
  {
    var t := Step(EMPTY_TABLES, Create(TIMED_OUT));
    assert t.chains == map[CHAIN := NewChain(TIMED_OUT)];
    StepKeeps(EMPTY_TABLES, Create(TIMED_OUT));
    SweepIsPointwise(t, CLAIM.now, CHAIN);
  }
}
