/**
 Who may still change a chain: only the worker that holds its unexpired lease, and only once
 per attempt. An attempt that has lost its lease has lost it for every later run.
 */
module ConvergenceFencing {
  import opened Options
  import opened RecoveryPolicy
  import opened ConvergenceTables
  import opened ConvergenceInvariant

  lemma AtMostOneAttemptRuns(es: seq<Event>, a: AttemptId, b: AttemptId)
    ensures var t := Run(EMPTY_TABLES, es);
            a in t.attempts && b in t.attempts && a.chain == b.chain
            && t.attempts[a].state == AttemptRunning && t.attempts[b].state == AttemptRunning
            ==> a == b
  {
    RunKeeps(EMPTY_TABLES, es);
    var t := Run(EMPTY_TABLES, es);
    if a in t.attempts && b in t.attempts {
      assert a == AttemptId(a.chain, a.number) && b == AttemptId(b.chain, b.number);
    }
  }

  /** Does the attempt hold its chain's lease? */
  predicate Leased(t: Tables, a: AttemptId) {
    a.chain in t.chains && t.chains[a.chain].state == Running && a.number == t.chains[a.chain].attemptIndex
  }

  /**
   A finish is accepted exactly when its attempt holds the lease, under the same worker and
   before the lease ends, and it spends and completes only what it may: the row joins and the
   stored attempt state decide nothing beyond that.
   */
  lemma FinishAppliesExactlyUnderLease(t: Tables, r: FinishRequest)
    requires Inv(t)
    ensures FinishCheck(t, r) == Applied <==>
            && Leased(t, r.attempt)
            && t.chains[r.attempt.chain].leaseOwner == Some(r.owner)
            && r.finishedAt < t.chains[r.attempt.chain].leaseUntil.value
            && 0 <= r.paidRequests && 0 <= r.paidCost
            && (r.paidRequests == 0 || t.chains[r.attempt.chain].paidFetchAllowed)
            && (r.decision.action == Complete ==> r.succeeded)
    ensures FinishCheck(t, r) != Applied ==> FinishTables(t, r) == t
  {
    if r.attempt.chain in t.chains {
      var c := t.chains[r.attempt.chain];
      assert ChainInv(c, r.attempt.chain, t.attempts);
      assert r.attempt == AttemptId(r.attempt.chain, r.attempt.number);
    }
  }

  // ----- a lost lease stays lost ---------------------------------------------------

  ghost predicate Lost(t: Tables, a: AttemptId) {
    a.chain in t.chains && a.number <= t.chains[a.chain].attemptIndex && !Leased(t, a)
  }

  lemma ClaimNeverReturnsALease(t: Tables, r: ClaimRequest, picked: Option<ChainId>, a: AttemptId)
    requires MayPick(t, r, picked) && Lost(t, a)
    ensures Lost(ClaimTables(t, r, picked), a)
  {
    SweepIsPointwise(t, r.now, a.chain);
  }

  lemma FinishNeverReturnsALease(t: Tables, r: FinishRequest, a: AttemptId)
    requires Lost(t, a)
    ensures Lost(FinishTables(t, r), a)
  {
  }

  lemma StepNeverReturnsALease(t: Tables, e: Event, a: AttemptId)
    requires Lost(t, a)
    ensures Lost(Step(t, e), a)
  {
    match e
    case Create(r) =>
    case Claim(r, picked) => if MayPick(t, r, picked) { ClaimNeverReturnsALease(t, r, picked, a); }
    case Finish(r) => FinishNeverReturnsALease(t, r, a);
    case Reconcile(now) =>
    case Record(row) =>
    case Advance(to) =>
  }

  lemma ClaimLeavesSettledRows(t: Tables, r: ClaimRequest, picked: Option<ChainId>, a: AttemptId)
    requires Inv(t) && MayPick(t, r, picked) && a in t.attempts && t.attempts[a].state != AttemptRunning
    ensures a in ClaimTables(t, r, picked).attempts && ClaimTables(t, r, picked).attempts[a] == t.attempts[a]
  {
    var swept := SweepTables(t, r.now);
    assert a in swept.attempts && swept.attempts[a] == t.attempts[a];
    if picked.Some? {
      SweepKeeps(t, r.now);
      LeaseKeeps(swept, picked.value, r);
    }
  }

  /** A settled attempt row is never written again. */
  lemma StepLeavesSettledRows(t: Tables, e: Event, a: AttemptId)
    requires Inv(t) && a in t.attempts && t.attempts[a].state != AttemptRunning
    ensures a in Step(t, e).attempts && Step(t, e).attempts[a] == t.attempts[a]
  {
    match e
    case Create(r) =>
    case Claim(r, picked) => if MayPick(t, r, picked) { ClaimLeavesSettledRows(t, r, picked, a); }
    case Finish(r) =>
    case Reconcile(now) =>
    case Record(row) =>
    case Advance(to) =>
  }

  lemma {:induction false} LostForever(t: Tables, es: seq<Event>, a: AttemptId)
    requires Inv(t) && Lost(t, a)
    ensures Lost(Run(t, es), a) && Inv(Run(t, es))
    decreases |es|
  {
    if es != [] {
      StepKeeps(t, es[0]);
      StepNeverReturnsALease(t, es[0], a);
      LostForever(Step(t, es[0]), es[1..], a);
    }
  }

  lemma {:induction false} SettledForever(t: Tables, es: seq<Event>, a: AttemptId)
    requires Inv(t) && a in t.attempts && t.attempts[a].state != AttemptRunning
    ensures a in Run(t, es).attempts && Run(t, es).attempts[a] == t.attempts[a]
    decreases |es|
  {
    if es != [] {
      StepKeeps(t, es[0]);
      StepLeavesSettledRows(t, es[0], a);
      SettledForever(Step(t, es[0]), es[1..], a);
    }
  }

  /**
   Fencing: once a lease expired and was reaped, was exhausted, closed or settled, then after
   any further run no finish for that attempt changes anything, whoever sends it.
   */
  lemma LostAttemptsAreFenced(t: Tables, es: seq<Event>, r: FinishRequest)
    requires Inv(t) && Lost(t, r.attempt)
    ensures FinishTables(Run(t, es), r) == Run(t, es)
  {
    LostForever(t, es, r.attempt);
    FinishAppliesExactlyUnderLease(Run(t, es), r);
  }

  /** A claim at or after the end of a lease takes that lease back, whatever it selects. */
  lemma ExpiredLeaseIsLost(t: Tables, r: ClaimRequest, picked: Option<ChainId>, a: AttemptId)
    requires Inv(t) && MayPick(t, r, picked)
    requires Leased(t, a) && t.chains[a.chain].leaseUntil.value <= r.now
    ensures var u := ClaimTables(t, r, picked);
            && Lost(u, a)
            && a in u.attempts && u.attempts[a].state == AttemptFailed && u.attempts[a].reason == Some(LeaseExpired)
  {
    var swept := SweepTables(t, r.now);
    SweepFailsExpired(t, r.now, a);
    if picked.Some? {
      SweepKeeps(t, r.now);
      LeaseSparesLost(swept, picked.value, r, a);
    }
  }

  lemma LeaseSparesLost(t: Tables, id: ChainId, r: ClaimRequest, a: AttemptId)
    requires Lost(t, a) && id in t.chains && a in t.attempts
    ensures Lost(LeaseTables(t, id, r), a) && LeaseTables(t, id, r).attempts[a] == t.attempts[a]
  {
  }

  lemma SweepFailsExpired(t: Tables, now: int, a: AttemptId)
    requires Inv(t) && Leased(t, a) && LeaseOver(t.chains[a.chain], now)
    ensures var u := SweepTables(t, now);
            && a in u.attempts && u.attempts[a].state == AttemptFailed && u.attempts[a].reason == Some(LeaseExpired)
            && Lost(u, a)
  {
    assert ChainInv(t.chains[a.chain], a.chain, t.attempts);
    assert a == AttemptId(a.chain, a.number);
    assert a.chain in ExpiredLeases(t, now);
    SweepIsPointwise(t, now, a.chain);
  }

  /** Replaying an accepted finish, with any arguments and after any run, changes nothing. */
  lemma ReplayChangesNothing(t: Tables, r: FinishRequest, es: seq<Event>, again: FinishRequest)
    requires Inv(t) && FinishCheck(t, r) == Applied && again.attempt == r.attempt
    ensures FinishTables(Run(FinishTables(t, r), es), again) == Run(FinishTables(t, r), es)
    ensures again.owner == r.owner && 0 <= again.paidRequests && 0 <= again.paidCost ==>
              FinishCheck(Run(FinishTables(t, r), es), again) == Replayed
  {
    FinishAppliesExactlyUnderLease(t, r);
    FinishKeeps(t, r);
    var u := FinishTables(t, r);
    LostAttemptsAreFenced(u, es, again);
    LostForever(u, es, r.attempt);
    SettledForever(u, es, r.attempt);
  }

  // ----- paid usage is conserved ---------------------------------------------------

  datatype Usage = Usage(requests: int, cost: int)

  /** What the attempts 1..n of a chain were recorded to have spent. */
  function Spent(attempts: map<AttemptId, Attempt>, id: ChainId, n: nat): Usage
    requires forall k :: 1 <= k <= n ==> AttemptId(id, k) in attempts
  {
    if n == 0 then Usage(0, 0)
    else
      var rest, a := Spent(attempts, id, n - 1), attempts[AttemptId(id, n)];
      Usage(rest.requests + a.paidRequests, rest.cost + a.paidCost)
  }

  lemma {:induction false} SpentFrame(
      before: map<AttemptId, Attempt>, after: map<AttemptId, Attempt>, id: ChainId, n: nat)
    requires forall k :: 1 <= k <= n ==> AttemptId(id, k) in before && AttemptId(id, k) in after
    requires forall k :: 1 <= k <= n ==>
               && before[AttemptId(id, k)].paidRequests == after[AttemptId(id, k)].paidRequests
               && before[AttemptId(id, k)].paidCost == after[AttemptId(id, k)].paidCost
    ensures Spent(before, id, n) == Spent(after, id, n)
  {
    if n > 0 { SpentFrame(before, after, id, n - 1); }
  }

  /** The totals of a chain are the sums over its attempts; an attempt still running has spent nothing. */
  ghost predicate ChainBalanced(c: Chain, id: ChainId, attempts: map<AttemptId, Attempt>) {
    && 0 <= c.attemptIndex
    && (forall k :: 1 <= k <= c.attemptIndex ==> AttemptId(id, k) in attempts)
    && Spent(attempts, id, c.attemptIndex) == Usage(c.paidRequests, c.paidCost)
    && forall k :: 1 <= k <= c.attemptIndex && attempts[AttemptId(id, k)].state == AttemptRunning ==>
         attempts[AttemptId(id, k)].paidRequests == 0 && attempts[AttemptId(id, k)].paidCost == 0
  }

  ghost predicate Balanced(t: Tables) {
    forall id :: id in t.chains ==> ChainBalanced(t.chains[id], id, t.attempts)
  }

  lemma BalanceFrame(c: Chain, d: Chain, id: ChainId, before: map<AttemptId, Attempt>, after: map<AttemptId, Attempt>)
    requires ChainBalanced(c, id, before)
    requires d.attemptIndex == c.attemptIndex && d.paidRequests == c.paidRequests && d.paidCost == c.paidCost
    requires forall k :: 1 <= k <= c.attemptIndex ==>
               && AttemptId(id, k) in after
               && (after[AttemptId(id, k)].state == AttemptRunning ==> before[AttemptId(id, k)].state == AttemptRunning)
               && before[AttemptId(id, k)].paidRequests == after[AttemptId(id, k)].paidRequests
               && before[AttemptId(id, k)].paidCost == after[AttemptId(id, k)].paidCost
    ensures ChainBalanced(d, id, after)
  {
    SpentFrame(before, after, id, c.attemptIndex);
  }

  lemma SweepBalanced(t: Tables, now: int)
    requires Balanced(t)
    ensures Balanced(SweepTables(t, now))
  {
    var u := SweepTables(t, now);
    forall id | id in u.chains ensures ChainBalanced(u.chains[id], id, u.attempts) {
      BalanceFrame(t.chains[id], u.chains[id], id, t.attempts, u.attempts);
    }
  }

  lemma LeasedChainBalanced(
      c: Chain, d: Chain, id: ChainId, before: map<AttemptId, Attempt>, after: map<AttemptId, Attempt>)
    requires ChainBalanced(c, id, before)
    requires d.attemptIndex == c.attemptIndex + 1 && d.paidRequests == c.paidRequests && d.paidCost == c.paidCost
    requires forall k :: 1 <= k <= c.attemptIndex ==>
               AttemptId(id, k) in after && after[AttemptId(id, k)] == before[AttemptId(id, k)]
    requires AttemptId(id, d.attemptIndex) in after
    requires after[AttemptId(id, d.attemptIndex)].paidRequests == 0
             && after[AttemptId(id, d.attemptIndex)].paidCost == 0
    ensures ChainBalanced(d, id, after)
  {
    SpentFrame(before, after, id, c.attemptIndex);
  }

  lemma LeaseBalanced(t: Tables, id: ChainId, r: ClaimRequest)
    requires Inv(t) && Balanced(t) && Claimable(t, id, r.now, r.filters)
    ensures Balanced(LeaseTables(t, id, r))
  {
    var u := LeaseTables(t, id, r);
    forall other | other in u.chains ensures ChainBalanced(u.chains[other], other, u.attempts) {
      if other == id {
        LeasedChainBalanced(t.chains[id], u.chains[id], id, t.attempts, u.attempts);
      } else {
        BalanceFrame(t.chains[other], u.chains[other], other, t.attempts, u.attempts);
      }
    }
  }

  lemma FinishedChainBalanced(
      c: Chain, d: Chain, id: ChainId, before: map<AttemptId, Attempt>, after: map<AttemptId, Attempt>,
      r: FinishRequest)
    requires ChainBalanced(c, id, before) && 1 <= c.attemptIndex == d.attemptIndex
    requires before[AttemptId(id, c.attemptIndex)].state == AttemptRunning
    requires after == before[AttemptId(id, c.attemptIndex) := FinishedAttempt(before[AttemptId(id, c.attemptIndex)], r)]
    requires d.paidRequests == c.paidRequests + r.paidRequests && d.paidCost == c.paidCost + r.paidCost
    ensures ChainBalanced(d, id, after)
  {
    SpentFrame(before, after, id, c.attemptIndex - 1);
  }

  lemma FinishBalanced(t: Tables, r: FinishRequest)
    requires Inv(t) && Balanced(t)
    ensures Balanced(FinishTables(t, r))
  {
    if FinishCheck(t, r) == Applied {
      var u, id := FinishTables(t, r), r.attempt.chain;
      FinishAppliesExactlyUnderLease(t, r);
      assert ChainInv(t.chains[id], id, t.attempts);
      assert r.attempt == AttemptId(id, t.chains[id].attemptIndex);
      FinishedChainBalanced(t.chains[id], u.chains[id], id, t.attempts, u.attempts, r);
      forall other | other in u.chains && other != id ensures ChainBalanced(u.chains[other], other, u.attempts) {
        BalanceFrame(t.chains[other], u.chains[other], other, t.attempts, u.attempts);
      }
    }
  }

  lemma CreateBalanced(t: Tables, r: CreateRequest)
    requires Balanced(t)
    ensures Balanced(CreateTables(t, r))
  {
    var u := CreateTables(t, r);
    assert forall id :: id in u.chains && !(id in t.chains) ==> u.chains[id] == NewChain(r);
  }

  lemma ReconcileBalanced(t: Tables, now: int)
    requires Balanced(t)
    ensures Balanced(ReconcileTables(t, now))
  {
    var u := ReconcileTables(t, now);
    forall id | id in u.chains ensures ChainBalanced(u.chains[id], id, u.attempts) {
      BalanceFrame(t.chains[id], u.chains[id], id, t.attempts, u.attempts);
    }
  }

  lemma StepBalanced(t: Tables, e: Event)
    requires Inv(t) && Balanced(t)
    ensures Balanced(Step(t, e))
  {
    match e
    case Create(r) => if CreateAllowed(r) { CreateBalanced(t, r); }
    case Claim(r, picked) =>
      SweepBalanced(t, r.now);
      SweepKeeps(t, r.now);
      if MayPick(t, r, picked) && picked.Some? { LeaseBalanced(SweepTables(t, r.now), picked.value, r); }
    case Finish(r) => FinishBalanced(t, r);
    case Reconcile(now) => ReconcileBalanced(t, now);
    case Record(row) =>
    case Advance(to) =>
  }

  /** In every reachable state each chain's paid totals are the sums over its attempts. */
  lemma {:induction false} RunsConservePaidUsage(t: Tables, es: seq<Event>)
    requires Inv(t) && Balanced(t)
    ensures Inv(Run(t, es)) && Balanced(Run(t, es))
    decreases |es|
  {
    if es != [] {
      StepKeeps(t, es[0]);
      StepBalanced(t, es[0]);
      RunsConservePaidUsage(Step(t, es[0]), es[1..]);
    }
  }
}
