/**
 The retry budget: when every decision comes from the recovery policy, no chain tries an
 action more often than the policy allows, plus the tries that a dead worker used up, however
 the outcomes switch between actions. Paid requests stay on transport retries.
 */
module ConvergenceBudget {
  import opened Options
  import opened RecoveryPolicy
  import opened ConvergenceTables
  import opened ConvergenceInvariant
  import opened ConvergenceFencing

  ghost predicate PolicyEvent(e: Event) {
    && (e.Create? ==> IsPolicyDecision(e.create.decision))
    && (e.Finish? ==> IsPolicyDecision(e.finish.decision))
  }

  /** Reaping is the only way an attempt fails without an outcome. */
  predicate ExpiredAttempt(a: Attempt) {
    a.state == AttemptFailed && a.outcome.None?
  }

  /** How many of the attempts 1..n of a chain were for the action. */
  function Made(attempts: map<AttemptId, Attempt>, id: ChainId, n: int, action: Action): nat {
    if n <= 0 || AttemptId(id, n) !in attempts then 0
    else Made(attempts, id, n - 1, action) + if attempts[AttemptId(id, n)].action == action then 1 else 0
  }

  /** How many of those lost their lease instead of reporting. */
  function MadeExpired(attempts: map<AttemptId, Attempt>, id: ChainId, n: int, action: Action): nat {
    if n <= 0 || AttemptId(id, n) !in attempts then 0
    else
      var a := attempts[AttemptId(id, n)];
      MadeExpired(attempts, id, n - 1, action) + if a.action == action && ExpiredAttempt(a) then 1 else 0
  }

  // ----- counting rows -------------------------------------------------------------

  function RowsUpTo(attempts: map<AttemptId, Attempt>, id: ChainId, n: int, action: Action): set<AttemptId> {
    set a | a in attempts && a.chain == id && a.number <= n && attempts[a].action == action
  }

  lemma RowsUpToGrow(attempts: map<AttemptId, Attempt>, id: ChainId, n: int, action: Action)
    requires AttemptId(id, n) in attempts
    ensures |RowsUpTo(attempts, id, n, action)| ==
            |RowsUpTo(attempts, id, n - 1, action)| + if attempts[AttemptId(id, n)].action == action then 1 else 0
  {
    var last, less := AttemptId(id, n), RowsUpTo(attempts, id, n - 1, action);
    var added := if attempts[last].action == action then {last} else {};
    forall a | a in RowsUpTo(attempts, id, n, action) ensures a in less + added {
      if a.number == n { assert a == last; }
    }
    assert RowsUpTo(attempts, id, n, action) == less + added;
  }

  lemma RowsStartAtOne(c: Chain, id: ChainId, attempts: map<AttemptId, Attempt>, n: int, action: Action)
    requires NumbersContiguous(c, id, attempts)
    ensures forall a :: a in RowsUpTo(attempts, id, n, action) ==> 1 <= a.number
  {
    forall a | a in RowsUpTo(attempts, id, n, action) ensures 1 <= a.number {
      assert a == AttemptId(id, a.number);
    }
  }

  lemma {:induction false} RowsUpToAreMade(
      c: Chain, id: ChainId, attempts: map<AttemptId, Attempt>, n: nat, action: Action)
    requires NumbersContiguous(c, id, attempts) && n <= c.attemptIndex
    ensures |RowsUpTo(attempts, id, n, action)| == Made(attempts, id, n, action)
  {
    if n == 0 {
      RowsStartAtOne(c, id, attempts, n, action);
      assert RowsUpTo(attempts, id, n, action) == {};
    } else {
      assert AttemptId(id, n) in attempts;
      RowsUpToGrow(attempts, id, n, action);
      RowsUpToAreMade(c, id, attempts, n - 1, action);
    }
  }

  /** What the SQL count sees is the number of the chain's attempts for the action. */
  lemma RowsForAreMade(t: Tables, id: ChainId, action: Action)
    requires Inv(t) && id in t.chains
    ensures |RowsFor(t, id, action)| == Made(t.attempts, id, t.chains[id].attemptIndex, action)
  {
    var n := t.chains[id].attemptIndex;
    assert ChainInv(t.chains[id], id, t.attempts);
    RowsUpToAreMade(t.chains[id], id, t.attempts, n, action);
    forall a | a in RowsFor(t, id, action) ensures a in RowsUpTo(t.attempts, id, n, action) {
      assert a == AttemptId(id, a.number);
    }
    assert RowsFor(t, id, action) == RowsUpTo(t.attempts, id, n, action);
  }

  lemma {:induction false} CountsFrame(
      before: map<AttemptId, Attempt>, after: map<AttemptId, Attempt>, id: ChainId, n: int, action: Action)
    requires forall k :: 1 <= k <= n ==> AttemptId(id, k) in before && AttemptId(id, k) in after
    requires forall k :: 1 <= k <= n ==> before[AttemptId(id, k)].action == after[AttemptId(id, k)].action
    requires forall k :: 1 <= k <= n ==>
               (ExpiredAttempt(before[AttemptId(id, k)]) <==> ExpiredAttempt(after[AttemptId(id, k)]))
    ensures Made(before, id, n, action) == Made(after, id, n, action)
    ensures MadeExpired(before, id, n, action) == MadeExpired(after, id, n, action)
    decreases n
  {
    if n > 0 { CountsFrame(before, after, id, n - 1, action); }
  }

  // ----- the budget of one chain ---------------------------------------------------

  ghost predicate WithinBudget(attempts: map<AttemptId, Attempt>, id: ChainId, n: int) {
    forall action: Action :: Made(attempts, id, n, action) <= Budget(action) + MadeExpired(attempts, id, n, action)
  }

  ghost predicate ChainBudget(c: Chain, id: ChainId, attempts: map<AttemptId, Attempt>) {
    && (c.paidFetchAllowed <==> c.action == RetryTransport)
    && WithinBudget(attempts, id, c.attemptIndex)
    && (c.nextAttemptAt.Some? ==>
          Made(attempts, id, c.attemptIndex, c.action) < Budget(c.action)
              + MadeExpired(attempts, id, c.attemptIndex, c.action))
    && (forall n :: AttemptId(id, n) in attempts && attempts[AttemptId(id, n)].paidRequests != 0 ==>
          attempts[AttemptId(id, n)].action == RetryTransport)
  }

  ghost predicate Budgeted(t: Tables) {
    forall id :: id in t.chains ==> ChainBudget(t.chains[id], id, t.attempts)
  }

  /** A chain whose attempts keep their actions and stay unexpired keeps its counts. */
  lemma BudgetFrame(c: Chain, d: Chain, id: ChainId, before: map<AttemptId, Attempt>, after: map<AttemptId, Attempt>)
    requires ChainBudget(c, id, before) && NumbersContiguous(c, id, before) && NumbersContiguous(c, id, after)
    requires forall n :: AttemptId(id, n) in before ==>
               && before[AttemptId(id, n)].action == after[AttemptId(id, n)].action
               && (ExpiredAttempt(before[AttemptId(id, n)]) <==> ExpiredAttempt(after[AttemptId(id, n)]))
               && (after[AttemptId(id, n)].paidRequests != 0 ==>
                     before[AttemptId(id, n)].paidRequests != 0 || before[AttemptId(id, n)].action == RetryTransport)
    requires d.attemptIndex == c.attemptIndex
    requires d.paidFetchAllowed <==> d.action == RetryTransport
    requires d.nextAttemptAt.Some? ==>
               (c.nextAttemptAt.Some? && d.action == c.action) ||
               Made(before, id, c.attemptIndex, d.action) < Budget(d.action)
    ensures ChainBudget(d, id, after)
  {
    forall action: Action
      ensures Made(before, id, c.attemptIndex, action) == Made(after, id, c.attemptIndex, action)
      ensures MadeExpired(before, id, c.attemptIndex, action) == MadeExpired(after, id, c.attemptIndex, action)
    {
      CountsFrame(before, after, id, c.attemptIndex, action);
    }
  }

  // ----- every transaction stays within it -----------------------------------------

  lemma CreateBudgeted(t: Tables, r: CreateRequest)
    requires Inv(t) && Budgeted(t) && CreateAllowed(r) && IsPolicyDecision(r.decision)
    ensures Budgeted(CreateTables(t, r))
  {
    var u := CreateTables(t, r);
    if r.id !in t.chains {
      assert forall n :: AttemptId(r.id, n) in t.attempts ==> AttemptId(r.id, n).chain in t.chains;
      assert ChainBudget(NewChain(r), r.id, u.attempts);
    }
    assert forall id :: id in u.chains && id !in t.chains ==> id == r.id;
  }

  /** Reaping frees the try that the dead worker took. */
  lemma ReapedChainBudget(
      c: Chain, id: ChainId, before: map<AttemptId, Attempt>, after: map<AttemptId, Attempt>, now: int)
    requires ChainInv(c, id, before) && ChainBudget(c, id, before) && c.state == Running
    requires forall n :: AttemptId(id, n) in before <==> AttemptId(id, n) in after
    requires forall n :: AttemptId(id, n) in before ==>
             after[AttemptId(id, n)] == ReapedAttempt(before[AttemptId(id, n)], now)
    requires forall n :: AttemptId(id, n) in before && before[AttemptId(id, n)].state == AttemptRunning ==>
               before[AttemptId(id, n)].outcome.None?
    ensures ChainBudget(ReapedChain(c, now), id, after)
  {
    var n := c.attemptIndex;
    forall action: Action
      ensures Made(after, id, n, action) == Made(before, id, n, action)
      ensures MadeExpired(after, id, n, action)
           == MadeExpired(before, id, n, action) + if action == c.action then 1 else 0
    {
      CountsFrame(before, after, id, n - 1, action);
    }
  }

  ghost predicate RunningHasNoOutcome(t: Tables) {
    forall a :: a in t.attempts && t.attempts[a].state == AttemptRunning ==> t.attempts[a].outcome.None?
  }

  lemma ReapBudgeted(t: Tables, now: int)
    requires Inv(t) && Budgeted(t) && RunningHasNoOutcome(t)
    ensures Budgeted(ReapTables(t, ExpiredLeases(t, now), now))
  {
    var u := ReapTables(t, ExpiredLeases(t, now), now);
    forall id | id in u.chains ensures ChainBudget(u.chains[id], id, u.attempts) {
      assert ChainInv(t.chains[id], id, t.attempts);
      if id in ExpiredLeases(t, now) {
        ReapedChainBudget(t.chains[id], id, t.attempts, u.attempts, now);
      } else {
        BudgetFrame(t.chains[id], u.chains[id], id, t.attempts, u.attempts);
      }
    }
  }

  lemma ExhaustBudgeted(t: Tables, now: int)
    requires Budgeted(t)
    ensures Budgeted(ExhaustTables(t, now))
  {
  }

  /** A claim uses one try of the chain's action. */
  lemma LeasedChainBudget(
      c: Chain, d: Chain, id: ChainId, before: map<AttemptId, Attempt>, after: map<AttemptId, Attempt>)
    requires ChainInv(c, id, before) && ChainBudget(c, id, before) && c.nextAttemptAt.Some?
    requires d.action == c.action && d.paidFetchAllowed == c.paidFetchAllowed && d.nextAttemptAt.None?
    requires d.attemptIndex == c.attemptIndex + 1
    requires forall n :: AttemptId(id, n) in before ==>
               AttemptId(id, n) in after && after[AttemptId(id, n)] == before[AttemptId(id, n)]
    requires forall n :: AttemptId(id, n) in after ==> AttemptId(id, n) in before || n == d.attemptIndex
    requires AttemptId(id, d.attemptIndex) in after
    requires var a := after[AttemptId(id, d.attemptIndex)];
             a.action == c.action && a.state == AttemptRunning && a.paidRequests == 0
    ensures ChainBudget(d, id, after)
  {
    forall action: Action
      ensures Made(after, id, d.attemptIndex, action) ==
              Made(before, id, c.attemptIndex, action) + if action == c.action then 1 else 0
      ensures MadeExpired(after, id, d.attemptIndex, action) == MadeExpired(before, id, c.attemptIndex, action)
    {
      CountsFrame(before, after, id, c.attemptIndex, action);
    }
  }

  lemma LeaseLeavesOtherBudgets(t: Tables, id: ChainId, r: ClaimRequest, other: ChainId)
    requires id in t.chains && other in t.chains && other != id
    requires ChainInv(t.chains[other], other, t.attempts) && ChainBudget(t.chains[other], other, t.attempts)
    ensures ChainBudget(LeaseTables(t, id, r).chains[other], other, LeaseTables(t, id, r).attempts)
  {
    BudgetFrame(t.chains[other], t.chains[other], other, t.attempts, LeaseTables(t, id, r).attempts);
  }

  lemma LeaseBudgeted(t: Tables, id: ChainId, r: ClaimRequest)
    requires Inv(t) && Budgeted(t) && Claimable(t, id, r.now, r.filters)
    ensures Budgeted(LeaseTables(t, id, r))
  {
    var u := LeaseTables(t, id, r);
    assert ChainInv(t.chains[id], id, t.attempts);
    LeasedChainBudget(t.chains[id], u.chains[id], id, t.attempts, u.attempts);
    forall other | other in u.chains && other != id ensures ChainBudget(u.chains[other], other, u.attempts) {
      assert ChainInv(t.chains[other], other, t.attempts);
      LeaseLeavesOtherBudgets(t, id, r, other);
    }
  }

  /** A finish leaves the other chains' rows and records alone. */
  lemma FinishLeavesOtherBudgets(t: Tables, r: FinishRequest, other: ChainId)
    requires Inv(t) && Budgeted(t) && FinishCheck(t, r) == Applied
    requires other in t.chains && other != r.attempt.chain
    ensures var u := FinishTables(t, r);
            other in u.chains && ChainBudget(u.chains[other], other, u.attempts)
  {
    assert ChainInv(t.chains[other], other, t.attempts);
    BudgetFrame(t.chains[other], t.chains[other], other, t.attempts, FinishTables(t, r).attempts);
  }

  /** The finished row keeps its action and is no expired one; it may carry paid requests only as a transport retry. */
  lemma FinishedRowCounts(t: Tables, r: FinishRequest)
    requires Inv(t) && Budgeted(t) && RunningHasNoOutcome(t) && FinishCheck(t, r) == Applied
    ensures var a, f := t.attempts[r.attempt], FinishedAttempt(t.attempts[r.attempt], r);
            && f.action == a.action && !ExpiredAttempt(a) && !ExpiredAttempt(f)
            && (f.paidRequests != 0 ==> a.action == RetryTransport)
  {
    FinishAppliesExactlyUnderLease(t, r);
    assert ChainInv(t.chains[r.attempt.chain], r.attempt.chain, t.attempts);
    assert r.attempt == AttemptId(r.attempt.chain, t.chains[r.attempt.chain].attemptIndex);
  }

  /** A retry is scheduled only while the action has attempts left. */
  lemma FinishedChainHasAttemptsLeft(t: Tables, r: FinishRequest)
    requires Inv(t) && IsPolicyDecision(r.decision) && FinishCheck(t, r) == Applied
    ensures var c, d := t.chains[r.attempt.chain], FinishTables(t, r).chains[r.attempt.chain];
            && d.attemptIndex == c.attemptIndex && (d.paidFetchAllowed <==> d.action == RetryTransport)
            && (d.nextAttemptAt.Some? ==>
                  Made(t.attempts, r.attempt.chain, c.attemptIndex, d.action) < Budget(d.action))
  {
    FinishAppliesExactlyUnderLease(t, r);
    RowsForAreMade(t, r.attempt.chain, r.decision.action);
  }

  lemma FinishKeepsOwnBudget(t: Tables, r: FinishRequest)
    requires Inv(t) && Budgeted(t) && IsPolicyDecision(r.decision) && RunningHasNoOutcome(t)
    requires FinishCheck(t, r) == Applied
    ensures var u, id := FinishTables(t, r), r.attempt.chain;
            id in u.chains && ChainBudget(u.chains[id], id, u.attempts)
  {
    var u, id := FinishTables(t, r), r.attempt.chain;
    FinishedRowCounts(t, r);
    FinishedChainHasAttemptsLeft(t, r);
    assert ChainInv(t.chains[id], id, t.attempts);
    BudgetFrame(t.chains[id], u.chains[id], id, t.attempts, u.attempts);
  }

  lemma FinishBudgeted(t: Tables, r: FinishRequest)
    requires Inv(t) && Budgeted(t) && IsPolicyDecision(r.decision) && RunningHasNoOutcome(t)
    ensures Budgeted(FinishTables(t, r))
  {
    if FinishCheck(t, r) == Applied {
      var u := FinishTables(t, r);
      FinishKeepsOwnBudget(t, r);
      forall other | other in u.chains && other != r.attempt.chain
        ensures ChainBudget(u.chains[other], other, u.attempts)
      {
        FinishLeavesOtherBudgets(t, r, other);
      }
    }
  }

  lemma ReconcileBudgeted(t: Tables, now: int)
    requires Budgeted(t)
    ensures Budgeted(ReconcileTables(t, now))
  {
  }

  lemma StepHidesRunningOutcomes(t: Tables, e: Event)
    requires RunningHasNoOutcome(t)
    ensures RunningHasNoOutcome(Step(t, e))
  {
    match e
    case Claim(r, picked) => assert RunningHasNoOutcome(SweepTables(t, r.now));
    case _ =>
  }

  ghost predicate BudgetInv(t: Tables) {
    Inv(t) && Budgeted(t) && RunningHasNoOutcome(t)
  }

  lemma ClaimBudgeted(t: Tables, r: ClaimRequest, picked: Option<ChainId>)
    requires BudgetInv(t) && MayPick(t, r, picked)
    ensures Budgeted(ClaimTables(t, r, picked))
  {
    ReapKeeps(t, r.now);
    ReapBudgeted(t, r.now);
    ExhaustBudgeted(ReapTables(t, ExpiredLeases(t, r.now), r.now), r.now);
    SweepKeeps(t, r.now);
    if picked.Some? { LeaseBudgeted(SweepTables(t, r.now), picked.value, r); }
  }

  lemma StepBudgeted(t: Tables, e: Event)
    requires BudgetInv(t) && PolicyEvent(e)
    ensures Budgeted(Step(t, e))
  {
    match e
    case Create(r) => if CreateAllowed(r) { CreateBudgeted(t, r); }
    case Claim(r, picked) => if MayPick(t, r, picked) { ClaimBudgeted(t, r, picked); }
    case Finish(r) => FinishBudgeted(t, r);
    case Reconcile(now) => ReconcileBudgeted(t, now);
    case Record(row) =>
    case Advance(to) =>
  }

  lemma {:induction false} RunBudgeted(t: Tables, es: seq<Event>)
    requires BudgetInv(t)
    requires forall i :: 0 <= i < |es| ==> PolicyEvent(es[i])
    ensures BudgetInv(Run(t, es))
    decreases |es|
  {
    if es != [] {
      StepKeeps(t, es[0]);
      StepBudgeted(t, es[0]);
      StepHidesRunningOutcomes(t, es[0]);
      RunBudgeted(Step(t, es[0]), es[1..]);
    }
  }

  // ----- the main results ----------------------------------------------------------

  /** In every run, no action of a chain is tried more often than its budget plus its expired leases. */
  lemma RetryBudgetHolds(es: seq<Event>, id: ChainId, action: Action)
    requires forall i :: 0 <= i < |es| ==> PolicyEvent(es[i])
    requires id in Run(EMPTY_TABLES, es).chains
    ensures var t := Run(EMPTY_TABLES, es);
            |RowsFor(t, id, action)| <=
            Budget(action) + MadeExpired(t.attempts, id, t.chains[id].attemptIndex, action)
  {
    RunBudgeted(EMPTY_TABLES, es);
    var t := Run(EMPTY_TABLES, es);
    assert ChainBudget(t.chains[id], id, t.attempts);
    RowsForAreMade(t, id, action);
  }

  function AllExpired(attempts: map<AttemptId, Attempt>, id: ChainId, n: int): nat {
    if n <= 0 || AttemptId(id, n) !in attempts then 0
    else AllExpired(attempts, id, n - 1) + if ExpiredAttempt(attempts[AttemptId(id, n)]) then 1 else 0
  }

  function AllMade(attempts: map<AttemptId, Attempt>, id: ChainId, n: int): nat {
    Made(attempts, id, n, Complete) + Made(attempts, id, n, ProbeUpstream) + Made(attempts, id, n, RetryTransport)
    + Made(attempts, id, n, RetryCandidate) + Made(attempts, id, n, RetryPublication)
    + Made(attempts, id, n, RetryScheduler) + Made(attempts, id, n, RetryLocal)
    + Made(attempts, id, n, PauseProvider) + Made(attempts, id, n, Quarantine) + Made(attempts, id, n, Diagnose)
  }

  function AllMadeExpired(attempts: map<AttemptId, Attempt>, id: ChainId, n: int): nat {
    MadeExpired(attempts, id, n, Complete) + MadeExpired(attempts, id, n, ProbeUpstream)
    + MadeExpired(attempts, id, n, RetryTransport) + MadeExpired(attempts, id, n, RetryCandidate)
    + MadeExpired(attempts, id, n, RetryPublication) + MadeExpired(attempts, id, n, RetryScheduler)
    + MadeExpired(attempts, id, n, RetryLocal) + MadeExpired(attempts, id, n, PauseProvider)
    + MadeExpired(attempts, id, n, Quarantine) + MadeExpired(attempts, id, n, Diagnose)
  }

  lemma OneMoreMade(attempts: map<AttemptId, Attempt>, id: ChainId, n: nat)
    requires n > 0 && AttemptId(id, n) in attempts
    ensures AllMade(attempts, id, n) == AllMade(attempts, id, n - 1) + 1
  {
  }

  lemma OneMoreMadeExpired(attempts: map<AttemptId, Attempt>, id: ChainId, n: nat)
    requires n > 0 && AttemptId(id, n) in attempts
    ensures AllMadeExpired(attempts, id, n)
         == AllMadeExpired(attempts, id, n - 1) + if ExpiredAttempt(attempts[AttemptId(id, n)]) then 1 else 0
  {
  }

  lemma {:induction false} EveryAttemptHasOneAction(attempts: map<AttemptId, Attempt>, id: ChainId, n: nat)
    requires forall k :: 1 <= k <= n ==> AttemptId(id, k) in attempts
    ensures AllMade(attempts, id, n) == n
  {
    if n > 0 {
      EveryAttemptHasOneAction(attempts, id, n - 1);
      OneMoreMade(attempts, id, n);
    }
  }

  lemma {:induction false} EveryExpiredAttemptHasOneAction(attempts: map<AttemptId, Attempt>, id: ChainId, n: nat)
    requires forall k :: 1 <= k <= n ==> AttemptId(id, k) in attempts
    ensures AllMadeExpired(attempts, id, n) == AllExpired(attempts, id, n)
  {
    if n > 0 {
      EveryExpiredAttemptHasOneAction(attempts, id, n - 1);
      OneMoreMadeExpired(attempts, id, n);
    }
  }

  lemma BudgetsAddUp(attempts: map<AttemptId, Attempt>, id: ChainId, n: nat)
    requires forall k :: 1 <= k <= n ==> AttemptId(id, k) in attempts
    requires WithinBudget(attempts, id, n)
    ensures n <= 22 + AllExpired(attempts, id, n)
  {
    EveryAttemptHasOneAction(attempts, id, n);
    EveryExpiredAttemptHasOneAction(attempts, id, n);
  }

  /**
   However outcomes switch actions, a chain makes at most 22 attempts beyond those whose lease
   expired; without an expired lease, at most 22 in total.
   */
  lemma TotalAttemptsAreBounded(es: seq<Event>, id: ChainId)
    requires forall i :: 0 <= i < |es| ==> PolicyEvent(es[i])
    requires id in Run(EMPTY_TABLES, es).chains
    ensures var t := Run(EMPTY_TABLES, es);
            t.chains[id].attemptIndex <= 22 + AllExpired(t.attempts, id, t.chains[id].attemptIndex)
  {
    RunBudgeted(EMPTY_TABLES, es);
    var t := Run(EMPTY_TABLES, es);
    var n := t.chains[id].attemptIndex;
    assert ChainInv(t.chains[id], id, t.attempts) && ChainBudget(t.chains[id], id, t.attempts);
    BudgetsAddUp(t.attempts, id, n);
  }

  /** In every run, an attempt that carries paid requests was a transport retry. */
  lemma OnlyTransportRetriesPay(es: seq<Event>, a: AttemptId)
    requires forall i :: 0 <= i < |es| ==> PolicyEvent(es[i])
    requires a in Run(EMPTY_TABLES, es).attempts && Run(EMPTY_TABLES, es).attempts[a].paidRequests != 0
    ensures Run(EMPTY_TABLES, es).attempts[a].action == RetryTransport
  {
    RunBudgeted(EMPTY_TABLES, es);
    var t := Run(EMPTY_TABLES, es);
    assert ChainBudget(t.chains[a.chain], a.chain, t.attempts);
    assert a == AttemptId(a.chain, a.number);
  }

  /**
   The gate looks at requests, not at cost: a finish that reports cost without requests is
   accepted on a chain that may not spend. An accepted finish leaves cost on an attempt that
   was no transport retry exactly when it reports cost, reports no requests, and the chain may
   not spend.
   */
  lemma CostWithoutRequestsPassesTheGate(t: Tables, r: FinishRequest)
    requires BudgetInv(t) && FinishCheck(t, r) == Applied
    ensures FinishTables(t, r).attempts[r.attempt].paidCost != 0
            && FinishTables(t, r).attempts[r.attempt].action != RetryTransport
            <==> r.paidCost != 0 && r.paidRequests == 0 && !t.chains[r.attempt.chain].paidFetchAllowed
  {
    FinishAppliesExactlyUnderLease(t, r);
    assert ChainInv(t.chains[r.attempt.chain], r.attempt.chain, t.attempts);
    assert ChainBudget(t.chains[r.attempt.chain], r.attempt.chain, t.attempts);
  }

  /** Such a finish exists for every leased attempt of a free action. */
  lemma FreeAttemptCanCarryCost(t: Tables, a: AttemptId, now: int) returns (r: FinishRequest)
    requires BudgetInv(t) && Leased(t, a) && now < t.chains[a.chain].leaseUntil.value
    requires t.chains[a.chain].action != RetryTransport
    ensures r.paidCost == 1 && r.attempt == a
    ensures FinishTables(t, r).chains[a.chain].paidCost == t.chains[a.chain].paidCost + 1
  {
    assert ChainInv(t.chains[a.chain], a.chain, t.attempts);
    assert a == AttemptId(a.chain, a.number);
    r := FinishRequest(a, t.attempts[a].worker, Failed, Dependency, DecideRecovery(Failed, Dependency, false),
      now, false, None, 0, 1);
    FinishAppliesExactlyUnderLease(t, r);
  }
}
