/**
 The durable tables of the freshness convergence engine (`app/convergence_store.py`) and
 what each of its transactions does to them.

 A transaction is one function from tables to tables. Digests are modelled by what they
 digest: a chain id is its cohort and origin, an attempt id its chain and number. The
 order of SQLite among chains due at the same instant is left open.
 */
module ConvergenceTables {
  import opened Options
  import opened RecoveryPolicy

  type Source = string
  type Worker = string

  /** A chain starts from a schedule window's occurrence, or from one attempt that had no window. */
  datatype Origin = Window(occurrence: string) | OfAttempt(attempt: nat)

  datatype ChainId = ChainId(cohort: string, origin: Origin)
  datatype AttemptId = AttemptId(chain: ChainId, number: int)

  datatype ChainState =
    | Waiting | Running | Fresh | UpstreamPending | Paused | Quarantined
    | DiagnosisRequired | Exhausted | Cancelled

  datatype AttemptState = AttemptRunning | AttemptSucceeded | AttemptFailed

  datatype Chain = Chain(
    action: Action,
    reasonClass: ReasonClass,
    state: ChainState,
    delays: seq<int>,
    paidFetchAllowed: bool,
    paidRequests: int,
    paidCost: int,
    attemptIndex: int,
    nextAttemptAt: Option<int>,
    deadlineAt: int,
    lastOutcome: Outcome,
    lastReason: Reason,
    leaseOwner: Option<Worker>,
    leaseUntil: Option<int>,
    createdAt: int,
    updatedAt: int)

  datatype Attempt = Attempt(
    action: Action,
    state: AttemptState,
    worker: Worker,
    parserRun: Option<string>,
    outcome: Option<Outcome>,
    reason: Option<Reason>,
    paidRequests: int,
    paidCost: int,
    startedAt: int,
    finishedAt: Option<int>)

  /**
   A terminal outcome of a primary refresh, as reliability telemetry records it. Attempt ids are
   numbered in the order of their text, the empty text being 0.
   */
  datatype PrimaryRow = PrimaryRow(
    id: nat,
    window: string,
    source: Source,
    finishedAt: int,
    outcome: Outcome,
    reason: Reason,
    upstreamPending: bool)

  datatype Cursor = Cursor(finishedAt: int, id: nat)

  datatype Tables = Tables(
    chains: map<ChainId, Chain>,
    sources: map<ChainId, set<Source>>,
    attempts: map<AttemptId, Attempt>,
    telemetry: seq<PrimaryRow>,
    cursor: Option<Cursor>)

  const EMPTY_TABLES := Tables(map[], map[], map[], [], None)

  function SourcesOf(t: Tables, id: ChainId): set<Source> {
    if id in t.sources then t.sources[id] else {}
  }

  // ----- create_or_get_chain -------------------------------------------------------

  function InitialState(action: Action): ChainState {
    match action
    case ProbeUpstream => UpstreamPending
    case PauseProvider => Paused
    case Quarantine => Quarantined
    case Diagnose => DiagnosisRequired
    case _ => Waiting
  }

  datatype CreateRequest = CreateRequest(
    id: ChainId,
    selected: set<Source>,
    decision: Decision,
    outcome: Outcome,
    reason: Reason,
    observedAt: int,
    deadlineAt: int)

  datatype CreateError =
    | UnknownCohort | NoSources | SourcesOutsideCohort | FreshCreatesNoChain
    | DeadlineNotAfterObservation | DelaysNotOrdered

  function CreateCheck(cohorts: map<string, set<Source>>, r: CreateRequest): Option<CreateError> {
    if r.id.cohort !in cohorts then Some(UnknownCohort)
    else if r.selected == {} then Some(NoSources)
    else if !(r.selected <= cohorts[r.id.cohort]) then Some(SourcesOutsideCohort)
    else if r.decision.action == Complete then Some(FreshCreatesNoChain)
    else if r.deadlineAt <= r.observedAt then Some(DeadlineNotAfterObservation)
    else if !OrderedDelays(r.decision.delays) then Some(DelaysNotOrdered)
    else None
  }

  function NewChain(r: CreateRequest): Chain {
    Chain(
      r.decision.action, r.decision.reasonClass, InitialState(r.decision.action),
      r.decision.delays, r.decision.paidFetchAllowed, 0, 0, 0,
      if r.decision.delays == [] then None else Some(r.observedAt + r.decision.delays[0]),
      r.deadlineAt, r.outcome, r.reason, None, None, r.observedAt, r.observedAt)
  }

  function CreateTables(t: Tables, r: CreateRequest): Tables {
    t.(chains := if r.id in t.chains then t.chains else t.chains[r.id := NewChain(r)],
       sources := t.sources[r.id := SourcesOf(t, r.id) + r.selected])
  }

  // ----- claim_due and has_due -----------------------------------------------------

  predicate LeaseOver(c: Chain, now: int) {
    c.state == Running && c.leaseUntil.Some? && c.leaseUntil.value <= now
  }

  function ReapedAttempt(a: Attempt, now: int): Attempt {
    if a.state == AttemptRunning
    then a.(state := AttemptFailed, reason := Some(LeaseExpired), finishedAt := Some(now))
    else a
  }

  function ReapedChain(c: Chain, now: int): Chain {
    c.(state := Waiting, nextAttemptAt := Some(now), leaseOwner := None, leaseUntil := None, updatedAt := now)
  }

  /** The lease of every chain in `ids` is taken back. */
  function ReapTables(t: Tables, ids: set<ChainId>, now: int): Tables {
    t.(chains := map id | id in t.chains :: if id in ids then ReapedChain(t.chains[id], now) else t.chains[id],
       attempts := map a | a in t.attempts ::
                     if a.chain in ids then ReapedAttempt(t.attempts[a], now) else t.attempts[a])
  }

  function ExpiredLeases(t: Tables, now: int): set<ChainId> {
    set id | id in t.chains && LeaseOver(t.chains[id], now)
  }

  function ExhaustedChain(c: Chain, now: int): Chain {
    if c.state in {Waiting, UpstreamPending, Running} && c.deadlineAt <= now
    then c.(state := Exhausted, nextAttemptAt := None, leaseOwner := None, leaseUntil := None, updatedAt := now)
    else c
  }

  function ExhaustTables(t: Tables, now: int): Tables {
    t.(chains := map id | id in t.chains :: ExhaustedChain(t.chains[id], now))
  }

  /** What a claim does before it selects: leases are reaped, then overdue chains exhausted. */
  function SweepTables(t: Tables, now: int): Tables {
    ExhaustTables(ReapTables(t, ExpiredLeases(t, now), now), now)
  }

  /** What the sweep makes of one chain. */
  function SweptChain(c: Chain, now: int): Chain {
    ExhaustedChain(if LeaseOver(c, now) then ReapedChain(c, now) else c, now)
  }

  lemma SweepIsPointwise(t: Tables, now: int, id: ChainId)
    requires id in t.chains
    ensures SweepTables(t, now).chains.Keys == t.chains.Keys
    ensures SweepTables(t, now).sources == t.sources
    ensures SweepTables(t, now).chains[id] == SweptChain(t.chains[id], now)
  {
  }

  datatype Filters = Filters(actions: Option<set<Action>>, eligible: Option<set<Source>>)

  predicate Selects(f: Filters, action: Action, sources: set<Source>) {
    && (f.actions.Some? ==> action in f.actions.value)
    && (f.eligible.Some? ==> f.eligible.value != {} && sources <= f.eligible.value)
  }

  /** A filter that was given but is empty selects nothing and ends the call early. */
  predicate EmptyFilter(f: Filters) {
    f.actions == Some({}) || f.eligible == Some({})
  }

  predicate Due(c: Chain, now: int) {
    && c.state in {Waiting, UpstreamPending}
    && c.nextAttemptAt.Some? && c.nextAttemptAt.value <= now
    && now < c.deadlineAt
    && (c.leaseUntil.None? || c.leaseUntil.value <= now)
  }

  predicate Claimable(t: Tables, id: ChainId, now: int, f: Filters) {
    id in t.chains && Due(t.chains[id], now) && Selects(f, t.chains[id].action, SourcesOf(t, id))
  }

  function ClaimableChains(t: Tables, now: int, f: Filters): set<ChainId> {
    set id | id in t.chains && Claimable(t, id, now, f)
  }

  /** `ORDER BY next_attempt_at, created_at`, for chains that have a next attempt. */
  predicate NoLaterThan(a: Chain, b: Chain) {
    a.nextAttemptAt.Some? && b.nextAttemptAt.Some? &&
    (a.nextAttemptAt.value < b.nextAttemptAt.value ||
     (a.nextAttemptAt.value == b.nextAttemptAt.value && a.createdAt <= b.createdAt))
  }

  ghost predicate FirstDue(t: Tables, id: ChainId, now: int, f: Filters) {
    && Claimable(t, id, now, f)
    && forall other :: Claimable(t, other, now, f) ==> NoLaterThan(t.chains[id], t.chains[other])
  }

  datatype ClaimRequest = ClaimRequest(owner: Worker, now: int, leaseSeconds: int, filters: Filters)

  function NextAttempt(t: Tables, id: ChainId): AttemptId
    requires id in t.chains
  {
    AttemptId(id, t.chains[id].attemptIndex + 1)
  }

  function LeaseTables(t: Tables, id: ChainId, r: ClaimRequest): Tables
    requires id in t.chains
  {
    var c := t.chains[id];
    t.(chains := t.chains[id := c.(
                   state := Running, attemptIndex := c.attemptIndex + 1, nextAttemptAt := None,
                   leaseOwner := Some(r.owner), leaseUntil := Some(r.now + r.leaseSeconds), updatedAt := r.now)],
       attempts := t.attempts[NextAttempt(t, id) :=
                     Attempt(c.action, AttemptRunning, r.owner, None, None, None, 0, 0, r.now, None)])
  }

  /** `picked` is a choice the query may return: a first due chain, or nothing if none is due. */
  ghost predicate MayPick(t: Tables, r: ClaimRequest, picked: Option<ChainId>) {
    var swept := SweepTables(t, r.now);
    match picked
    case Some(id) => FirstDue(swept, id, r.now, r.filters)
    case None => ClaimableChains(swept, r.now, r.filters) == {}
  }

  function ClaimTables(t: Tables, r: ClaimRequest, picked: Option<ChainId>): Tables
    requires picked.Some? ==> picked.value in t.chains
  {
    var swept := SweepTables(t, r.now);
    if picked.None? then swept else LeaseTables(swept, picked.value, r)
  }

  /** The peek: does some chain look due, now or after its expired lease is reaped? */
  predicate LooksDue(t: Tables, id: ChainId, now: int, f: Filters) {
    && id in t.chains
    && now < t.chains[id].deadlineAt
    && (Due(t.chains[id], now) || LeaseOver(t.chains[id], now))
    && Selects(f, t.chains[id].action, SourcesOf(t, id))
  }

  // ----- finish_attempt ------------------------------------------------------------

  datatype FinishRequest = FinishRequest(
    attempt: AttemptId,
    owner: Worker,
    outcome: Outcome,
    reason: Reason,
    decision: Decision,
    finishedAt: int,
    succeeded: bool,
    parserRun: Option<string>,
    paidRequests: int,
    paidCost: int)

  datatype FinishResult =
    | Applied
    | Replayed
    | NegativeUsage | AttemptNotFound | AttemptOfAnotherWorker | LeaseOfAnotherWorker
    | LeaseHasExpired | MayNotSpend | FailureCannotComplete

  function FinishCheck(t: Tables, r: FinishRequest): FinishResult {
    if r.paidRequests < 0 || r.paidCost < 0 then NegativeUsage
    else if r.attempt !in t.attempts || r.attempt.chain !in t.chains then AttemptNotFound
    else
      var a, c := t.attempts[r.attempt], t.chains[r.attempt.chain];
      if a.worker != r.owner then AttemptOfAnotherWorker
      else if a.state != AttemptRunning then Replayed
      else if c.leaseOwner != Some(r.owner) then LeaseOfAnotherWorker
      else if c.leaseUntil.None? || c.leaseUntil.value <= r.finishedAt then LeaseHasExpired
      else if r.paidRequests != 0 && !c.paidFetchAllowed then MayNotSpend
      else if r.decision.action == Complete && !r.succeeded then FailureCannotComplete
      else Applied
  }

  /** The attempt rows of a chain for one action: what `SELECT COUNT(*)` counts. */
  function RowsFor(t: Tables, id: ChainId, action: Action): set<AttemptId> {
    set a | a in t.attempts && a.chain == id && t.attempts[a].action == action
  }

  /** Where the decision leaves the chain, and when it is tried next. */
  function Verdict(d: Decision, attemptsMade: int, now: int, deadline: int): (ChainState, Option<int>)
    requires 0 <= attemptsMade
  {
    if d.action == Complete then (Fresh, None)
    else if d.action in {PauseProvider, Quarantine, Diagnose} then (InitialState(d.action), None)
    else if |d.delays| <= attemptsMade then (Exhausted, None)
    else if deadline <= now + d.delays[attemptsMade] then (Exhausted, None)
    else (InitialState(d.action), Some(now + d.delays[attemptsMade]))
  }

  function FinishedAttempt(a: Attempt, r: FinishRequest): Attempt {
    a.(state := if r.succeeded then AttemptSucceeded else AttemptFailed, parserRun := r.parserRun,
       outcome := Some(r.outcome), reason := Some(r.reason), paidRequests := r.paidRequests,
       paidCost := r.paidCost, finishedAt := Some(r.finishedAt))
  }

  function FinishedChain(c: Chain, r: FinishRequest, attemptsMade: nat): Chain {
    var (state, next) := Verdict(r.decision, attemptsMade, r.finishedAt, c.deadlineAt);
    c.(action := r.decision.action, reasonClass := r.decision.reasonClass, state := state,
       delays := r.decision.delays, paidFetchAllowed := r.decision.paidFetchAllowed,
       paidRequests := c.paidRequests + r.paidRequests, paidCost := c.paidCost + r.paidCost,
       nextAttemptAt := next, lastOutcome := r.outcome, lastReason := r.reason,
       leaseOwner := None, leaseUntil := None, updatedAt := r.finishedAt)
  }

  function FinishTables(t: Tables, r: FinishRequest): Tables {
    if FinishCheck(t, r) != Applied then t
    else
      var id := r.attempt.chain;
      var c := t.chains[id];
      t.(attempts := t.attempts[r.attempt := FinishedAttempt(t.attempts[r.attempt], r)],
         // the update repeats `state = 'running' AND lease_owner = ?` in its WHERE clause
         chains := if c.state == Running
                   then t.chains[id := FinishedChain(c, r, |RowsFor(t, id, r.decision.action)|)]
                   else t.chains)
  }

  // ----- reconcile_fresh_primary_outcomes ------------------------------------------

  predicate FreshSince(t: Tables, source: Source, since: int) {
    exists i :: 0 <= i < |t.telemetry| && t.telemetry[i].source == source
                && t.telemetry[i].outcome == FreshPublished && since < t.telemetry[i].finishedAt
  }

  const UNRESOLVED := {Waiting, UpstreamPending, Paused, Quarantined, DiagnosisRequired, Exhausted}

  predicate AllFreshSince(t: Tables, id: ChainId)
    requires id in t.chains
  {
    forall source | source in SourcesOf(t, id) :: FreshSince(t, source, t.chains[id].createdAt)
  }

  predicate Closes(t: Tables, id: ChainId)
    requires id in t.chains
  {
    t.chains[id].state in UNRESOLVED && AllFreshSince(t, id)
  }

  function ClosedChain(c: Chain, now: int): Chain {
    c.(action := Complete, reasonClass := FreshClass, state := Fresh, delays := [],
       paidFetchAllowed := false, nextAttemptAt := None, lastOutcome := FreshPublished,
       lastReason := NoReason, leaseOwner := None, leaseUntil := None, updatedAt := now)
  }

  function ReconcileTables(t: Tables, now: int): Tables {
    t.(chains := map id | id in t.chains :: if Closes(t, id) then ClosedChain(t.chains[id], now) else t.chains[id])
  }

  // ----- advance_planner_cursor ----------------------------------------------------

  predicate Before(a: Cursor, b: Cursor) {
    a.finishedAt < b.finishedAt || (a.finishedAt == b.finishedAt && a.id < b.id)
  }

  function AdvanceTables(t: Tables, to: Cursor): Tables {
    if t.cursor.None? || Before(t.cursor.value, to) then t.(cursor := Some(to)) else t
  }
}
