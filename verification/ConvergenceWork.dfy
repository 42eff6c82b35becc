/**
 Runs in which every finish comes from a worker with the lease a claim gave it
 (`app/convergence_worker.py`): what the results spoke of when a chain turned fresh.
 */
module ConvergenceWork {
  import opened Options
  import opened RecoveryPolicy
  import opened ConvergenceTables
  import opened ConvergenceInvariant
  import opened ConvergenceFencing
  import opened ConvergenceQueue
  import opened ConvergenceStore
  import opened ConvergenceWorker
  import opened ConvergenceLeases

  /** The tables, and the leases handed out so far. */
  datatype Work = Work(tables: Tables, leases: map<AttemptId, Lease>)

  datatype WorkEvent =
    | Transaction(e: Event)
    | WorkerFinishes(a: AttemptId, now: int, execution: Option<Execution>, request: FinishRequest)

  predicate Commits(e: Event) {
    e.Claim? && e.picked.Some?
  }

  ghost predicate Claims(s: Work, e: WorkEvent) {
    e.Transaction? && Commits(e.e) && 30 <= e.e.claim.leaseSeconds && MayPick(s.tables, e.e.claim, e.e.picked)
  }

  /** Every claim asks for an admissible lease, and finishes are sent by workers that hold a lease. */
  ghost predicate CanHappen(s: Work, e: WorkEvent) {
    match e
    case Transaction(x) => !x.Finish? && (x.Claim? ==> 30 <= x.claim.leaseSeconds)
    case WorkerFinishes(a, now, execution, request) =>
      a in s.leases && IsWorkerFinish(s.leases[a], now, s.leases[a].owner, execution, request)
  }

  ghost function LeaseFrom(s: Work, e: WorkEvent): Lease
    requires Claims(s, e)
  {
    LeaseOf(ClaimTables(s.tables, e.e.claim, e.e.picked), e.e.claim, e.e.picked.value)
  }

  ghost function WorkStep(s: Work, e: WorkEvent): Work {
    match e
    case Transaction(x) =>
      Work(Step(s.tables, x), if Claims(s, e) then s.leases[LeaseFrom(s, e).attempt := LeaseFrom(s, e)] else s.leases)
    case WorkerFinishes(_, _, _, request) => s.(tables := Step(s.tables, Finish(request)))
  }

  ghost function WorkRun(es: seq<WorkEvent>): Work {
    if es == [] then Work(EMPTY_TABLES, map[]) else WorkStep(WorkRun(es[..|es| - 1]), es[|es| - 1])
  }

  ghost predicate AllHappen(es: seq<WorkEvent>) {
    es == [] || (AllHappen(es[..|es| - 1]) && CanHappen(WorkRun(es[..|es| - 1]), es[|es| - 1]))
  }

  function Transacted(e: WorkEvent): Event {
    match e
    case Transaction(x) => x
    case WorkerFinishes(_, _, _, request) => Finish(request)
  }

  lemma {:induction false} WorkKeepsInv(es: seq<WorkEvent>)
    ensures Inv(WorkRun(es).tables)
  {
    if es != [] {
      WorkKeepsInv(es[..|es| - 1]);
      StepKeeps(WorkRun(es[..|es| - 1]).tables, Transacted(es[|es| - 1]));
    }
  }

  // ----- a lease remembers its claim -----------------------------------------------

  /** The k-th event was the claim that handed out the lease. */
  ghost predicate ClaimedAt(es: seq<WorkEvent>, k: nat, lease: Lease) {
    k < |es| && Claims(WorkRun(es[..k]), es[k]) && LeaseFrom(WorkRun(es[..k]), es[k]) == lease
  }

  lemma {:induction false} LeasesHaveTheirClaims(es: seq<WorkEvent>, a: AttemptId) returns (k: nat)
    requires a in WorkRun(es).leases
    ensures ClaimedAt(es, k, WorkRun(es).leases[a]) && WorkRun(es).leases[a].attempt == a
  {
    var before, last := es[..|es| - 1], |es| - 1;
    if Claims(WorkRun(before), es[last]) && LeaseFrom(WorkRun(before), es[last]).attempt == a {
      k := last;
    } else {
      k := LeasesHaveTheirClaims(before, a);
      assert es[..k] == before[..k];
    }
  }

  /** The sources of a lease are those the chain had when it was claimed, and the chain keeps them. */
  lemma {:induction false} LeasedSourcesStay(es: seq<WorkEvent>, a: AttemptId)
    requires a in WorkRun(es).leases
    ensures var s := WorkRun(es);
            && s.leases[a].attempt == a && a.chain in s.tables.chains
            && s.leases[a].sources <= SourcesOf(s.tables, a.chain)
  {
    var before, e := es[..|es| - 1], es[|es| - 1];
    var s := WorkRun(before);
    WorkKeepsInv(before);
    if Claims(s, e) && LeaseFrom(s, e).attempt == a {
      ClaimHoldsItsLease(s.tables, e.e.claim, e.e.picked.value);
    } else {
      LeasedSourcesStay(before, a);
      StepMovesChains(s.tables, Transacted(e), a.chain);
    }
  }

  // ----- what turns a chain fresh --------------------------------------------------

  /** The results cover the sources that the chain had right after the k-th event, all of them fresh. */
  ghost predicate CoversTheClaim(es: seq<WorkEvent>, k: nat, id: ChainId, execution: Option<Execution>) {
    && k < |es|
    && execution.Some?
    && CoversExactly(SourcesOf(WorkRun(es[..k + 1]).tables, id), execution.value.results)
    && AllFresh(execution.value.results)
  }

  lemma WorkerSpeaksOfItsClaim(es: seq<WorkEvent>, e: WorkEvent, id: ChainId) returns (k: nat)
    requires AllHappen(es) && CanHappen(WorkRun(es), e) && e.WorkerFinishes?
    requires id in WorkRun(es).tables.chains && WorkRun(es).tables.chains[id].state != Fresh
    requires WorkStep(WorkRun(es), e).tables.chains[id].state == Fresh
    ensures e.a.chain == id && Leased(WorkRun(es).tables, e.a)
    ensures ClaimedAt(es, k, WorkRun(es).leases[e.a]) && CoversTheClaim(es, k, id, e.execution)
    ensures SourcesOf(WorkRun(es[..k + 1]).tables, id) <= SourcesOf(WorkRun(es).tables, id)
  {
    var s := WorkRun(es);
    WorkKeepsInv(es);
    k := LeasesHaveTheirClaims(es, e.a);
    FreshMeansEverySourceIsFresh(
      s.tables, Finish(e.request), id, s.leases[e.a], e.now, s.leases[e.a].owner, e.execution);
    LeasedSourcesStay(es, e.a);
    LeaseNamesItsSources(es, k, s.leases[e.a]);
  }

  lemma LeaseNamesItsSources(es: seq<WorkEvent>, k: nat, lease: Lease)
    requires ClaimedAt(es, k, lease)
    ensures lease.sources == SourcesOf(WorkRun(es[..k + 1]).tables, lease.attempt.chain)
  {
    assert es[..k + 1][..k] == es[..k];
  }

  /**
   In a run of workers a chain turns fresh only by a worker whose results cover, all fresh and
   each exactly once, the sources the chain had when that worker claimed it, which it still has;
   or by a reconciliation that found a fresh primary newer than the chain for every source.
   */
  lemma FreshMeansEverySourceOfTheClaimIsFresh(es: seq<WorkEvent>, e: WorkEvent, id: ChainId)
    requires AllHappen(es) && CanHappen(WorkRun(es), e)
    requires id in WorkRun(es).tables.chains && WorkRun(es).tables.chains[id].state != Fresh
    requires WorkStep(WorkRun(es), e).tables.chains[id].state == Fresh
    ensures if e.WorkerFinishes? then
              exists k :: && ClaimedAt(es, k, WorkRun(es).leases[e.a]) && CoversTheClaim(es, k, id, e.execution)
                          && SourcesOf(WorkRun(es[..k + 1]).tables, id) <= SourcesOf(WorkRun(es).tables, id)
            else
              var t := WorkRun(es).tables;
              && e.e.Reconcile? && SourcesOf(t, id) != {}
              && forall source :: source in SourcesOf(t, id) ==>
                   exists i :: && 0 <= i < |t.telemetry| && t.telemetry[i].source == source
                               && t.telemetry[i].outcome == FreshPublished
                               && t.chains[id].createdAt < t.telemetry[i].finishedAt
  {
    WorkKeepsInv(es);
    if e.WorkerFinishes? {
      var k := WorkerSpeaksOfItsClaim(es, e, id);
    } else {
      FreshHasAWitness(WorkRun(es).tables, e.e, id);
    }
  }

  /** The results that made it fresh cover the sources the chain has by then exactly if none was added
      since that claim. */
  lemma ResultsCoverTheChainExactlyIfNothingWasAdded(es: seq<WorkEvent>, e: WorkEvent, id: ChainId) returns (k: nat)
    requires AllHappen(es) && CanHappen(WorkRun(es), e) && e.WorkerFinishes?
    requires id in WorkRun(es).tables.chains && WorkRun(es).tables.chains[id].state != Fresh
    requires WorkStep(WorkRun(es), e).tables.chains[id].state == Fresh
    ensures ClaimedAt(es, k, WorkRun(es).leases[e.a]) && e.a.chain == id && e.execution.Some?
    ensures CoversExactly(SourcesOf(WorkRun(es).tables, id), e.execution.value.results)
            <==> SourcesOf(WorkRun(es[..k + 1]).tables, id) == SourcesOf(WorkRun(es).tables, id)
  {
    k := WorkerSpeaksOfItsClaim(es, e, id);
    CoveredSetIsUnique(
      SourcesOf(WorkRun(es[..k + 1]).tables, id), SourcesOf(WorkRun(es).tables, id), e.execution.value.results);
  }

  lemma CoveredSetIsUnique(a: set<Source>, b: set<Source>, results: seq<SourceResult>)
    requires CoversExactly(a, results)
    ensures CoversExactly(b, results) <==> a == b
  {
    if CoversExactly(b, results) {
      assert forall source :: source in a <==> source in b;
    }
  }

  // ----- a source that came too late -----------------------------------------------

  function AllFreshResults(source: Source): seq<SourceResult> {
    [SourceResult(source, FreshPublished, NoReason, false)]
  }

  /** What a worker sends whose one source came out fresh. */
  function FreshFinish(lease: Lease, r: ClaimRequest, source: Source): FinishRequest {
    WorkerFinish(lease, r.now, r.owner, Some(Execution(None, AllFreshResults(source), 0, 0)),
                 Classification(FreshPublished, NoReason, true))
  }

  lemma FreshFinishIsTheWorkers(lease: Lease, r: ClaimRequest, source: Source)
    requires lease.sources == {source} && source != ""
    ensures IsWorkerFinish(lease, r.now, r.owner, Some(Execution(None, AllFreshResults(source), 0, 0)),
                           FreshFinish(lease, r, source))
  {
    var c := Classification(FreshPublished, NoReason, true);
    SingleResultCovers(source);
    assert Classifies(lease.sources, AllFreshResults(source), c);
  }

  lemma FreshFinishCompletes(t: Tables, lease: Lease, r: ClaimRequest, source: Source)
    requires Inv(t) && Holds(t, lease.attempt, lease.chain) && LeasedFor(lease.chain, r) && 30 <= r.leaseSeconds
    ensures var u := FinishTables(t, FreshFinish(lease, r, source));
            && lease.attempt.chain in u.chains && u.chains[lease.attempt.chain].state == Fresh
            && u.sources == t.sources
  {
    FinishAppliesExactlyUnderLease(t, FreshFinish(lease, r, source));
  }

  /** A source added to a claimed chain stays out of the results that make the chain fresh. */
  lemma LateSourceCanBeMissing(claimed: Tables, r: ClaimRequest, lease: Lease, source: Source, late: CreateRequest)
    requires HandsOut(r, claimed, lease) && lease.sources == {source} && source != ""
    requires CreateAllowed(late) && late.id == lease.attempt.chain && source !in late.selected
    ensures IsWorkerFinish(lease, r.now, r.owner, Some(Execution(None, AllFreshResults(source), 0, 0)),
                           FreshFinish(lease, r, source))
    ensures var u := FinishTables(CreateTables(claimed, late), FreshFinish(lease, r, source));
            && late.id in u.chains && u.chains[late.id].state == Fresh
            && late.selected <= SourcesOf(u, late.id)
    ensures forall missing :: missing in late.selected ==> !Named(AllFreshResults(source), missing)
  {
    FreshFinishIsTheWorkers(lease, r, source);
    HandedOutIsHeld(r, claimed, lease);
    CreateKeeps(claimed, late);
    FreshFinishCompletes(CreateTables(claimed, late), lease, r, source);
  }

  lemma SingleResultCovers(source: Source)
    requires source != ""
    ensures CoversExactly({source}, AllFreshResults(source)) && AllFresh(AllFreshResults(source))
  {
    assert AllFreshResults(source)[0].sourceId == source;
  }
}
