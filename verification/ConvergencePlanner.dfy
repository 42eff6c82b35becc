/**
 The planner (`app/convergence_planner.py`): it pages through terminal primary outcomes behind a
 stored cursor and turns the failures into recovery chains.
 */
module ConvergencePlanner {
  import opened Options
  import opened RecoveryPolicy
  import opened ConvergenceTables
  import opened ConvergenceInvariant
  import opened ConvergenceQueue
  import opened ConvergenceStore

  const BATCH_LIMIT := 500
  const FIRST_RUN_LOOKBACK := 24 * 60 * 60

  // ----- what one event plans ------------------------------------------------------

  function DeadlineFor(action: Action, observedAt: int): int {
    observedAt + match action
    case RetryTransport => 4 * 60 * 60
    case RetryPublication | RetryScheduler | RetryLocal => 2 * 60 * 60
    case RetryCandidate => 24 * 60 * 60
    case ProbeUpstream => 48 * 60 * 60
    case _ => 7 * 24 * 60 * 60
  }

  type Cohorts = map<string, set<Source>>
  type CohortOf = map<Source, string>

  /** The source index is derived from the cohorts. */
  ghost predicate Indexes(cohortOf: CohortOf, cohorts: Cohorts) {
    forall source :: source in cohortOf ==> cohortOf[source] in cohorts && source in cohorts[cohortOf[source]]
  }

  function PlannedCreate(row: PrimaryRow, cohortOf: CohortOf): Option<CreateRequest> {
    if row.outcome == FreshPublished || (row.outcome == Skipped && !row.upstreamPending) then None
    else if row.source !in cohortOf then None
    else
      var d := DecideRecovery(row.outcome, row.reason, row.upstreamPending);
      var origin := if row.window != "" then Window(row.window) else OfAttempt(row.id);
      if d.action == Complete then None
      else Some(CreateRequest(ChainId(cohortOf[row.source], origin), {row.source}, d, row.outcome, row.reason,
                              row.finishedAt, DeadlineFor(d.action, row.finishedAt)))
  }

  /** A schedule slot whose deadline passed without an attempt. */
  datatype Slot = Slot(occurrence: string, source: Source, deadlineAt: int)

  function SlotCreate(slot: Slot, cohortOf: CohortOf): Option<CreateRequest> {
    if slot.source !in cohortOf then None
    else
      var d := DecideRecovery(Missing, UnknownReason, false);
      Some(CreateRequest(ChainId(cohortOf[slot.source], Window(slot.occurrence)), {slot.source}, d, Missing,
                         UnknownReason, slot.deadlineAt, DeadlineFor(d.action, slot.deadlineAt)))
  }

  /** A planned chain is never refused, and its first attempt falls before its deadline. */
  ghost predicate Plannable(r: CreateRequest, cohorts: Cohorts) {
    && CreateCheck(cohorts, r).None?
    && IsPolicyDecision(r.decision)
    && (NewChain(r).nextAttemptAt.Some? ==> NewChain(r).nextAttemptAt.value < r.deadlineAt)
  }

  lemma PlannedCreatesPass(row: PrimaryRow, cohortOf: CohortOf, cohorts: Cohorts)
    requires Indexes(cohortOf, cohorts)
    ensures PlannedCreate(row, cohortOf).Some? ==> Plannable(PlannedCreate(row, cohortOf).value, cohorts)
    ensures PlannedCreate(row, cohortOf).Some? <==>
            row.source in cohortOf && row.outcome != FreshPublished && (row.outcome == Skipped ==> row.upstreamPending)
  {
  }

  lemma SlotCreatesPass(slot: Slot, cohortOf: CohortOf, cohorts: Cohorts)
    requires Indexes(cohortOf, cohorts)
    ensures SlotCreate(slot, cohortOf).Some? ==> Plannable(SlotCreate(slot, cohortOf).value, cohorts)
  {
  }

  /** The hours that an action may take. */
  function HoursFor(action: Action): int {
    if action == RetryTransport then 4
    else if action == RetryPublication || action == RetryScheduler || action == RetryLocal then 2
    else if action == RetryCandidate then 24
    else if action == ProbeUpstream then 48
    else 7 * 24
  }

  /** A failed event asks for the chain of its cohort and window, or of itself if it has no window. */
  lemma PlannedCreateIs(row: PrimaryRow, cohortOf: CohortOf)
    requires PlannedCreate(row, cohortOf).Some?
    ensures var r := PlannedCreate(row, cohortOf).value;
            && row.source in cohortOf && r.id.cohort == cohortOf[row.source]
            && (row.window != "" ==> r.id.origin == Window(row.window))
            && (row.window == "" ==> r.id.origin == OfAttempt(row.id))
            && r.selected == {row.source} && r.outcome == row.outcome && r.reason == row.reason
            && r.decision == DecideRecovery(row.outcome, row.reason, row.upstreamPending)
            && r.observedAt == row.finishedAt && r.deadlineAt - row.finishedAt == 3600 * HoursFor(r.decision.action)
  {
  }

  /** A missed slot asks for the chain of its cohort and occurrence, under the scheduler's decision. */
  lemma SlotCreateIs(slot: Slot, cohortOf: CohortOf)
    ensures SlotCreate(slot, cohortOf).Some? <==> slot.source in cohortOf
    ensures SlotCreate(slot, cohortOf).Some? ==>
              var r := SlotCreate(slot, cohortOf).value;
              && r.id == ChainId(cohortOf[slot.source], Window(slot.occurrence)) && r.selected == {slot.source}
              && r.decision.action == RetryScheduler && r.outcome == Missing && r.reason == UnknownReason
              && r.observedAt == slot.deadlineAt && r.deadlineAt - slot.deadlineAt == 2 * 3600
  {
  }

  /** Failed events share a chain exactly if they share the cohort and the window, and events without
      a window share none. */
  lemma EventsShareAChainExactlyWhen(a: PrimaryRow, b: PrimaryRow, cohortOf: CohortOf)
    requires PlannedCreate(a, cohortOf).Some? && PlannedCreate(b, cohortOf).Some?
    ensures PlannedCreate(a, cohortOf).value.id == PlannedCreate(b, cohortOf).value.id
            <==> && cohortOf[a.source] == cohortOf[b.source]
                 && a.window == b.window && (a.window == "" ==> a.id == b.id)
  {
  }

  function RowEvents(rows: seq<PrimaryRow>, cohortOf: CohortOf): seq<Event> {
    if rows == [] then []
    else
      var last := PlannedCreate(rows[|rows| - 1], cohortOf);
      RowEvents(rows[..|rows| - 1], cohortOf) + if last.Some? then [Create(last.value)] else []
  }

  function SlotEvents(slots: seq<Slot>, cohortOf: CohortOf): seq<Event> {
    if slots == [] then []
    else
      var last := SlotCreate(slots[|slots| - 1], cohortOf);
      SlotEvents(slots[..|slots| - 1], cohortOf) + if last.Some? then [Create(last.value)] else []
  }

  lemma OneMoreRow(rows: seq<PrimaryRow>, i: int, cohortOf: CohortOf)
    requires 0 <= i < |rows|
    ensures var create := PlannedCreate(rows[i], cohortOf);
            RowEvents(rows[..i + 1], cohortOf) ==
            if create.Some? then RowEvents(rows[..i], cohortOf) + [Create(create.value)]
            else RowEvents(rows[..i], cohortOf)
  {
    assert rows[..i + 1][..i] == rows[..i];
  }

  lemma OneMoreSlot(slots: seq<Slot>, i: int, cohortOf: CohortOf)
    requires 0 <= i < |slots|
    ensures var create := SlotCreate(slots[i], cohortOf);
            SlotEvents(slots[..i + 1], cohortOf) ==
            if create.Some? then SlotEvents(slots[..i], cohortOf) + [Create(create.value)]
            else SlotEvents(slots[..i], cohortOf)
  {
    assert slots[..i + 1][..i] == slots[..i];
  }

  // ----- the batch -----------------------------------------------------------------

  function Key(row: PrimaryRow): Cursor {
    Cursor(row.finishedAt, row.id)
  }

  predicate AfterCursor(row: PrimaryRow, from: Cursor, now: int) {
    Before(from, Key(row)) && row.finishedAt <= now
  }

  ghost predicate InKeyOrder(rows: seq<PrimaryRow>) {
    forall i, j :: 0 <= i < j < |rows| ==> Before(Key(rows[i]), Key(rows[j]))
  }

  /** The first rows after the cursor, in key order: all of them, or as many as the limit allows. */
  ghost predicate IsBatch(log: seq<PrimaryRow>, from: Cursor, now: int, rows: seq<PrimaryRow>) {
    && InKeyOrder(rows)
    && |rows| <= BATCH_LIMIT
    && (forall row :: row in rows ==> row in log && AfterCursor(row, from, now))
    && (forall row :: row in log && AfterCursor(row, from, now) && row !in rows ==>
          |rows| == BATCH_LIMIT && forall taken :: taken in rows ==> Before(Key(taken), Key(row)))
  }

  method TerminalEvents(log: seq<PrimaryRow>, from: Cursor, now: int) returns (rows: seq<PrimaryRow>)
    requires UniqueIds(log)
    ensures IsBatch(log, from, now, rows)
  {
    var left := set row | row in log && AfterCursor(row, from, now);
    rows := [];
    while left != {} && |rows| < BATCH_LIMIT
      invariant InKeyOrder(rows) && |rows| <= BATCH_LIMIT
      invariant forall row :: row in rows || row in left <==> row in log && AfterCursor(row, from, now)
      invariant forall row, taken :: row in left && taken in rows ==> Before(Key(taken), Key(row))
      decreases left
    {
      LeastRow(log, left);
      var next :| next in left && forall row :: row in left && row != next ==> Before(Key(next), Key(row));
      assert forall row :: row in rows + [next] <==> row in rows || row == next;
      rows, left := rows + [next], left - {next};
    }
  }

  /** What a batch holds: at most 500 events after the cursor and not in the future, in order of time and
      then of attempt, and none left out that comes before one taken. */
  lemma BatchIs(log: seq<PrimaryRow>, from: Cursor, now: int, rows: seq<PrimaryRow>)
    requires IsBatch(log, from, now, rows)
    ensures |rows| <= 500
    ensures forall row :: row in rows ==>
              && row in log && row.finishedAt <= now
              && (from.finishedAt < row.finishedAt || (from.finishedAt == row.finishedAt && from.id < row.id))
    ensures forall i, j :: 0 <= i < j < |rows| ==>
              || rows[i].finishedAt < rows[j].finishedAt
              || (rows[i].finishedAt == rows[j].finishedAt && rows[i].id < rows[j].id)
    ensures forall row :: row in log && row !in rows && row.finishedAt <= now &&
                          (from.finishedAt < row.finishedAt ||
                           (from.finishedAt == row.finishedAt && from.id < row.id)) ==>
              |rows| == 500 && forall taken :: taken in rows ==>
                || taken.finishedAt < row.finishedAt
                || (taken.finishedAt == row.finishedAt && taken.id < row.id)
  {
  }

  /** A first run looks back one day. */
  lemma FirstRunLooksBackADay(now: int, cursor: Cursor)
    ensures Lower(Some(cursor), now) == cursor
    ensures Lower(None, now).finishedAt == now - 24 * 3600 && Lower(None, now).id == 0
  {
  }

  /** Rows with distinct ids have a least one. */
  lemma {:induction false} LeastRow(log: seq<PrimaryRow>, rows: set<PrimaryRow>)
    requires UniqueIds(log) && rows != {} && forall row :: row in rows ==> row in log
    ensures exists next :: next in rows && forall row :: row in rows && row != next ==> Before(Key(next), Key(row))
    decreases rows
  {
    var candidate :| candidate in rows;
    var rest := rows - {candidate};
    if rest == {} {
      assert forall row :: row in rows && row != candidate ==> row in rest;
    } else {
      LeastRow(log, rest);
      var least :| least in rest && forall row :: row in rest && row != least ==> Before(Key(least), Key(row));
      DistinctKeys(log, candidate, least);
      var next := if Before(Key(candidate), Key(least)) then candidate else least;
      assert forall row :: row in rows && row != next ==> row in rest || row == candidate;
      assert forall row :: row in rows && row != next ==> Before(Key(next), Key(row));
    }
  }

  lemma DistinctKeys(log: seq<PrimaryRow>, a: PrimaryRow, b: PrimaryRow)
    requires UniqueIds(log) && a in log && b in log && a != b
    ensures Before(Key(a), Key(b)) || Before(Key(b), Key(a))
  {
    var i :| 0 <= i < |log| && log[i] == a;
    var j :| 0 <= j < |log| && log[j] == b;
  }

  // ----- plan_once -----------------------------------------------------------------

  function Lower(cursor: Option<Cursor>, now: int): Cursor {
    if cursor.Some? then cursor.value else Cursor(now - FIRST_RUN_LOOKBACK, 0)
  }

  ghost function PlanTables(t: Tables, rows: seq<PrimaryRow>, slots: seq<Slot>, cohortOf: CohortOf, now: int): Tables {
    var planned := Run(Run(t, RowEvents(rows, cohortOf)), SlotEvents(slots, cohortOf));
    var closed := ReconcileTables(planned, now);
    if rows == [] then closed else AdvanceTables(closed, Key(rows[|rows| - 1]))
  }

  method PlanRows(store: Store, rows: seq<PrimaryRow>, cohortOf: CohortOf)
    requires Reachable(store.View()) && Indexes(cohortOf, store.cohorts)
    modifies store`chains, store`sources
    ensures store.View() == Run(old(store.View()), RowEvents(rows, cohortOf))
    ensures Reachable(store.View())
  {
    var i := 0;
    ghost var done: seq<Event> := [];
    while i < |rows|
      invariant 0 <= i <= |rows| && done == RowEvents(rows[..i], cohortOf)
      invariant Reachable(store.View())
      invariant store.View() == Run(old(store.View()), done)
    {
      OneMoreRow(rows, i, cohortOf);
      PlannedCreatesPass(rows[i], cohortOf, store.cohorts);
      var create := PlannedCreate(rows[i], cohortOf);
      if create.Some? {
        RunOneMore(old(store.View()), done, Create(create.value));
        CheckedCreatesAreAllowed(store.cohorts, create.value);
        done := done + [Create(create.value)];
        var refused := store.CreateOrGetChain(create.value);
        assert refused.None?;
      }
      i := i + 1;
    }
    assert rows[..i] == rows;
  }

  method PlanSlots(store: Store, slots: seq<Slot>, cohortOf: CohortOf)
    requires Reachable(store.View()) && Indexes(cohortOf, store.cohorts)
    modifies store`chains, store`sources
    ensures store.View() == Run(old(store.View()), SlotEvents(slots, cohortOf))
    ensures Reachable(store.View())
  {
    var i := 0;
    ghost var done: seq<Event> := [];
    while i < |slots|
      invariant 0 <= i <= |slots| && done == SlotEvents(slots[..i], cohortOf)
      invariant Reachable(store.View())
      invariant store.View() == Run(old(store.View()), done)
    {
      OneMoreSlot(slots, i, cohortOf);
      SlotCreatesPass(slots[i], cohortOf, store.cohorts);
      var create := SlotCreate(slots[i], cohortOf);
      if create.Some? {
        RunOneMore(old(store.View()), done, Create(create.value));
        CheckedCreatesAreAllowed(store.cohorts, create.value);
        done := done + [Create(create.value)];
        var refused := store.CreateOrGetChain(create.value);
        assert refused.None?;
      }
      i := i + 1;
    }
    assert slots[..i] == slots;
  }

  /** One planner run: no create is ever refused, and the cursor moves last. */
  method PlanOnce(store: Store, slots: seq<Slot>, cohortOf: CohortOf, now: int) returns (rows: seq<PrimaryRow>)
    requires Reachable(store.View()) && Indexes(cohortOf, store.cohorts) && UniqueIds(store.telemetry)
    modifies store`chains, store`sources, store`cursor
    ensures IsBatch(old(store.telemetry), Lower(old(store.cursor), now), now, rows)
    ensures store.View() == PlanTables(old(store.View()), rows, slots, cohortOf, now)
    ensures Reachable(store.View())
  {
    rows := TerminalEvents(store.telemetry, Lower(store.cursor, now), now);
    PlanRows(store, rows, cohortOf);
    PlanSlots(store, slots, cohortOf);
    var _ := store.ReconcileFreshPrimaryOutcomes(now);
    if rows != [] { store.AdvancePlannerCursor(Key(rows[|rows| - 1])); }
  }

  // ----- replaying creates ---------------------------------------------------------

  ghost predicate Planned(t: Tables, e: Event) {
    e.Create? && CreateAllowed(e.create) ==> e.create.id in t.chains && e.create.selected <= SourcesOf(t, e.create.id)
  }

  lemma {:induction false} PlannedForever(t: Tables, es: seq<Event>, e: Event)
    requires Inv(t) && Planned(t, e)
    ensures Planned(Run(t, es), e)
    decreases |es|
  {
    if es != [] && e.Create? && CreateAllowed(e.create) {
      StepKeeps(t, es[0]);
      StepMovesChains(t, es[0], e.create.id);
      PlannedForever(Step(t, es[0]), es[1..], e);
    }
  }

  lemma {:induction false} RunPlansItsCreates(t: Tables, creates: seq<Event>, i: int)
    requires Inv(t) && 0 <= i < |creates| && creates[i].Create?
    ensures Planned(Run(t, creates), creates[i])
    decreases |creates|
  {
    StepKeeps(t, creates[0]);
    if i == 0 {
      PlannedForever(Step(t, creates[0]), creates[1..], creates[0]);
    } else {
      RunPlansItsCreates(Step(t, creates[0]), creates[1..], i - 1);
    }
  }

  lemma PlannedCreateChangesNothing(t: Tables, e: Event)
    requires Inv(t) && e.Create? && Planned(t, e)
    ensures Step(t, e) == t
  {
    var r := e.create;
    if CreateAllowed(r) {
      assert t.sources[r.id] + r.selected == t.sources[r.id];
      assert t.sources[r.id := t.sources[r.id]] == t.sources;
    }
  }

  lemma {:induction false} PlannedCreatesChangeNothing(t: Tables, creates: seq<Event>)
    requires Inv(t) && forall i :: 0 <= i < |creates| ==> creates[i].Create? && Planned(t, creates[i])
    ensures Run(t, creates) == t
    decreases |creates|
  {
    if creates != [] {
      PlannedCreateChangesNothing(t, creates[0]);
      forall i | 0 <= i < |creates[1..]| ensures Planned(t, creates[1..][i]) {
        assert creates[1..][i] == creates[i + 1];
      }
      PlannedCreatesChangeNothing(t, creates[1..]);
    }
  }

  lemma {:induction false} RowEventsAreCreates(rows: seq<PrimaryRow>, cohortOf: CohortOf)
    ensures forall i :: 0 <= i < |RowEvents(rows, cohortOf)| ==> RowEvents(rows, cohortOf)[i].Create?
  {
    if rows != [] { RowEventsAreCreates(rows[..|rows| - 1], cohortOf); }
  }

  /**
   If a planner dies after creating its chains and before moving the cursor, then whatever other
   transactions run meanwhile, replaying the batch changes nothing at all.
   */
  lemma ReplayedBatchChangesNothing(t: Tables, rows: seq<PrimaryRow>, cohortOf: CohortOf, meanwhile: seq<Event>)
    requires Inv(t)
    ensures var crashed := Run(Run(t, RowEvents(rows, cohortOf)), meanwhile);
            Run(crashed, RowEvents(rows, cohortOf)) == crashed
  {
    var creates := RowEvents(rows, cohortOf);
    var planned := Run(t, creates);
    RowEventsAreCreates(rows, cohortOf);
    RunKeeps(t, creates);
    RunKeeps(planned, meanwhile);
    forall i | 0 <= i < |creates| ensures Planned(Run(planned, meanwhile), creates[i]) {
      RunPlansItsCreates(t, creates, i);
      PlannedForever(planned, meanwhile, creates[i]);
    }
    PlannedCreatesChangeNothing(Run(planned, meanwhile), creates);
  }

  // ----- replaying a batch that has grown ------------------------------------------

  ghost predicate CreatesOnly(es: seq<Event>) {
    forall i :: 0 <= i < |es| ==> es[i].Create?
  }

  /** The creates that `t` has not seen yet, in order. */
  ghost function Unplanned(t: Tables, es: seq<Event>): seq<Event> {
    if es == [] then [] else (if Planned(t, es[0]) then [] else [es[0]]) + Unplanned(t, es[1..])
  }

  lemma {:induction false} PlannedCreatesAreSkipped(t: Tables, u: Tables, creates: seq<Event>)
    requires Inv(u) && CreatesOnly(creates)
    requires forall e :: Planned(t, e) && e in creates ==> Planned(u, e)
    ensures Run(u, creates) == Run(u, Unplanned(t, creates))
    decreases |creates|
  {
    if creates != [] {
      var e, rest := creates[0], creates[1..];
      StepKeeps(u, e);
      forall x | Planned(t, x) && x in rest ensures Planned(Step(u, e), x) {
        PlannedForever(u, [e], x);
        assert [e][1..] == [];
      }
      PlannedCreatesAreSkipped(t, Step(u, e), rest);
      if Planned(t, e) {
        PlannedCreateChangesNothing(u, e);
        assert Unplanned(t, creates) == Unplanned(t, rest);
      } else {
        assert Unplanned(t, creates) == [e] + Unplanned(t, rest);
        assert Unplanned(t, creates)[1..] == Unplanned(t, rest);
      }
    }
  }

  /** Creates never touch the record of a chain that is there, and only add to its sources. */
  lemma {:induction false} CreatesLeaveChains(t: Tables, creates: seq<Event>, id: ChainId)
    requires CreatesOnly(creates) && id in t.chains
    ensures id in Run(t, creates).chains && Run(t, creates).chains[id] == t.chains[id]
    ensures SourcesOf(t, id) <= SourcesOf(Run(t, creates), id)
    decreases |creates|
  {
    if creates != [] { CreatesLeaveChains(Step(t, creates[0]), creates[1..], id); }
  }

  lemma {:induction false} SlotEventsAreCreates(slots: seq<Slot>, cohortOf: CohortOf)
    ensures CreatesOnly(SlotEvents(slots, cohortOf))
  {
    if slots != [] { SlotEventsAreCreates(slots[..|slots| - 1], cohortOf); }
  }

  /**
   A planner dies after its first `k` creates; other transactions run; the next run reads whatever
   batch and slots there are by then. It does exactly what its not yet planned creates do: what was
   planned is planned still, its replay has no effect, and no chain that is there is touched.
   */
  lemma GrownReplayOnlyAddsNewRows(
      t: Tables, rows: seq<PrimaryRow>, k: nat, meanwhile: seq<Event>, grown: seq<PrimaryRow>, slots: seq<Slot>,
      cohortOf: CohortOf)
    requires Inv(t) && k <= |RowEvents(rows, cohortOf)|
    ensures var crashed := Run(Run(t, RowEvents(rows, cohortOf)[..k]), meanwhile);
            var again := RowEvents(grown, cohortOf) + SlotEvents(slots, cohortOf);
            && (forall i :: 0 <= i < k ==> Planned(crashed, RowEvents(rows, cohortOf)[i]))
            && Run(crashed, again) == Run(crashed, Unplanned(crashed, again))
            && (forall id :: id in crashed.chains ==>
                  id in Run(crashed, again).chains && Run(crashed, again).chains[id] == crashed.chains[id]
                  && SourcesOf(crashed, id) <= SourcesOf(Run(crashed, again), id))
  {
    var creates := RowEvents(rows, cohortOf)[..k];
    var planned := Run(t, creates);
    var crashed := Run(planned, meanwhile);
    var again := RowEvents(grown, cohortOf) + SlotEvents(slots, cohortOf);
    RowEventsAreCreates(rows, cohortOf);
    RowEventsAreCreates(grown, cohortOf);
    SlotEventsAreCreates(slots, cohortOf);
    RunKeeps(t, creates);
    RunKeeps(planned, meanwhile);
    forall i | 0 <= i < k ensures Planned(crashed, RowEvents(rows, cohortOf)[i]) {
      RunPlansItsCreates(t, creates, i);
      PlannedForever(planned, meanwhile, creates[i]);
    }
    PlannedCreatesAreSkipped(crashed, crashed, again);
    forall id | id in crashed.chains
      ensures id in Run(crashed, again).chains && Run(crashed, again).chains[id] == crashed.chains[id]
      ensures SourcesOf(crashed, id) <= SourcesOf(Run(crashed, again), id)
    {
      CreatesLeaveChains(crashed, again, id);
    }
  }
}
