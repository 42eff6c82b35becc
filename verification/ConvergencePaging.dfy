/**
 Planner runs over time (`app/convergence_planner.py`): telemetry arrives, runs read a batch,
 create its chains one transaction at a time and move the cursor last, and may die anywhere.
 */
module ConvergencePaging {
  import opened Options
  import opened RecoveryPolicy
  import opened ConvergenceTables
  import opened ConvergenceInvariant
  import opened ConvergenceStore
  import opened ConvergencePlanner

  /** What the run under way has read, above which bound, and how many of its rows are planned. */
  datatype Batch = Batch(rows: seq<PrimaryRow>, lower: Cursor, created: nat)

  /**
   The tables and the run under way; the bound from which the first cursor was reached; the rows
   of the runs that moved the cursor, in order; the rows that arrived in time; and those that
   arrived below the end of the batch just being planned, whose fate its run decides.
   */
  datatype Paging = Paging(
    tables: Tables,
    batch: Option<Batch>,
    start: Option<Cursor>,
    handled: seq<PrimaryRow>,
    timely: set<PrimaryRow>,
    racing: set<PrimaryRow>)

  datatype PagingEvent =
    | Arrive(row: PrimaryRow)
    | Other(e: Event)
    | Read(now: int, rows: seq<PrimaryRow>)
    | PlanNext
    | Commit
    | Crash

  predicate Ahead(cursor: Option<Cursor>, row: PrimaryRow) {
    cursor.None? || Before(cursor.value, Key(row))
  }

  /** The cursor that the run under way would set. */
  function Horizon(batch: Option<Batch>): Option<Cursor> {
    if batch.Some? && batch.value.rows != [] then Some(Key(batch.value.rows[|batch.value.rows| - 1])) else None
  }

  ghost predicate Logged(s: Paging, id: nat) {
    exists i :: 0 <= i < |s.tables.telemetry| && s.tables.telemetry[i].id == id
  }

  /** One planner at a time; other transactions are neither arrivals nor moves of the cursor. */
  ghost predicate CanHappen(s: Paging, e: PagingEvent) {
    match e
    case Arrive(row) => !Logged(s, row.id)
    case Other(x) => !x.Record? && !x.Advance?
    case Read(now, rows) => s.batch.None? && IsBatch(s.tables.telemetry, Lower(s.tables.cursor, now), now, rows)
    case PlanNext => s.batch.Some? && s.batch.value.created < |s.batch.value.rows|
    case Commit => s.batch.Some? && s.batch.value.created == |s.batch.value.rows|
    case Crash => true
  }

  function ArriveStep(s: Paging, row: PrimaryRow): Paging {
    var t := s.(tables := s.tables.(telemetry := s.tables.telemetry + [row]));
    if !Ahead(s.tables.cursor, row) then t
    else if Horizon(s.batch).Some? && !Ahead(Horizon(s.batch), row) then t.(racing := s.racing + {row})
    else t.(timely := s.timely + {row})
  }

  ghost function PlanStep(s: Paging, cohortOf: CohortOf): Paging
    requires s.batch.Some? && s.batch.value.created < |s.batch.value.rows|
  {
    var b := s.batch.value;
    var create := PlannedCreate(b.rows[b.created], cohortOf);
    s.(tables := if create.Some? then Step(s.tables, Create(create.value)) else s.tables,
       batch := Some(b.(created := b.created + 1)))
  }

  function CommitStep(s: Paging): Paging
    requires s.batch.Some?
  {
    var b := s.batch.value;
    if b.rows == [] then s.(batch := None)
    else s.(tables := AdvanceTables(s.tables, Key(b.rows[|b.rows| - 1])), batch := None,
            start := if s.start.None? then Some(b.lower) else s.start,
            handled := s.handled + b.rows, racing := {})
  }

  ghost function PagingStep(s: Paging, e: PagingEvent, cohortOf: CohortOf): Paging {
    if !CanHappen(s, e) then s
    else
      match e
      case Arrive(row) => ArriveStep(s, row)
      case Other(x) => s.(tables := Step(s.tables, x))
      case Read(now, rows) => s.(batch := Some(Batch(rows, Lower(s.tables.cursor, now), 0)))
      case PlanNext => PlanStep(s, cohortOf)
      case Commit => CommitStep(s)
      case Crash => s.(batch := None, timely := s.timely + s.racing, racing := {})
  }

  ghost function PagingRun(s: Paging, es: seq<PagingEvent>, cohortOf: CohortOf): Paging {
    if es == [] then s else PagingStep(PagingRun(s, es[..|es| - 1], cohortOf), es[|es| - 1], cohortOf)
  }

  // ----- the invariant -------------------------------------------------------------

  ghost predicate RowPlanned(t: Tables, row: PrimaryRow, cohortOf: CohortOf) {
    var create := PlannedCreate(row, cohortOf);
    create.Some? ==> Planned(t, Create(create.value))
  }

  ghost predicate CursorInv(s: Paging) {
    && (s.tables.cursor.None? <==> s.start.None?)
    && (s.tables.cursor.None? ==> s.handled == [])
    && (s.tables.cursor.Some? ==>
          s.start.value == s.tables.cursor.value || Before(s.start.value, s.tables.cursor.value))
  }

  predicate Passed(s: Paging, row: PrimaryRow) {
    && s.tables.cursor.Some? && s.start.Some?
    && Before(s.start.value, Key(row)) && !Before(s.tables.cursor.value, Key(row))
  }

  ghost predicate HandledInv(s: Paging) {
    && InKeyOrder(s.handled)
    && (forall row :: row in s.handled ==> row in s.timely && Passed(s, row))
    && (forall row :: row in s.timely && Passed(s, row) ==> row in s.handled)
  }

  ghost predicate ArrivalInv(s: Paging) {
    && UniqueIds(s.tables.telemetry)
    && s.timely !! s.racing
    && (forall row :: row in s.timely || row in s.racing ==> row in s.tables.telemetry)
    && (forall row :: row in s.tables.telemetry && Ahead(s.tables.cursor, row) ==> row in s.timely || row in s.racing)
    && (forall row :: row in s.racing ==>
          Ahead(s.tables.cursor, row) && Horizon(s.batch).Some? && !Ahead(Horizon(s.batch), row))
  }

  /** Above the bound of the batch and not beyond its last row. */
  predicate WithinBatch(b: Batch, row: PrimaryRow) {
    Before(b.lower, Key(row)) && Horizon(Some(b)).Some? && !Ahead(Horizon(Some(b)), row)
  }

  ghost predicate BatchInv(s: Paging) {
    s.batch.Some? ==>
      var b := s.batch.value;
      && b.created <= |b.rows|
      && InKeyOrder(b.rows)
      && (s.tables.cursor.Some? ==> b.lower == s.tables.cursor.value)
      && (forall row :: row in b.rows ==> row in s.timely && Before(b.lower, Key(row)))
      && (forall row :: row in s.timely && WithinBatch(b, row) ==> row in b.rows)
  }

  ghost predicate PlannedInv(s: Paging, cohortOf: CohortOf) {
    && (forall row :: row in s.handled ==> RowPlanned(s.tables, row, cohortOf))
    && (s.batch.Some? ==> forall i :: 0 <= i < s.batch.value.created <= |s.batch.value.rows| ==>
          RowPlanned(s.tables, s.batch.value.rows[i], cohortOf))
  }

  ghost predicate PagingInv(s: Paging, cohortOf: CohortOf) {
    Inv(s.tables) && CursorInv(s) && HandledInv(s) && ArrivalInv(s) && BatchInv(s) && PlannedInv(s, cohortOf)
  }

  /** Paging as it is taken up: what lies ahead of the stored cursor, if there is one, is in time. */
  ghost function TakenUp(t: Tables): Paging {
    Paging(t, None, t.cursor, [], set row | row in t.telemetry && Ahead(t.cursor, row), {})
  }

  lemma TakenUpIsSound(t: Tables, cohortOf: CohortOf)
    requires Inv(t) && UniqueIds(t.telemetry)
    ensures PagingInv(TakenUp(t), cohortOf)
  {
  }

  // ----- every event keeps it ------------------------------------------------------

  lemma {:induction false} KeyOrderEnds(rows: seq<PrimaryRow>, row: PrimaryRow)
    requires InKeyOrder(rows) && row in rows
    ensures row == rows[|rows| - 1] || Before(Key(row), Key(rows[|rows| - 1]))
  {
    var i :| 0 <= i < |rows| && rows[i] == row;
  }

  lemma TelemetryAppends(log: seq<PrimaryRow>, row: PrimaryRow)
    ensures forall r :: r in log + [row] <==> r in log || r == row
  {
  }

  lemma RowPlannedStays(t: Tables, e: Event, row: PrimaryRow, cohortOf: CohortOf)
    requires Inv(t) && RowPlanned(t, row, cohortOf)
    ensures RowPlanned(Step(t, e), row, cohortOf)
  {
    var create := PlannedCreate(row, cohortOf);
    if create.Some? {
      PlannedForever(t, [e], Create(create.value));
      assert [e][1..] == [] && Run(Step(t, e), []) == Step(t, e);
    }
  }

  /** What one transaction on the tables leaves of the planned rows. */
  lemma TablesStepKeepsPlanned(s: Paging, e: Event, cohortOf: CohortOf)
    requires Inv(s.tables) && PlannedInv(s, cohortOf)
    ensures Inv(Step(s.tables, e)) && PlannedInv(s.(tables := Step(s.tables, e)), cohortOf)
  {
    StepKeeps(s.tables, e);
    forall row | RowPlanned(s.tables, row, cohortOf) ensures RowPlanned(Step(s.tables, e), row, cohortOf) {
      RowPlannedStays(s.tables, e, row, cohortOf);
    }
  }

  lemma NewIdIsNowhere(s: Paging, row: PrimaryRow)
    requires ArrivalInv(s) && !Logged(s, row.id)
    ensures row !in s.tables.telemetry && row !in s.timely && row !in s.racing
    ensures UniqueIds(s.tables.telemetry + [row])
  {
  }

  lemma ArriveKeepsArrivals(s: Paging, row: PrimaryRow)
    requires ArrivalInv(s) && !Logged(s, row.id)
    ensures ArrivalInv(ArriveStep(s, row)) && row !in s.timely && row !in s.racing
  {
    NewIdIsNowhere(s, row);
    TelemetryAppends(s.tables.telemetry, row);
  }

  lemma ArriveKeepsBatch(s: Paging, row: PrimaryRow)
    requires BatchInv(s) && HandledInv(s) && CursorInv(s)
    ensures BatchInv(ArriveStep(s, row)) && HandledInv(ArriveStep(s, row)) && CursorInv(ArriveStep(s, row))
  {
  }

  lemma ArriveKeepsPlanned(s: Paging, row: PrimaryRow, cohortOf: CohortOf)
    requires Inv(s.tables) && PlannedInv(s, cohortOf)
    ensures Inv(ArriveStep(s, row).tables) && PlannedInv(ArriveStep(s, row), cohortOf)
  {
    TablesStepKeepsPlanned(s, Record(row), cohortOf);
    var t := ArriveStep(s, row);
    assert t.tables == Step(s.tables, Record(row));
    PlannedLooksAtTables(s.(tables := t.tables), t, cohortOf);
  }

  lemma PlannedLooksAtTables(s: Paging, t: Paging, cohortOf: CohortOf)
    requires PlannedInv(s, cohortOf) && t.tables == s.tables && t.handled == s.handled && t.batch == s.batch
    ensures PlannedInv(t, cohortOf)
  {
  }

  lemma ArriveKeeps(s: Paging, row: PrimaryRow, cohortOf: CohortOf)
    requires PagingInv(s, cohortOf) && !Logged(s, row.id)
    ensures PagingInv(ArriveStep(s, row), cohortOf)
  {
    ArriveKeepsArrivals(s, row);
    ArriveKeepsPlanned(s, row, cohortOf);
    ArriveKeepsBatch(s, row);
  }

  /** The accounts look at nothing of the tables but telemetry and cursor. */
  lemma AccountsLookAtTelemetryAndCursor(s: Paging, t: Tables)
    requires CursorInv(s) && HandledInv(s) && ArrivalInv(s) && BatchInv(s)
    requires t.telemetry == s.tables.telemetry && t.cursor == s.tables.cursor
    ensures CursorInv(s.(tables := t)) && HandledInv(s.(tables := t))
    ensures ArrivalInv(s.(tables := t)) && BatchInv(s.(tables := t))
  {
  }

  lemma OtherKeeps(s: Paging, e: Event, cohortOf: CohortOf)
    requires PagingInv(s, cohortOf) && !e.Record? && !e.Advance?
    ensures PagingInv(s.(tables := Step(s.tables, e)), cohortOf)
  {
    TablesStepKeepsPlanned(s, e, cohortOf);
    OthersLeaveThePaging(s.tables, e);
    AccountsLookAtTelemetryAndCursor(s, Step(s.tables, e));
  }

  lemma OthersLeaveThePaging(t: Tables, e: Event)
    requires !e.Record? && !e.Advance?
    ensures Step(t, e).telemetry == t.telemetry && Step(t, e).cursor == t.cursor
  {
  }

  lemma ReadKeeps(s: Paging, now: int, rows: seq<PrimaryRow>, cohortOf: CohortOf)
    requires PagingInv(s, cohortOf) && s.batch.None?
    requires IsBatch(s.tables.telemetry, Lower(s.tables.cursor, now), now, rows)
    ensures PagingInv(s.(batch := Some(Batch(rows, Lower(s.tables.cursor, now), 0))), cohortOf)
  {
    var t := s.(batch := Some(Batch(rows, Lower(s.tables.cursor, now), 0)));
    forall row | row in s.timely && WithinBatch(t.batch.value, row) ensures row in rows {
      assert rows[|rows| - 1] in rows;
    }
  }

  lemma PlanNextKeeps(s: Paging, cohortOf: CohortOf)
    requires PagingInv(s, cohortOf) && CanHappen(s, PlanNext)
    ensures PagingInv(PlanStep(s, cohortOf), cohortOf)
  {
    var b := s.batch.value;
    var create := PlannedCreate(b.rows[b.created], cohortOf);
    if create.Some? {
      CreateNextKeeps(s, create.value, cohortOf);
    } else {
      CountOneMore(s, cohortOf);
    }
  }

  lemma CreateNextKeeps(s: Paging, r: CreateRequest, cohortOf: CohortOf)
    requires PagingInv(s, cohortOf) && CanHappen(s, PlanNext)
    requires PlannedCreate(s.batch.value.rows[s.batch.value.created], cohortOf) == Some(r)
    ensures PagingInv(PlanStep(s, cohortOf), cohortOf)
  {
    var t := s.(tables := Step(s.tables, Create(r)));
    OtherKeeps(s, Create(r), cohortOf);
    CreatePlans(s.tables, r);
    CountOneMore(t, cohortOf);
  }

  lemma CountOneMore(s: Paging, cohortOf: CohortOf)
    requires PagingInv(s, cohortOf) && s.batch.Some? && s.batch.value.created < |s.batch.value.rows|
    requires RowPlanned(s.tables, s.batch.value.rows[s.batch.value.created], cohortOf)
    ensures PagingInv(s.(batch := Some(s.batch.value.(created := s.batch.value.created + 1))), cohortOf)
  {
    var t := s.(batch := Some(s.batch.value.(created := s.batch.value.created + 1)));
    CountKeepsPlanned(s, cohortOf);
    assert Horizon(t.batch) == Horizon(s.batch);
  }

  lemma CountKeepsPlanned(s: Paging, cohortOf: CohortOf)
    requires PlannedInv(s, cohortOf) && s.batch.Some? && s.batch.value.created < |s.batch.value.rows|
    requires RowPlanned(s.tables, s.batch.value.rows[s.batch.value.created], cohortOf)
    ensures PlannedInv(s.(batch := Some(s.batch.value.(created := s.batch.value.created + 1))), cohortOf)
  {
  }

  lemma CreatePlans(t: Tables, r: CreateRequest)
    ensures Planned(Step(t, Create(r)), Create(r))
  {
  }

  lemma CommitKeepsCursor(s: Paging)
    requires CursorInv(s) && BatchInv(s) && s.batch.Some?
    ensures CursorInv(CommitStep(s))
    ensures s.batch.value.rows != [] ==> CommitStep(s).tables.cursor == Horizon(s.batch)
  {
    var rows := s.batch.value.rows;
    if rows != [] { assert rows[|rows| - 1] in rows; }
  }

  lemma CommitKeepsHandled(s: Paging)
    requires CursorInv(s) && HandledInv(s) && BatchInv(s) && s.batch.Some? && s.batch.value.rows != []
    ensures HandledInv(CommitStep(s))
  {
    var rows, t := s.batch.value.rows, CommitStep(s);
    CommitKeepsCursor(s);
    forall row | row in rows ensures row == rows[|rows| - 1] || Before(Key(row), Key(rows[|rows| - 1])) {
      KeyOrderEnds(rows, row);
    }
    assert forall row :: row in t.handled <==> row in s.handled || row in rows;
    forall i, j | 0 <= i < j < |t.handled| ensures Before(Key(t.handled[i]), Key(t.handled[j])) {
      if i < |s.handled| <= j {
        assert s.handled[i] in s.handled && rows[j - |s.handled|] in rows;
      }
    }
  }

  lemma CommitKeepsArrivals(s: Paging)
    requires CursorInv(s) && ArrivalInv(s) && BatchInv(s) && s.batch.Some?
    ensures ArrivalInv(CommitStep(s))
  {
    CommitKeepsCursor(s);
    var rows := s.batch.value.rows;
    if rows != [] { assert rows[|rows| - 1] in rows; }
  }

  lemma CommitKeepsPlanned(s: Paging, cohortOf: CohortOf)
    requires Inv(s.tables) && PlannedInv(s, cohortOf) && CanHappen(s, Commit)
    ensures Inv(CommitStep(s).tables) && PlannedInv(CommitStep(s), cohortOf)
  {
    var rows := s.batch.value.rows;
    if rows != [] {
      TablesStepKeepsPlanned(s, Advance(Key(rows[|rows| - 1])), cohortOf);
      assert forall row :: row in CommitStep(s).handled <==> row in s.handled || row in rows;
    }
  }

  lemma CommitKeeps(s: Paging, cohortOf: CohortOf)
    requires PagingInv(s, cohortOf) && CanHappen(s, Commit)
    ensures PagingInv(CommitStep(s), cohortOf)
  {
    CommitKeepsCursor(s);
    CommitKeepsArrivals(s);
    CommitKeepsPlanned(s, cohortOf);
    if s.batch.value.rows != [] { CommitKeepsHandled(s); }
  }

  lemma CrashKeeps(s: Paging, cohortOf: CohortOf)
    requires PagingInv(s, cohortOf)
    ensures PagingInv(PagingStep(s, Crash, cohortOf), cohortOf)
  {
  }

  lemma PagingStepKeeps(s: Paging, e: PagingEvent, cohortOf: CohortOf)
    requires PagingInv(s, cohortOf)
    ensures PagingInv(PagingStep(s, e, cohortOf), cohortOf)
  {
    if CanHappen(s, e) {
      match e
      case Arrive(row) => ArriveKeeps(s, row, cohortOf);
      case Other(x) => OtherKeeps(s, x, cohortOf);
      case Read(now, rows) => ReadKeeps(s, now, rows, cohortOf);
      case PlanNext => PlanNextKeeps(s, cohortOf);
      case Commit => CommitKeeps(s, cohortOf);
      case Crash => CrashKeeps(s, cohortOf);
    }
  }

  lemma {:induction false} PagingRunKeeps(s: Paging, es: seq<PagingEvent>, cohortOf: CohortOf)
    requires PagingInv(s, cohortOf)
    ensures PagingInv(PagingRun(s, es, cohortOf), cohortOf)
  {
    if es != [] {
      PagingRunKeeps(s, es[..|es| - 1], cohortOf);
      PagingStepKeeps(PagingRun(s, es[..|es| - 1], cohortOf), es[|es| - 1], cohortOf);
    }
  }

  // ----- the main results ----------------------------------------------------------

  /**
   From any stored cursor, or none, over any run of arrivals, other transactions, planner runs and
   crashes: the rows behind the cursor that are handled are those that arrived in time, in key
   order and hence each once, and every one of them has its chain and its source in the tables.
   */
  lemma EveryEventIsPlannedOnce(t: Tables, es: seq<PagingEvent>, cohortOf: CohortOf)
    requires Inv(t) && UniqueIds(t.telemetry)
    ensures var s := PagingRun(TakenUp(t), es, cohortOf);
            && InKeyOrder(s.handled)
            && (forall row :: row in s.handled ==> Passed(s, row) && RowPlanned(s.tables, row, cohortOf))
            && (forall row :: row in s.tables.telemetry && Passed(s, row) ==> (row in s.handled <==> row in s.timely))
  {
    TakenUpIsSound(t, cohortOf);
    PagingRunKeeps(TakenUp(t), es, cohortOf);
  }

  lemma {:induction false} TimelyAndHandledOnlyGrow(s: Paging, es: seq<PagingEvent>, cohortOf: CohortOf)
    ensures s.timely <= PagingRun(s, es, cohortOf).timely
    ensures forall row :: row in s.handled ==> row in PagingRun(s, es, cohortOf).handled
  {
    if es != [] { TimelyAndHandledOnlyGrow(s, es[..|es| - 1], cohortOf); }
  }

  /** Once handled, a row has its chain and its source in the tables for ever. */
  lemma HandledRowsStayPlanned(s: Paging, es: seq<PagingEvent>, cohortOf: CohortOf, row: PrimaryRow)
    requires PagingInv(s, cohortOf) && row in s.handled
    ensures RowPlanned(PagingRun(s, es, cohortOf).tables, row, cohortOf)
  {
    PagingRunKeeps(s, es, cohortOf);
    TimelyAndHandledOnlyGrow(s, es, cohortOf);
  }

  predicate Untimely(s: Paging, row: PrimaryRow) {
    row in s.tables.telemetry && row !in s.timely && row !in s.racing
  }

  lemma UntimelyStaysSo(s: Paging, e: PagingEvent, cohortOf: CohortOf, row: PrimaryRow)
    requires Untimely(s, row)
    ensures Untimely(PagingStep(s, e, cohortOf), row)
  {
    if CanHappen(s, e) {
      match e
      case Arrive(other) =>
        var i :| 0 <= i < |s.tables.telemetry| && s.tables.telemetry[i] == row;
        assert other.id != row.id;
      case Other(x) => OthersLeaveThePaging(s.tables, x);
      case Read(_, _) =>
      case PlanNext =>
      case Commit =>
      case Crash =>
    }
  }

  lemma {:induction false} UntimelyForever(s: Paging, es: seq<PagingEvent>, cohortOf: CohortOf, row: PrimaryRow)
    requires Untimely(s, row)
    ensures Untimely(PagingRun(s, es, cohortOf), row)
  {
    if es != [] {
      UntimelyForever(s, es[..|es| - 1], cohortOf, row);
      UntimelyStaysSo(PagingRun(s, es[..|es| - 1], cohortOf), es[|es| - 1], cohortOf, row);
    }
  }

  /** The row arrives ahead of the cursor, but not of the batch that a run is just planning. */
  predicate Races(s: Paging, row: PrimaryRow) {
    Ahead(s.tables.cursor, row) && Horizon(s.batch).Some? && !Ahead(Horizon(s.batch), row)
  }

  /** In any continuation, a row behind the cursor was handled exactly if it arrived ahead of the cursor. */
  lemma ArrivalDecides(s: Paging, row: PrimaryRow, es: seq<PagingEvent>, cohortOf: CohortOf)
    requires PagingInv(s, cohortOf) && !Logged(s, row.id) && !Races(s, row)
    ensures var t := PagingRun(ArriveStep(s, row), es, cohortOf);
            Passed(t, row) ==> (row in t.handled <==> Ahead(s.tables.cursor, row))
  {
    var u := ArriveStep(s, row);
    ArriveKeeps(s, row, cohortOf);
    ArriveKeepsArrivals(s, row);
    PagingRunKeeps(u, es, cohortOf);
    if Ahead(s.tables.cursor, row) {
      TimelyAndHandledOnlyGrow(u, es, cohortOf);
    } else {
      UntimelyForever(u, es, cohortOf, row);
    }
  }

  /** A row that raced a run is missed exactly if that run moves the cursor, and handled if it dies. */
  lemma RaceIsDecidedByTheRun(s: Paging, row: PrimaryRow, end: PagingEvent, es: seq<PagingEvent>, cohortOf: CohortOf)
    requires PagingInv(s, cohortOf) && row in s.racing && (end == Commit || end == Crash) && CanHappen(s, end)
    ensures var t := PagingRun(PagingStep(s, end, cohortOf), es, cohortOf);
            Passed(t, row) ==> (row in t.handled <==> end == Crash)
  {
    var u := PagingStep(s, end, cohortOf);
    PagingStepKeeps(s, end, cohortOf);
    PagingRunKeeps(u, es, cohortOf);
    if end == Crash {
      TimelyAndHandledOnlyGrow(u, es, cohortOf);
    } else {
      RacingIsNotTimely(s, row, cohortOf);
      UntimelyForever(u, es, cohortOf, row);
    }
  }

  /** What races was not read, and what is in time and within the batch was. */
  lemma RacingIsNotTimely(s: Paging, row: PrimaryRow, cohortOf: CohortOf)
    requires PagingInv(s, cohortOf) && row in s.racing && CanHappen(s, Commit)
    ensures Untimely(PagingStep(s, Commit, cohortOf), row)
  {
  }

  // ----- arrivals in order ---------------------------------------------------------

  /** Every arrival of the run is ahead of the cursor and of the batch under way. */
  ghost predicate InOrder(s: Paging, es: seq<PagingEvent>, cohortOf: CohortOf) {
    es == [] ||
    var before, e := PagingRun(s, es[..|es| - 1], cohortOf), es[|es| - 1];
    && InOrder(s, es[..|es| - 1], cohortOf)
    && (e.Arrive? ==> Ahead(before.tables.cursor, e.row) && !Races(before, e.row))
  }

  ghost predicate NoneLate(s: Paging) {
    forall row :: row in s.tables.telemetry ==> row in s.timely || (s.start.Some? && !Before(s.start.value, Key(row)))
  }

  lemma InOrderStepKeeps(s: Paging, e: PagingEvent, cohortOf: CohortOf)
    requires NoneLate(s) && (e.Arrive? ==> Ahead(s.tables.cursor, e.row) && !Races(s, e.row))
    ensures NoneLate(PagingStep(s, e, cohortOf))
  {
    if CanHappen(s, e) {
      match e
      case Arrive(row) => TelemetryAppends(s.tables.telemetry, row);
      case Other(x) => OthersLeaveThePaging(s.tables, x);
      case Read(_, _) =>
      case PlanNext =>
      case Commit =>
      case Crash =>
    }
  }

  lemma {:induction false} InOrderKeeps(s: Paging, es: seq<PagingEvent>, cohortOf: CohortOf)
    requires NoneLate(s) && InOrder(s, es, cohortOf)
    ensures NoneLate(PagingRun(s, es, cohortOf))
  {
    if es != [] {
      InOrderKeeps(s, es[..|es| - 1], cohortOf);
      InOrderStepKeeps(PagingRun(s, es[..|es| - 1], cohortOf), es[|es| - 1], cohortOf);
    }
  }

  /** If events arrive in cursor order, every logged row between the start and the cursor is handled. */
  lemma InOrderArrivalsAreAllHandled(t: Tables, es: seq<PagingEvent>, cohortOf: CohortOf)
    requires Inv(t) && UniqueIds(t.telemetry) && InOrder(TakenUp(t), es, cohortOf)
    ensures var s := PagingRun(TakenUp(t), es, cohortOf);
            forall row :: row in s.tables.telemetry && Passed(s, row) ==> row in s.handled
  {
    EveryEventIsPlannedOnce(t, es, cohortOf);
    InOrderKeeps(TakenUp(t), es, cohortOf);
  }

  /** While a row is due ahead of the cursor, a run reads a batch, all of what is due if it is short. */
  lemma PlansMakeProgress(s: Paging, now: int, rows: seq<PrimaryRow>, row: PrimaryRow, cohortOf: CohortOf)
    requires CanHappen(s, Read(now, rows)) && row in s.tables.telemetry
    requires AfterCursor(row, Lower(s.tables.cursor, now), now)
    ensures rows != []
    ensures |rows| < BATCH_LIMIT ==> row in rows
  {
  }

  /** And a run that ends moves the cursor strictly forward, to its last row. */
  lemma CommitMovesTheCursor(s: Paging, cohortOf: CohortOf)
    requires PagingInv(s, cohortOf) && CanHappen(s, Commit) && s.batch.value.rows != []
    ensures var t := PagingStep(s, Commit, cohortOf);
            && t.tables.cursor == Horizon(s.batch)
            && (s.tables.cursor.Some? ==> Before(s.tables.cursor.value, t.tables.cursor.value))
  {
    CommitKeepsCursor(s);
    assert s.batch.value.rows[|s.batch.value.rows| - 1] in s.batch.value.rows;
  }

  // ----- an undisturbed run is plan_once -------------------------------------------

  lemma {:induction false} PagingRunAppends(s: Paging, a: seq<PagingEvent>, b: seq<PagingEvent>, cohortOf: CohortOf)
    ensures PagingRun(s, a + b, cohortOf) == PagingRun(PagingRun(s, a, cohortOf), b, cohortOf)
  {
    if b == [] {
      assert a + b == a;
    } else {
      assert (a + b)[..|a + b| - 1] == a + b[..|b| - 1];
      PagingRunAppends(s, a, b[..|b| - 1], cohortOf);
    }
  }

  function PlanNexts(k: nat): (es: seq<PagingEvent>)
    ensures |es| == k
  {
    if k == 0 then [] else PlanNexts(k - 1) + [PlanNext]
  }

  function Others(es: seq<Event>): (others: seq<PagingEvent>)
    ensures |others| == |es|
  {
    if es == [] then [] else Others(es[..|es| - 1]) + [Other(es[|es| - 1])]
  }

  /** The paging when the first `k` rows of a batch have their chains. */
  ghost function Created(s: Paging, b: Batch, k: nat, cohortOf: CohortOf): Paging
    requires k <= |b.rows|
  {
    s.(tables := Run(s.tables, RowEvents(b.rows[..k], cohortOf)), batch := Some(b.(created := k)))
  }

  lemma OneMoreIsCreated(s: Paging, b: Batch, k: nat, cohortOf: CohortOf)
    requires k < |b.rows|
    ensures PagingStep(Created(s, b, k, cohortOf), PlanNext, cohortOf) == Created(s, b, k + 1, cohortOf)
  {
    OneMoreRow(b.rows, k, cohortOf);
    var create := PlannedCreate(b.rows[k], cohortOf);
    if create.Some? { RunOneMore(s.tables, RowEvents(b.rows[..k], cohortOf), Create(create.value)); }
  }

  lemma {:induction false} RowsAreCreated(s: Paging, b: Batch, k: nat, cohortOf: CohortOf)
    requires s.batch == Some(b) && b.created == 0 && k <= |b.rows|
    ensures PagingRun(s, PlanNexts(k), cohortOf) == Created(s, b, k, cohortOf)
  {
    if k > 0 {
      RowsAreCreated(s, b, k - 1, cohortOf);
      assert PlanNexts(k)[..k - 1] == PlanNexts(k - 1);
      OneMoreIsCreated(s, b, k - 1, cohortOf);
    }
  }

  lemma {:induction false} OthersAreRun(s: Paging, es: seq<Event>, cohortOf: CohortOf)
    requires CreatesOnly(es)
    ensures PagingRun(s, Others(es), cohortOf) == s.(tables := Run(s.tables, es))
  {
    if es != [] {
      var before := es[..|es| - 1];
      OthersAreRun(s, before, cohortOf);
      assert Others(es)[..|es| - 1] == Others(before);
      RunOneMore(s.tables, before, es[|es| - 1]);
      assert es == before + [es[|es| - 1]];
    }
  }

  /** The events of a planner run with nothing in between. */
  function PlannerRun(now: int, rows: seq<PrimaryRow>, slots: seq<Slot>, cohortOf: CohortOf): seq<PagingEvent> {
    [Read(now, rows)] + PlanNexts(|rows|) + Others(SlotEvents(slots, cohortOf)) + [Other(Reconcile(now))] + [Commit]
  }

  lemma OneEvent(s: Paging, e: PagingEvent, cohortOf: CohortOf)
    ensures PagingRun(s, [e], cohortOf) == PagingStep(s, e, cohortOf)
  {
    assert [e][..0] == [];
  }

  lemma CreatesLeaveTheCursor(t: Tables, es: seq<Event>)
    requires CreatesOnly(es)
    ensures Run(t, es).cursor == t.cursor
    decreases |es|
  {
    if es != [] { CreatesLeaveTheCursor(Step(t, es[0]), es[1..]); }
  }

  /** What the run does to the paging up to its reconciliation. */
  lemma RunUpToItsEnd(s: Paging, now: int, rows: seq<PrimaryRow>, slots: seq<Slot>, cohortOf: CohortOf)
    requires CanHappen(s, Read(now, rows))
    ensures PagingRun(s, [Read(now, rows)] + PlanNexts(|rows|) + Others(SlotEvents(slots, cohortOf)), cohortOf)
         == s.(tables := Run(Run(s.tables, RowEvents(rows, cohortOf)), SlotEvents(slots, cohortOf)),
               batch := Some(Batch(rows, Lower(s.tables.cursor, now), |rows|)))
  {
    var b := Batch(rows, Lower(s.tables.cursor, now), 0);
    var read := s.(batch := Some(b));
    OneEvent(s, Read(now, rows), cohortOf);
    RowsAreCreated(read, b, |rows|, cohortOf);
    assert rows[..|rows|] == rows;
    PagingRunAppends(s, [Read(now, rows)], PlanNexts(|rows|), cohortOf);
    SlotEventsAreCreates(slots, cohortOf);
    PagingRunAppends(s, [Read(now, rows)] + PlanNexts(|rows|), Others(SlotEvents(slots, cohortOf)), cohortOf);
    OthersAreRun(PagingRun(s, [Read(now, rows)] + PlanNexts(|rows|), cohortOf), SlotEvents(slots, cohortOf), cohortOf);
  }

  /** Such a run leaves the tables as `PlanOnce` does, and its batch is handled. */
  lemma PlannerRunIsPlanOnce(s: Paging, now: int, rows: seq<PrimaryRow>, slots: seq<Slot>, cohortOf: CohortOf)
    requires CanHappen(s, Read(now, rows))
    ensures var t := PagingRun(s, PlannerRun(now, rows, slots, cohortOf), cohortOf);
            && t.tables == PlanTables(s.tables, rows, slots, cohortOf, now)
            && t.handled == s.handled + rows && t.batch == None
  {
    var first := [Read(now, rows)] + PlanNexts(|rows|) + Others(SlotEvents(slots, cohortOf));
    RunUpToItsEnd(s, now, rows, slots, cohortOf);
    var end := PagingRun(s, first, cohortOf);
    PagingRunAppends(s, first, [Other(Reconcile(now))], cohortOf);
    OneEvent(end, Other(Reconcile(now)), cohortOf);
    PagingRunAppends(s, first + [Other(Reconcile(now))], [Commit], cohortOf);
    OneEvent(end.(tables := ReconcileTables(end.tables, now)), Commit, cohortOf);
  }

  // ----- a late arrival ------------------------------------------------------------

  const EARLY := PrimaryRow(1, "window", "a", 10, FreshPublished, NoReason, false)
  const LATE := PrimaryRow(2, "window", "b", 9, Failed, UnknownReason, false)

  /** The paging after the first row arrived and was planned at 10. */
  ghost function EarlyPlanned(cohortOf: CohortOf): Paging {
    PagingRun(TakenUp(EMPTY_TABLES), [Arrive(EARLY)] + PlannerRun(10, [EARLY], [], cohortOf), cohortOf)
  }

  lemma EarlyPlansNothing(cohortOf: CohortOf)
    ensures var t := PlanTables(EMPTY_TABLES.(telemetry := [EARLY]), [EARLY], [], cohortOf, 10);
            t.telemetry == [EARLY] && t.cursor == Some(Cursor(10, 1))
  {
    assert [EARLY][..0] == [];
    assert RowEvents([EARLY], cohortOf) == [];
  }

  lemma EarlyIsPlanned(cohortOf: CohortOf)
    ensures var s := EarlyPlanned(cohortOf);
            && PagingInv(s, cohortOf)
            && s.tables.telemetry == [EARLY] && s.tables.cursor == Some(Cursor(10, 1)) && s.start.Some?
  {
    var empty := TakenUp(EMPTY_TABLES);
    TakenUpIsSound(EMPTY_TABLES, cohortOf);
    OneEvent(empty, Arrive(EARLY), cohortOf);
    PagingRunAppends(empty, [Arrive(EARLY)], PlannerRun(10, [EARLY], [], cohortOf), cohortOf);
    EarlyIsRead();
    PlannerRunIsPlanOnce(ArriveStep(empty, EARLY), 10, [EARLY], [], cohortOf);
    EarlyPlansNothing(cohortOf);
    PagingRunKeeps(empty, [Arrive(EARLY)] + PlannerRun(10, [EARLY], [], cohortOf), cohortOf);
  }

  lemma EarlyIsRead()
    ensures var s := ArriveStep(TakenUp(EMPTY_TABLES), EARLY);
            && CanHappen(TakenUp(EMPTY_TABLES), Arrive(EARLY)) && s.tables == EMPTY_TABLES.(telemetry := [EARLY])
            && CanHappen(s, Read(10, [EARLY]))
  {
  }

  /** A refresh that finished at 9 is recorded after the run that went up to 10: it is never handled. */
  lemma LateArrivalIsMissed(es: seq<PagingEvent>, cohortOf: CohortOf)
    ensures var s := EarlyPlanned(cohortOf);
            && s.tables.cursor == Some(Cursor(10, 1)) && CanHappen(s, Arrive(LATE))
            && LATE in PagingStep(s, Arrive(LATE), cohortOf).tables.telemetry
            && LATE !in PagingRun(PagingStep(s, Arrive(LATE), cohortOf), es, cohortOf).handled
  {
    EarlyIsPlanned(cohortOf);
    LateRowIsNeverHandled(EarlyPlanned(cohortOf), LATE, es, cohortOf);
  }

  /** Whatever arrives behind the cursor is never handled. */
  lemma LateRowIsNeverHandled(s: Paging, row: PrimaryRow, es: seq<PagingEvent>, cohortOf: CohortOf)
    requires PagingInv(s, cohortOf) && !Logged(s, row.id) && !Ahead(s.tables.cursor, row)
    ensures row !in PagingRun(ArriveStep(s, row), es, cohortOf).handled
  {
    ArriveKeeps(s, row, cohortOf);
    ArriveKeepsArrivals(s, row);
    PagingRunKeeps(ArriveStep(s, row), es, cohortOf);
    UntimelyForever(ArriveStep(s, row), es, cohortOf, row);
  }
}
