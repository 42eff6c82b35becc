/**
 Whole runs of the usage ledger, by any number of processes: every granted reservation is
 settled exactly once, the counts add up in every period, and a tripped circuit grants
 nothing before its cooldown ends.
 */
module UsageRuns {
  import opened Options
  import opened UsageLedger

  datatype Event =
    | ReserveEvent(id: Id, at: Moment)
    | FinishEvent(id: Id, at: Moment, billed: Option<bool>, succeeded: bool)

  /**
   The ledger with the history it does not store: which ids were granted, which of them a finish
   or an expiry settled, and how many settlements (of them unbilled) the current period has seen
   since it began with `baseline` requests billed.
   */
  datatype Audit = Audit(
    ledger: Ledger,
    granted: set<Id>,
    finished: set<Id>,
    expired: set<Id>,
    baseline: int,
    settledInPeriod: int,
    unbilledInPeriod: int)

  function Rolls(l: Ledger, at: Moment): bool {
    l.period < at.period
  }

  function ReserveAudit(a: Audit, id: Id, at: Moment, cfg: Config): Audit {
    var l := a.ledger;
    if cfg.limit <= 0 || at.period < l.period then a
    else
      var (after, result) := Reserve(l, id, at, cfg);
      var stale := StaleIds(l, at.at);
      var settled, unbilled, baseline :=
        if Rolls(l, at) then 0 else a.settledInPeriod,
        if Rolls(l, at) then 0 else a.unbilledInPeriod,
        if Rolls(l, at) then 0 else a.baseline;
      Audit(after, if result == Granted then a.granted + {id} else a.granted, a.finished, a.expired + stale,
            baseline, settled + |stale|, unbilled)
  }

  function FinishAudit(a: Audit, e: Event, cfg: Config): Audit
    requires e.FinishEvent?
  {
    var (after, done) := Finish(a.ledger, e.id, e.at, e.billed, e.succeeded, cfg);
    if !done then a
    else a.(ledger := after, finished := a.finished + {e.id}, settledInPeriod := a.settledInPeriod + 1,
            unbilledInPeriod := a.unbilledInPeriod + if e.billed == Some(false) then 1 else 0)
  }

  /** Ids are fresh UUIDs: one that was granted before is never drawn again. */
  function Step(a: Audit, e: Event, cfg: Config): Audit {
    match e
    case ReserveEvent(id, at) => if id in a.granted then a else ReserveAudit(a, id, at, cfg)
    case FinishEvent(_, _, _, _) => FinishAudit(a, e, cfg)
  }

  function Run(a: Audit, es: seq<Event>, cfg: Config): Audit
    decreases |es|
  {
    if es == [] then a else Run(Step(a, es[0], cfg), es[1..], cfg)
  }

  /** The ledger as an operator creates it from a baseline. */
  function Initial(period: int, baseline: int): Audit {
    Audit(EmptyLedger(period).(billed := baseline), {}, {}, {}, baseline, 0, 0)
  }

  /** Every granted id is outstanding, finished or expired, and only one of these. */
  ghost predicate Settles(outstanding: set<Id>, granted: set<Id>, finished: set<Id>, expired: set<Id>) {
    && granted == outstanding + finished + expired
    && outstanding !! finished
    && (outstanding + finished) !! expired
  }

  /** The period's attempts are settled or outstanding, and what was settled was billed or not. */
  predicate Counts(a: Audit) {
    && a.ledger.attempts == a.settledInPeriod + |a.ledger.reservations|
    && a.ledger.billed + a.unbilledInPeriod == a.baseline + a.settledInPeriod
    && 0 <= a.unbilledInPeriod <= a.settledInPeriod
  }

  ghost predicate Inv(a: Audit, cfg: Config) {
    Sound(a.ledger, cfg) && Settles(a.ledger.reservations.Keys, a.granted, a.finished, a.expired) && Counts(a)
  }

  // ----- what one operation does to the record -------------------------------------

  lemma SweepStaysSound(l: Ledger, at: Moment, cfg: Config)
    requires Sound(l, cfg)
    ensures Sound(Expired(Loaded(l, at), at.at, cfg), cfg)
  {
    LoadedStaysSound(l, at, cfg);
    ExpiredStaysSound(Loaded(l, at), at.at, cfg);
  }

  lemma SweepEffects(l: Ledger, at: Moment, cfg: Config)
    ensures var e, stale := Expired(Loaded(l, at), at.at, cfg), StaleIds(l, at.at);
            && stale <= l.reservations.Keys
            && e.reservations.Keys == l.reservations.Keys - stale
            && |e.reservations| == |l.reservations| - |stale|
            && e.attempts == (if Rolls(l, at) then |l.reservations| else l.attempts)
            && e.billed == (if Rolls(l, at) then 0 else l.billed) + |stale|
  {
    assert StaleIds(Loaded(l, at), at.at) == StaleIds(l, at.at);
  }

  lemma ReserveEffects(l: Ledger, id: Id, at: Moment, cfg: Config)
    requires Sound(l, cfg) && id !in l.reservations && 0 < cfg.limit && l.period <= at.period
    ensures var (after, result) := Reserve(l, id, at, cfg);
            var e := Expired(Loaded(l, at), at.at, cfg);
            && Sound(after, cfg)
            && id !in e.reservations
            && after == (if result == Granted
                         then e.(reservations := e.reservations[id := at.at], attempts := e.attempts + 1)
                         else e)
            && after.reservations.Keys == e.reservations.Keys + (if result == Granted then {id} else {})
            && |after.reservations| == |e.reservations| + (if result == Granted then 1 else 0)
            && (result == Granted ==> e.openUntil.None? || e.openUntil.value <= at.at)
  {
    SweepStaysSound(l, at, cfg);
    SweepEffects(l, at, cfg);
    AdmitEffects(Expired(Loaded(l, at), at.at, cfg), id, at.at, cfg);
    GrantedExactlyWhen(Expired(Loaded(l, at), at.at, cfg), id, at.at, cfg);
  }

  lemma FinishEffects(l: Ledger, e: Event, cfg: Config)
    requires Sound(l, cfg) && e.FinishEvent?
    ensures var (after, done) := Finish(l, e.id, e.at, e.billed, e.succeeded, cfg);
            && Sound(after, cfg)
            && (!done ==> after == l)
            && (done ==> e.id in l.reservations
                         && after.reservations.Keys == l.reservations.Keys - {e.id}
                         && |after.reservations| == |l.reservations| - 1
                         && after.attempts == l.attempts
                         && after.billed == l.billed + if e.billed == Some(false) then 0 else 1)
            && (after.openUntil.Some? && after.openUntil != l.openUntil ==> after.reservations == map[])
  {
    FinishStaysSound(l, e.id, e.at, e.billed, e.succeeded, cfg);
  }

  lemma ReserveCounts(a: Audit, id: Id, at: Moment, cfg: Config)
    requires Sound(a.ledger, cfg) && Counts(a) && id !in a.ledger.reservations
    requires 0 < cfg.limit && a.ledger.period <= at.period
    ensures Counts(ReserveAudit(a, id, at, cfg)) && Sound(ReserveAudit(a, id, at, cfg).ledger, cfg)
  {
    SweepEffects(a.ledger, at, cfg);
    ReserveEffects(a.ledger, id, at, cfg);
  }

  lemma ReserveKeeps(a: Audit, id: Id, at: Moment, cfg: Config)
    requires Inv(a, cfg) && id !in a.granted
    ensures Inv(ReserveAudit(a, id, at, cfg), cfg)
  {
    if 0 < cfg.limit && a.ledger.period <= at.period {
      ReserveCounts(a, id, at, cfg);
      SweepEffects(a.ledger, at, cfg);
      ReserveEffects(a.ledger, id, at, cfg);
      var granted := Reserve(a.ledger, id, at, cfg).1 == Granted;
      ReservingSettles(a.ledger.reservations.Keys, a.granted, a.finished, a.expired, StaleIds(a.ledger, at.at),
        if granted then {id} else {});
    }
  }

  lemma ReservingSettles(
      outstanding: set<Id>, granted: set<Id>, finished: set<Id>, expired: set<Id>, stale: set<Id>, drawn: set<Id>)
    requires Settles(outstanding, granted, finished, expired) && stale <= outstanding && drawn !! granted
    ensures Settles(outstanding - stale + drawn, granted + drawn, finished, expired + stale)
  {
  }

  lemma FinishKeeps(a: Audit, e: Event, cfg: Config)
    requires Inv(a, cfg) && e.FinishEvent?
    ensures Inv(FinishAudit(a, e, cfg), cfg)
  {
    FinishEffects(a.ledger, e, cfg);
    if e.id in a.ledger.reservations {
      FinishingSettles(a.ledger.reservations.Keys, a.granted, a.finished, a.expired, e.id);
    }
  }

  lemma FinishingSettles(outstanding: set<Id>, granted: set<Id>, finished: set<Id>, expired: set<Id>, id: Id)
    requires Settles(outstanding, granted, finished, expired) && id in outstanding
    ensures Settles(outstanding - {id}, granted, finished + {id}, expired)
  {
  }

  lemma StepKeeps(a: Audit, e: Event, cfg: Config)
    requires Inv(a, cfg)
    ensures Inv(Step(a, e, cfg), cfg)
  {
    match e
    case ReserveEvent(id, at) => if id !in a.granted { ReserveKeeps(a, id, at, cfg); }
    case FinishEvent(_, _, _, _) => FinishKeeps(a, e, cfg);
  }

  lemma {:induction false} RunKeeps(a: Audit, es: seq<Event>, cfg: Config)
    requires Inv(a, cfg)
    ensures Inv(Run(a, es, cfg), cfg)
    decreases |es|
  {
    if es != [] {
      StepKeeps(a, es[0], cfg);
      RunKeeps(Step(a, es[0], cfg), es[1..], cfg);
    }
  }

  // ----- the main results ----------------------------------------------------------

  /**
   From any valid baseline, after any run: the budget holds with every outstanding reservation
   counted in, each granted reservation is in exactly one of outstanding, finished and expired,
   and the period's counts add up.
   */
  lemma BudgetAndSettlement(period: int, baseline: int, es: seq<Event>, cfg: Config)
    requires 0 <= baseline <= cfg.limit
    ensures var a := Run(Initial(period, baseline), es, cfg);
            && a.ledger.billed + |a.ledger.reservations| <= cfg.limit
            && a.granted == a.ledger.reservations.Keys + a.finished + a.expired
            && |a.granted| == |a.ledger.reservations| + |a.finished| + |a.expired|
            && a.ledger.attempts == a.settledInPeriod + |a.ledger.reservations|
            && a.ledger.billed == a.baseline + a.settledInPeriod - a.unbilledInPeriod
  {
    RunKeeps(Initial(period, baseline), es, cfg);
    var a := Run(Initial(period, baseline), es, cfg);
    assert |a.ledger.reservations.Keys + a.finished| == |a.ledger.reservations.Keys| + |a.finished|;
  }

  /** The breaker's bound in every reachable ledger. */
  lemma BreakerBoundsOutstanding(period: int, baseline: int, es: seq<Event>, cfg: Config)
    requires 0 <= baseline <= cfg.limit
    ensures var l := Run(Initial(period, baseline), es, cfg).ledger;
            && (l.failures < Threshold(cfg) ==> l.failures + |l.reservations| <= Threshold(cfg))
            && (Threshold(cfg) <= l.failures ==> |l.reservations| <= 1)
            && (Threshold(cfg) <= l.failures <==> l.openUntil.Some?)
  {
    RunKeeps(Initial(period, baseline), es, cfg);
  }

  /**
   Two branches of the admission are dead: after any run, whoever asks next and whenever, the
   expired record decides the same without the branch that clears a cooldown below the threshold
   and without the one that sets a missing cooldown at it.
   */
  lemma DeadBranches(period: int, baseline: int, es: seq<Event>, id: Id, at: Moment, cfg: Config)
    requires 0 <= baseline <= cfg.limit
    ensures var l := Expired(Loaded(Run(Initial(period, baseline), es, cfg).ledger, at), at.at, cfg);
            && (l.openUntil.Some? <==> Threshold(cfg) <= l.failures)
            && Admit(l, id, at.at, cfg) == ShortAdmit(l, id, at.at, cfg)
  {
    RunKeeps(Initial(period, baseline), es, cfg);
    var l := Run(Initial(period, baseline), es, cfg).ledger;
    SweepStaysSound(l, at, cfg);
    SoundAdmissionIsShort(Expired(Loaded(l, at), at.at, cfg), id, at.at, cfg);
  }

  /** A settlement is final and settles an id that was outstanding: nothing is settled twice. */
  lemma SettledOnce(a: Audit, e: Event, cfg: Config, id: Id)
    requires Inv(a, cfg)
    ensures id in a.finished + a.expired ==> id in Step(a, e, cfg).finished + Step(a, e, cfg).expired
    ensures id in a.finished + a.expired ==> id !in Step(a, e, cfg).ledger.reservations
    ensures id in Step(a, e, cfg).finished + Step(a, e, cfg).expired && id !in a.finished + a.expired ==>
              id in a.ledger.reservations
  {
    StepKeeps(a, e, cfg);
    var b := Step(a, e, cfg);
    assert a.finished <= b.finished && a.expired <= b.expired by { StepOnlySettles(a, e, cfg); }
    assert (b.finished - a.finished) + (b.expired - a.expired) <= a.ledger.reservations.Keys by {
      StepOnlySettles(a, e, cfg);
    }
  }

  lemma StepOnlySettles(a: Audit, e: Event, cfg: Config)
    ensures a.finished <= Step(a, e, cfg).finished && a.expired <= Step(a, e, cfg).expired
    ensures (Step(a, e, cfg).finished - a.finished) + (Step(a, e, cfg).expired - a.expired)
            <= a.ledger.reservations.Keys
  {
  }

  lemma ReserveTripsEmpty(l: Ledger, id: Id, at: Moment, cfg: Config)
    requires Sound(l, cfg) && id !in l.reservations && 0 < cfg.limit && l.period <= at.period
    requires Reserve(l, id, at, cfg).0.openUntil.Some? && Reserve(l, id, at, cfg).0.openUntil != l.openUntil
    ensures |Reserve(l, id, at, cfg).0.reservations| == 0
  {
    LoadedStaysSound(l, at, cfg);
    ReserveEffects(l, id, at, cfg);
    ExpiryTripsEmpty(Loaded(l, at), at.at, cfg);
  }

  /** Any step that sets or moves the circuit's opening leaves no reservation outstanding. */
  lemma TripLeavesNothingOutstanding(a: Audit, e: Event, cfg: Config)
    requires Inv(a, cfg)
    requires Step(a, e, cfg).ledger.openUntil.Some? && Step(a, e, cfg).ledger.openUntil != a.ledger.openUntil
    ensures Step(a, e, cfg).ledger.reservations == map[]
  {
    match e
    case ReserveEvent(id, at) => ReserveTripsEmpty(a.ledger, id, at, cfg);
    case FinishEvent(_, _, _, _) => FinishEffects(a.ledger, e, cfg);
  }

  function EventTime(e: Event): int {
    e.at.at
  }

  /**
   Until the cooldown ends nothing changes about a tripped circuit: no reservation is granted,
   whatever is asked, finished or rolled over meanwhile.
   */
  lemma {:induction false} NothingGrantedBeforeCooldown(a: Audit, es: seq<Event>, until: int, cfg: Config)
    requires Inv(a, cfg) && a.ledger.openUntil == Some(until) && a.ledger.reservations == map[]
    requires forall i :: 0 <= i < |es| ==> EventTime(es[i]) < until
    ensures var b := Run(a, es, cfg);
            && b.granted == a.granted && b.ledger.reservations == map[]
            && b.ledger.openUntil == Some(until) && b.ledger.failures == a.ledger.failures
    decreases |es|
  {
    if es != [] {
      StepKeeps(a, es[0], cfg);
      NothingGrantedAt(a, es[0], until, cfg);
      NothingGrantedBeforeCooldown(Step(a, es[0], cfg), es[1..], until, cfg);
    }
  }

  lemma RefusedWhileOpen(l: Ledger, id: Id, at: Moment, until: int, cfg: Config)
    requires l.openUntil == Some(until) && l.reservations == map[] && at.at < until
    ensures Reserve(l, id, at, cfg).1 != Granted && Reserve(l, id, at, cfg).0 in {l, Loaded(l, at)}
  {
    assert StaleIds(Loaded(l, at), at.at) == {};
    assert map[] - {} == l.reservations;
  }

  lemma NothingGrantedAt(a: Audit, e: Event, until: int, cfg: Config)
    requires a.ledger.openUntil == Some(until) && a.ledger.reservations == map[] && EventTime(e) < until
    ensures var b := Step(a, e, cfg);
            && b.granted == a.granted && b.ledger.reservations == map[]
            && b.ledger.openUntil == Some(until) && b.ledger.failures == a.ledger.failures
  {
    match e
    case ReserveEvent(id, at) => RefusedWhileOpen(a.ledger, id, at, until, cfg);
    case FinishEvent(_, _, _, _) =>
  }

  lemma {:induction false} OthersNeverFinishOurs(a: Audit, es: seq<Event>, id: Id, cfg: Config)
    requires id in a.granted && id !in a.finished
    requires forall i :: 0 <= i < |es| && es[i].FinishEvent? ==> es[i].id != id
    ensures id in Run(a, es, cfg).granted && id !in Run(a, es, cfg).finished
    decreases |es|
  {
    if es != [] {
      var b := Step(a, es[0], cfg);
      assert id in b.granted && id !in b.finished;
      OthersNeverFinishOurs(b, es[1..], id, cfg);
    }
  }

  /**
   While other processes run, a granted reservation stays outstanding for its own finish or is
   charged by an expiry; nothing else settles it.
   */
  lemma OursUntilFinishedOrCharged(a: Audit, es: seq<Event>, id: Id, cfg: Config)
    requires Inv(a, cfg) && id in a.granted && id !in a.finished
    requires forall i :: 0 <= i < |es| && es[i].FinishEvent? ==> es[i].id != id
    ensures id in Run(a, es, cfg).ledger.reservations <==> id !in Run(a, es, cfg).expired
  {
    RunKeeps(a, es, cfg);
    OthersNeverFinishOurs(a, es, id, cfg);
  }

  // ----- the finish of an interleaved request --------------------------------------

  /** Does a reservation by another process charge one made at `since`, or roll past `month`? */
  predicate Disturbs(a: Audit, e: Event, since: int, month: int) {
    && e.ReserveEvent? && e.id !in a.granted && a.ledger.period <= e.at.period
    && (since + STALE_RESERVATION_SECONDS <= EventTime(e) || month < e.at.period)
  }

  predicate Undisturbed(a: Audit, es: seq<Event>, since: int, month: int, cfg: Config)
    decreases |es|
  {
    es == [] || (!Disturbs(a, es[0], since, month) && Undisturbed(Step(a, es[0], cfg), es[1..], since, month, cfg))
  }

  predicate Outstanding(a: Audit, id: Id, since: int, month: int) {
    id in a.ledger.reservations && a.ledger.reservations[id] == since && a.ledger.period <= month
  }

  /** Expired, or the ledger is in a later month: either lasts. */
  predicate TooLate(a: Audit, id: Id, month: int) {
    id in a.expired || month < a.ledger.period
  }

  /** A sweep drops a reservation exactly when it is stale, and leaves the others their time. */
  lemma SweepSparesYoung(l: Ledger, at: Moment, cfg: Config, id: Id)
    requires id in l.reservations
    ensures var e := Expired(Loaded(l, at), at.at, cfg);
            && (id in e.reservations <==> at.at < l.reservations[id] + STALE_RESERVATION_SECONDS)
            && (id in e.reservations ==> e.reservations[id] == l.reservations[id])
            && e.period == Max(l.period, at.period)
  {
    assert StaleIds(Loaded(l, at), at.at) == StaleIds(l, at.at);
  }

  lemma ReserveSparesYoung(l: Ledger, drawn: Id, at: Moment, cfg: Config, id: Id)
    requires Sound(l, cfg) && id in l.reservations && drawn !in l.reservations
    requires 0 < cfg.limit && l.period <= at.period
    ensures var after := Reserve(l, drawn, at, cfg).0;
            && (id in after.reservations <==> at.at < l.reservations[id] + STALE_RESERVATION_SECONDS)
            && (id in after.reservations ==> after.reservations[id] == l.reservations[id])
            && after.period == at.period
  {
    var e := Expired(Loaded(l, at), at.at, cfg);
    SweepStaysSound(l, at, cfg);
    SweepSparesYoung(l, at, cfg, id);
    SweepEffects(l, at, cfg);
    AdmitEffects(e, drawn, at.at, cfg);
  }

  lemma ReserveUntilDisturbed(a: Audit, e: Event, id: Id, since: int, month: int, cfg: Config)
    requires Inv(a, cfg) && Outstanding(a, id, since, month) && e.ReserveEvent?
    ensures !Disturbs(a, e, since, month) ==> Outstanding(Step(a, e, cfg), id, since, month)
    ensures Disturbs(a, e, since, month) ==> TooLate(Step(a, e, cfg), id, month)
  {
    assert 0 < cfg.limit by { assert |a.ledger.reservations| > 0; }
    if e.id !in a.granted && a.ledger.period <= e.at.period {
      ReserveSparesYoung(a.ledger, e.id, e.at, cfg, id);
    }
  }

  lemma OutstandingUntilDisturbed(a: Audit, e: Event, id: Id, since: int, month: int, cfg: Config)
    requires Inv(a, cfg) && Outstanding(a, id, since, month)
    requires e.FinishEvent? ==> e.id != id
    ensures !Disturbs(a, e, since, month) ==> Outstanding(Step(a, e, cfg), id, since, month)
    ensures Disturbs(a, e, since, month) ==> TooLate(Step(a, e, cfg), id, month)
  {
    match e
    case ReserveEvent(_, _) => ReserveUntilDisturbed(a, e, id, since, month, cfg);
    case FinishEvent(_, _, _, _) => FinishSparesOthers(a.ledger, e, cfg, id);
  }

  lemma FinishSparesOthers(l: Ledger, e: Event, cfg: Config, id: Id)
    requires e.FinishEvent? && e.id != id && id in l.reservations
    ensures var after := Finish(l, e.id, e.at, e.billed, e.succeeded, cfg).0;
            id in after.reservations && after.reservations[id] == l.reservations[id] && after.period == l.period
  {
  }

  lemma ReserveNeverStepsBack(l: Ledger, drawn: Id, at: Moment, cfg: Config)
    ensures Reserve(l, drawn, at, cfg).0.period >= l.period
  {
  }

  lemma TooLateStays(a: Audit, e: Event, id: Id, month: int, cfg: Config)
    requires TooLate(a, id, month)
    ensures TooLate(Step(a, e, cfg), id, month)
  {
    match e
    case ReserveEvent(drawn, at) => ReserveNeverStepsBack(a.ledger, drawn, at, cfg);
    case FinishEvent(_, _, _, _) =>
  }

  lemma {:induction false} TooLateForever(a: Audit, es: seq<Event>, id: Id, month: int, cfg: Config)
    requires TooLate(a, id, month)
    ensures TooLate(Run(a, es, cfg), id, month)
    decreases |es|
  {
    if es != [] {
      TooLateStays(a, es[0], id, month, cfg);
      TooLateForever(Step(a, es[0], cfg), es[1..], id, month, cfg);
    }
  }

  lemma {:induction false} OutstandingExactlyIfUndisturbed(
      a: Audit, es: seq<Event>, id: Id, since: int, month: int, cfg: Config)
    requires Inv(a, cfg) && Outstanding(a, id, since, month)
    requires forall i :: 0 <= i < |es| && es[i].FinishEvent? ==> es[i].id != id
    ensures Inv(Run(a, es, cfg), cfg)
    ensures if Undisturbed(a, es, since, month, cfg) then Outstanding(Run(a, es, cfg), id, since, month)
            else TooLate(Run(a, es, cfg), id, month)
    decreases |es|
  {
    if es != [] {
      var b := Step(a, es[0], cfg);
      StepKeeps(a, es[0], cfg);
      OutstandingUntilDisturbed(a, es[0], id, since, month, cfg);
      if Disturbs(a, es[0], since, month) {
        RunKeeps(b, es[1..], cfg);
        TooLateForever(b, es[1..], id, month, cfg);
      } else {
        OutstandingExactlyIfUndisturbed(b, es[1..], id, since, month, cfg);
      }
    }
  }

  /**
   While others run, the finish of an outstanding request is accepted exactly if its month is not
   over in the ledger, then and later: nobody reserves in a later month than the finish falls in,
   and nobody reserves an hour or more after the request did, which charges it as stale.
   */
  lemma OwnFinishIsAcceptedExactlyWhen(a: Audit, es: seq<Event>, own: Event, cfg: Config)
    requires Inv(a, cfg) && own.FinishEvent? && own.id in a.ledger.reservations
    requires forall i :: 0 <= i < |es| && es[i].FinishEvent? ==> es[i].id != own.id
    ensures own.id in Run(a, es + [own], cfg).finished <==>
            && a.ledger.period <= own.at.period
            && Undisturbed(a, es, a.ledger.reservations[own.id], own.at.period, cfg)
  {
    var since, month := a.ledger.reservations[own.id], own.at.period;
    RunThenOne(a, es, own, cfg);
    RunKeeps(a, es, cfg);
    OthersNeverFinishOurs(a, es, own.id, cfg);
    if a.ledger.period <= month {
      OutstandingExactlyIfUndisturbed(a, es, own.id, since, month, cfg);
    } else {
      TooLateForever(a, es, own.id, month, cfg);
    }
  }

  lemma {:induction false} RunThenOne(a: Audit, es: seq<Event>, e: Event, cfg: Config)
    ensures Run(a, es + [e], cfg) == Step(Run(a, es, cfg), e, cfg)
    decreases |es|
  {
    if es == [] {
      assert es + [e] == [e] && [e][1..] == [];
    } else {
      assert (es + [e])[1..] == es[1..] + [e];
      RunThenOne(Step(a, es[0], cfg), es[1..], e, cfg);
    }
  }

  // ----- consecutive failures ------------------------------------------------------

  /** The reservations an hour old or older. */
  function HourOld(l: Ledger, now: int): set<Id> {
    set id | id in l.reservations && l.reservations[id] + 3600 <= now
  }

  /** A finish of an outstanding reservation, in a month that is not over in the ledger. */
  predicate FinishCounts(a: Audit, e: Event, cfg: Config) {
    e.FinishEvent? && 0 < cfg.limit && e.id in a.ledger.reservations && a.ledger.period <= e.at.period
  }

  /** A reservation is asked for in a month that is not over, whether it is granted or not. */
  predicate ReserveCommits(a: Audit, e: Event, cfg: Config) {
    e.ReserveEvent? && 0 < cfg.limit && e.id !in a.granted && a.ledger.period <= e.at.period
  }

  /** A success ends a row of failures; a failed finish and every charge of a stale reservation prolong it. */
  function NextStreak(before: Audit, streak: nat, e: Event, cfg: Config): nat {
    if FinishCounts(before, e, cfg) then if e.succeeded then 0 else streak + 1
    else if ReserveCommits(before, e, cfg) then streak + |HourOld(before.ledger, e.at.at)|
    else streak
  }

  /** Failed finishes and charges of stale reservations since the last success of a run. */
  function Streak(a: Audit, es: seq<Event>, cfg: Config): nat {
    if es == [] then 0
    else NextStreak(Run(a, es[..|es| - 1], cfg), Streak(a, es[..|es| - 1], cfg), es[|es| - 1], cfg)
  }

  /** A month starts without successes; a success adds one. */
  function NextSuccesses(before: Audit, successes: nat, e: Event, cfg: Config): nat {
    if FinishCounts(before, e, cfg) && e.succeeded then successes + 1
    else if ReserveCommits(before, e, cfg) && before.ledger.period < e.at.period then 0
    else successes
  }

  /** Successful finishes since the month of the ledger began. */
  function Successes(a: Audit, es: seq<Event>, cfg: Config): nat {
    if es == [] then 0
    else NextSuccesses(Run(a, es[..|es| - 1], cfg), Successes(a, es[..|es| - 1], cfg), es[|es| - 1], cfg)
  }

  lemma RunUpToTheLast(a: Audit, es: seq<Event>, cfg: Config)
    requires es != []
    ensures Run(a, es, cfg) == Step(Run(a, es[..|es| - 1], cfg), es[|es| - 1], cfg)
  {
    var earlier, e := es[..|es| - 1], es[|es| - 1];
    assert es == earlier + [e];
    RunThenOne(a, earlier, e, cfg);
  }

  lemma SweepCounts(l: Ledger, at: Moment, cfg: Config)
    ensures var e := Expired(Loaded(l, at), at.at, cfg);
            && e.failures == l.failures + |HourOld(l, at.at)|
            && e.successful == if l.period < at.period then 0 else l.successful
  {
    assert StaleIds(Loaded(l, at), at.at) == HourOld(l, at.at);
  }

  lemma ReserveCountsFailures(a: Audit, e: Event, cfg: Config)
    requires Inv(a, cfg) && ReserveCommits(a, e, cfg)
    ensures var l := Step(a, e, cfg).ledger;
            && l.failures == a.ledger.failures + |HourOld(a.ledger, e.at.at)|
            && l.successful == if a.ledger.period < e.at.period then 0 else a.ledger.successful
  {
    var swept := Expired(Loaded(a.ledger, e.at), e.at.at, cfg);
    SweepStaysSound(a.ledger, e.at, cfg);
    SweepEffects(a.ledger, e.at, cfg);
    SweepCounts(a.ledger, e.at, cfg);
    AdmitEffects(swept, e.id, e.at.at, cfg);
  }

  lemma FinishCountsFailures(a: Audit, e: Event, cfg: Config)
    requires FinishCounts(a, e, cfg)
    ensures var l := Step(a, e, cfg).ledger;
            && (e.succeeded ==> l.failures == 0 && l.openUntil.None? && l.successful == a.ledger.successful + 1)
            && (!e.succeeded ==> l.failures == a.ledger.failures + 1 && l.successful == a.ledger.successful)
  {
  }

  lemma NothingElseCounts(a: Audit, e: Event, cfg: Config)
    requires !FinishCounts(a, e, cfg) && !ReserveCommits(a, e, cfg)
    ensures Step(a, e, cfg).ledger == a.ledger
  {
  }

  lemma StepCountsFailures(a: Audit, e: Event, cfg: Config)
    requires Inv(a, cfg) && 0 <= a.ledger.failures && 0 <= a.ledger.successful
    ensures Step(a, e, cfg).ledger.failures == NextStreak(a, a.ledger.failures, e, cfg)
    ensures Step(a, e, cfg).ledger.successful == NextSuccesses(a, a.ledger.successful, e, cfg)
  {
    if FinishCounts(a, e, cfg) {
      FinishCountsFailures(a, e, cfg);
    } else if ReserveCommits(a, e, cfg) {
      ReserveCountsFailures(a, e, cfg);
    } else {
      NothingElseCounts(a, e, cfg);
    }
  }

  /**
   After any run the record's failures are those since the last success, whoever failed, and its
   successes those of its month.
   */
  lemma {:induction false} FailuresAreConsecutive(period: int, baseline: int, es: seq<Event>, cfg: Config)
    requires 0 <= baseline <= cfg.limit
    ensures var l := Run(Initial(period, baseline), es, cfg).ledger;
            && l.failures == Streak(Initial(period, baseline), es, cfg)
            && l.successful == Successes(Initial(period, baseline), es, cfg)
  {
    var start := Initial(period, baseline);
    if es != [] {
      var earlier := es[..|es| - 1];
      FailuresAreConsecutive(period, baseline, earlier, cfg);
      RunKeeps(start, earlier, cfg);
      RunUpToTheLast(start, es, cfg);
      StepCountsFailures(Run(start, earlier, cfg), es[|es| - 1], cfg);
    }
  }

  /** The circuit is tripped exactly while the failures in a row reach the threshold, and one at least. */
  lemma TrippedExactlyByAStreak(period: int, baseline: int, es: seq<Event>, cfg: Config)
    requires 0 <= baseline <= cfg.limit
    ensures var streak := Streak(Initial(period, baseline), es, cfg);
            Run(Initial(period, baseline), es, cfg).ledger.openUntil.Some? <==> 1 <= streak && cfg.threshold <= streak
  {
    FailuresAreConsecutive(period, baseline, es, cfg);
    BreakerBoundsOutstanding(period, baseline, es, cfg);
  }

  /** An accepted success leaves no failure and no cooldown, whatever came before. */
  lemma SuccessClearsTheBreaker(period: int, baseline: int, es: seq<Event>, e: Event, cfg: Config)
    requires 0 <= baseline <= cfg.limit
    requires FinishCounts(Run(Initial(period, baseline), es, cfg), e, cfg) && e.succeeded
    ensures var l := Run(Initial(period, baseline), es + [e], cfg).ledger;
            l.failures == 0 && l.openUntil.None?
  {
    RunThenOne(Initial(period, baseline), es, e, cfg);
    FinishCountsFailures(Run(Initial(period, baseline), es, cfg), e, cfg);
  }
}
