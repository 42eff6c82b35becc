/**
 The Bright Data usage ledger (`app/brightdata_state.py`): a monthly budget, outstanding
 reservations, stale expiry, month rollover and a circuit breaker in one durable record.

 A moment carries the UTC month it falls in. Reservation ids stand for fresh UUIDs.
 */
module UsageLedger {
  import opened Options

  type Id = nat

  datatype Moment = Moment(at: int, period: int)

  datatype Config = Config(limit: int, threshold: int, cooldown: int)

  datatype Ledger = Ledger(
    period: int,
    billed: int,
    attempts: int,
    successful: int,
    failures: int,
    openUntil: Option<int>,
    reservations: map<Id, int>)

  const STALE_RESERVATION_SECONDS := 3600

  function Max(a: int, b: int): int {
    if a < b then b else a
  }

  function Threshold(cfg: Config): int {
    Max(1, cfg.threshold)
  }

  function Cooldown(cfg: Config): int {
    Max(60, cfg.cooldown)
  }

  /** When a circuit tripped at `at` may be probed again. */
  function CooldownFrom(at: int, cfg: Config): Option<int> {
    Some(at + Cooldown(cfg))
  }

  // ----- loading, with rollover ----------------------------------------------------

  function EmptyLedger(period: int): Ledger {
    Ledger(period, 0, 0, 0, 0, None, map[])
  }

  /** A new month clears the counts but keeps the reservations and the circuit. */
  function RolledOver(l: Ledger, period: int): Ledger {
    EmptyLedger(period).(reservations := l.reservations, attempts := |l.reservations|,
                         failures := l.failures, openUntil := l.openUntil)
  }

  function Loaded(l: Ledger, m: Moment): Ledger {
    if l.period < m.period then RolledOver(l, m.period) else l
  }

  // ----- stale reservations --------------------------------------------------------

  function StaleIds(l: Ledger, now: int): (ids: set<Id>)
    ensures ids <= l.reservations.Keys
  {
    set id | id in l.reservations && l.reservations[id] <= now - STALE_RESERVATION_SECONDS
  }

  function Without(m: map<Id, int>, ids: set<Id>): (rest: map<Id, int>)
    requires ids <= m.Keys
    ensures rest.Keys == m.Keys - ids
    ensures |rest| == |m| - |ids|
  {
    assert |m.Keys| == |m| && |(m - ids).Keys| == |m - ids|;
    m - ids
  }

  /** The reservations in `ids` are charged and counted as failures. */
  function Charged(l: Ledger, ids: set<Id>): Ledger
    requires ids <= l.reservations.Keys
  {
    l.(reservations := Without(l.reservations, ids), billed := l.billed + |ids|, failures := l.failures + |ids|)
  }

  function Expired(l: Ledger, now: int, cfg: Config): Ledger {
    var stale := StaleIds(l, now);
    var charged := Charged(l, stale);
    if stale != {} && Threshold(cfg) <= charged.failures
    then charged.(openUntil := CooldownFrom(now, cfg))
    else charged
  }

  // ----- reserve_request -----------------------------------------------------------

  datatype ReserveResult = Granted | CircuitOpen | BudgetExceeded | Unavailable

  /** How many reservations may be outstanding: one probe while the circuit is tripped. */
  function Capacity(l: Ledger, cfg: Config): int {
    if Threshold(cfg) <= l.failures then 1 else Threshold(cfg) - l.failures
  }

  /** The decision on an already expired ledger, in the order of the code. */
  function Admit(l: Ledger, id: Id, now: int, cfg: Config): (Ledger, ReserveResult) {
    if l.openUntil.Some? && now < l.openUntil.value then (l, CircuitOpen)
    else
      var closed := if l.openUntil.Some? && l.failures < Threshold(cfg) then l.(openUntil := None) else l;
      if cfg.limit <= closed.billed + |closed.reservations| then (closed, BudgetExceeded)
      else if l.openUntil.None? && Threshold(cfg) <= closed.failures then
        (closed.(openUntil := CooldownFrom(now, cfg)), CircuitOpen)
      else if Capacity(closed, cfg) <= |closed.reservations| then (closed, CircuitOpen)
      else (closed.(reservations := closed.reservations[id := now], attempts := closed.attempts + 1), Granted)
  }

  /** The decision without the branch that clears a cooldown and the one that sets a missing one. */
  function ShortAdmit(l: Ledger, id: Id, now: int, cfg: Config): (Ledger, ReserveResult) {
    if l.openUntil.Some? && now < l.openUntil.value then (l, CircuitOpen)
    else if cfg.limit <= l.billed + |l.reservations| then (l, BudgetExceeded)
    else if Capacity(l, cfg) <= |l.reservations| then (l, CircuitOpen)
    else (l.(reservations := l.reservations[id := now], attempts := l.attempts + 1), Granted)
  }

  function Reserve(l: Ledger, id: Id, m: Moment, cfg: Config): (Ledger, ReserveResult) {
    if cfg.limit <= 0 then (l, BudgetExceeded)
    else if m.period < l.period then (l, Unavailable)
    else Admit(Expired(Loaded(l, m), m.at, cfg), id, m.at, cfg)
  }

  // ----- finish_request ------------------------------------------------------------

  /** Finishing does not roll over. An unknown billing outcome is charged. */
  function Finish(l: Ledger, id: Id, m: Moment, billed: Option<bool>, succeeded: bool, cfg: Config): (Ledger, bool) {
    if cfg.limit <= 0 || m.period < l.period || id !in l.reservations then (l, false)
    else
      var popped := l.(reservations := Without(l.reservations, {id}),
                       billed := if billed == Some(false) then l.billed else l.billed + 1);
      if succeeded then
        (popped.(successful := popped.successful + 1, failures := 0, openUntil := None), true)
      else
        var failed := popped.(failures := popped.failures + 1);
        (if Threshold(cfg) <= failed.failures then failed.(openUntil := CooldownFrom(m.at, cfg)) else failed, true)
  }

  // ----- the invariant -------------------------------------------------------------

  /** Breaker and budget together, for a fixed configuration. */
  predicate Sound(l: Ledger, cfg: Config) {
    && 0 <= l.billed && 0 <= l.failures
    && l.billed + |l.reservations| <= cfg.limit
    && (l.failures < Threshold(cfg) ==> l.failures + |l.reservations| <= Threshold(cfg) && l.openUntil.None?)
    && (Threshold(cfg) <= l.failures ==> |l.reservations| <= 1 && l.openUntil.Some?)
  }

  lemma LoadedStaysSound(l: Ledger, m: Moment, cfg: Config)
    requires Sound(l, cfg)
    ensures Sound(Loaded(l, m), cfg)
  {
  }

  // ----- what the operations do, spelled out ---------------------------------------

  /** The settings are clamped from below: one failure at least, one minute at least. */
  lemma SettingsAreClamped(cfg: Config, at: int)
    ensures Threshold(cfg) == (if 1 <= cfg.threshold then cfg.threshold else 1)
    ensures CooldownFrom(at, cfg).Some?
    ensures CooldownFrom(at, cfg).value - at == (if 60 <= cfg.cooldown then cfg.cooldown else 60)
  {
  }

  /** A later month starts its counts over, with the outstanding reservations as its attempts; what the
      breaker knows stays. */
  lemma LoadedIs(l: Ledger, m: Moment)
    ensures var r := Loaded(l, m);
            && r.reservations == l.reservations && r.failures == l.failures && r.openUntil == l.openUntil
            && (m.period <= l.period ==> r == l)
            && (l.period < m.period ==>
                  r.period == m.period && r.billed == 0 && r.successful == 0 && r.attempts == |l.reservations|)
  {
  }

  /** An expiry bills and counts as failed every reservation of an hour or more, and trips the circuit at
      the threshold. */
  lemma ExpiredIs(l: Ledger, now: int, cfg: Config)
    ensures var (e, stale) := (Expired(l, now, cfg), set id | id in l.reservations && 3600 <= now - l.reservations[id]);
            && e.billed - l.billed == |stale| && e.failures - l.failures == |stale|
            && e.period == l.period && e.attempts == l.attempts && e.successful == l.successful
            && (forall id :: id in e.reservations <==> id in l.reservations && id !in stale)
            && (forall id :: id in e.reservations ==> e.reservations[id] == l.reservations[id])
            && (if stale != {} && Threshold(cfg) <= e.failures then e.openUntil == CooldownFrom(now, cfg)
                else e.openUntil == l.openUntil)
  {
    assert StaleIds(l, now) == set id | id in l.reservations && 3600 <= now - l.reservations[id];
  }

  /** The order of the refusals: an open circuit first, then the budget, then the breaker's capacity. */
  lemma RefusalsOfAdmission(l: Ledger, id: Id, now: int, cfg: Config)
    requires Sound(l, cfg) && id !in l.reservations
    ensures var (after, result) := Admit(l, id, now, cfg);
            var cooling := l.openUntil.Some? && now < l.openUntil.value;
            var spent := cfg.limit <= l.billed + |l.reservations|;
            && (result == BudgetExceeded <==> !cooling && spent)
            && (result == CircuitOpen <==>
                  || cooling
                  || (!spent && if l.failures < Threshold(cfg) then Threshold(cfg) <= l.failures + |l.reservations|
                                else l.reservations != map[]))
            && (result == Granted ==>
                  after.reservations == l.reservations[id := now] && after.attempts == l.attempts + 1)
  {
    GrantedExactlyWhen(l, id, now, cfg);
    if |l.reservations| == 0 { assert l.reservations == map[]; }
  }

  /** Without a budget nothing is reserved, and a record of a later month is not touched. */
  lemma ReserveRefusesOutright(l: Ledger, id: Id, m: Moment, cfg: Config)
    ensures cfg.limit <= 0 ==> Reserve(l, id, m, cfg) == (l, BudgetExceeded)
    ensures 0 < cfg.limit && m.period < l.period ==> Reserve(l, id, m, cfg) == (l, Unavailable)
    ensures 0 < cfg.limit && l.period <= m.period ==>
              Reserve(l, id, m, cfg) == Admit(Expired(Loaded(l, m), m.at, cfg), id, m.at, cfg)
  {
  }

  /** A finish settles an outstanding reservation once: billed unless known not to be, a success clears the
      breaker, a failure counts and trips it at the threshold. */
  lemma FinishIs(l: Ledger, id: Id, m: Moment, billed: Option<bool>, succeeded: bool, cfg: Config)
    ensures var (after, done) := Finish(l, id, m, billed, succeeded, cfg);
            && (done <==> 0 < cfg.limit && l.period <= m.period && id in l.reservations)
            && (!done ==> after == l)
            && (done ==>
                  && after.period == l.period && after.attempts == l.attempts
                  && after.reservations == l.reservations - {id}
                  && after.billed - l.billed == (if billed == Some(false) then 0 else 1)
                  && (succeeded ==>
                        after.successful - l.successful == 1 && after.failures == 0 && after.openUntil.None?)
                  && (!succeeded ==>
                        && after.successful == l.successful && after.failures - l.failures == 1
                        && after.openUntil
                           == if Threshold(cfg) <= after.failures then CooldownFrom(m.at, cfg) else l.openUntil))
  {
  }

  /** Mass expiry keeps billed plus outstanding and failures plus outstanding. */
  lemma ExpiredStaysSound(l: Ledger, now: int, cfg: Config)
    requires Sound(l, cfg)
    ensures Sound(Expired(l, now, cfg), cfg)
  {
  }

  /** An expiry that trips the circuit leaves nothing outstanding. */
  lemma ExpiryTripsEmpty(l: Ledger, now: int, cfg: Config)
    requires Sound(l, cfg)
    requires Expired(l, now, cfg).openUntil != l.openUntil
    ensures Expired(l, now, cfg).openUntil == CooldownFrom(now, cfg) && |Expired(l, now, cfg).reservations| == 0
  {
  }

  /** On a sound record the branch that clears a cooldown and the one that sets a missing one never run. */
  lemma SoundAdmissionIsShort(l: Ledger, id: Id, now: int, cfg: Config)
    requires Sound(l, cfg)
    ensures Admit(l, id, now, cfg) == ShortAdmit(l, id, now, cfg)
  {
  }

  /** A reservation is granted exactly when there is budget, and room below the threshold or a free probe. */
  lemma GrantedExactlyWhen(l: Ledger, id: Id, now: int, cfg: Config)
    requires Sound(l, cfg) && id !in l.reservations
    ensures Admit(l, id, now, cfg).1 == Granted <==>
            && l.billed + |l.reservations| < cfg.limit
            && (if l.failures < Threshold(cfg) then l.failures + |l.reservations| < Threshold(cfg)
                else l.reservations == map[] && l.openUntil.value <= now)
    ensures Admit(l, id, now, cfg).1 != Granted ==> Admit(l, id, now, cfg).0 == l
    ensures Admit(l, id, now, cfg).1 != Unavailable
  {
  }

  /** A grant adds one outstanding reservation and one attempt; a refusal adds nothing. */
  lemma AdmitEffects(l: Ledger, id: Id, now: int, cfg: Config)
    requires Sound(l, cfg) && id !in l.reservations
    ensures Sound(Admit(l, id, now, cfg).0, cfg)
    ensures Admit(l, id, now, cfg).0 ==
            if Admit(l, id, now, cfg).1 == Granted
            then l.(reservations := l.reservations[id := now], attempts := l.attempts + 1)
            else l
    ensures l.reservations[id := now].Keys == l.reservations.Keys + {id}
    ensures |l.reservations[id := now]| == |l.reservations| + 1
  {
    GrantedExactlyWhen(l, id, now, cfg);
  }

  lemma ReserveStaysSound(l: Ledger, id: Id, m: Moment, cfg: Config)
    requires Sound(l, cfg) && id !in l.reservations
    ensures Sound(Reserve(l, id, m, cfg).0, cfg)
  {
    LoadedStaysSound(l, m, cfg);
    ExpiredStaysSound(Loaded(l, m), m.at, cfg);
    AdmitEffects(Expired(Loaded(l, m), m.at, cfg), id, m.at, cfg);
  }

  /** A finish that trips the circuit leaves nothing outstanding. */
  lemma FinishStaysSound(l: Ledger, id: Id, m: Moment, billed: Option<bool>, succeeded: bool, cfg: Config)
    requires Sound(l, cfg)
    ensures Sound(Finish(l, id, m, billed, succeeded, cfg).0, cfg)
    ensures var (after, done) := Finish(l, id, m, billed, succeeded, cfg);
            done && Threshold(cfg) <= after.failures ==>
              after.reservations == map[] && after.openUntil == CooldownFrom(m.at, cfg)
  {
    if id in l.reservations {
      var after := Finish(l, id, m, billed, succeeded, cfg).0;
      if Threshold(cfg) <= after.failures && after != l { assert |after.reservations| == 0; }
    }
  }
}
