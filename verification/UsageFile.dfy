/**
 The usage record as `reserve_request` and `finish_request` change it in place, and the
 reserve/finish bracket of one paid request (`app/brightdata_backend.py`).
 */
module UsageFile {
  import opened Options
  import opened UsageLedger

  lemma NothingCharged(l: Ledger)
    ensures Charged(l, {}) == l
  {
    assert l.reservations - {} == l.reservations;
  }

  class UsageState {
    var stored: bool
    var period: int
    var billed: int
    var attempts: int
    var successful: int
    var failures: int
    var openUntil: Option<int>
    var reservations: map<Id, int>

    function View(): Ledger
      reads this
    {
      Ledger(period, billed, attempts, successful, failures, openUntil, reservations)
    }

    constructor ()
      ensures !stored
    {
      stored, period, billed, attempts, successful, failures := false, 0, 0, 0, 0, 0;
      openUntil, reservations := None, map[];
    }

    /** Creates the ledger once, from an operator's baseline; every ledger starts sound. */
    method InitializeUsageState(limit: int, baseline: int, now: Moment) returns (ok: bool)
      modifies this
      ensures ok <==> 0 < limit && 0 <= baseline <= limit && !old(stored)
      ensures ok ==> stored && View() == EmptyLedger(now.period).(billed := baseline)
      ensures ok ==> forall cfg: Config :: cfg.limit == limit ==> Sound(View(), cfg)
      ensures !ok ==> View() == old(View()) && stored == old(stored)
    {
      if limit <= 0 || baseline < 0 || limit < baseline || stored { return false; }
      stored, period, billed, attempts, successful, failures := true, now.period, baseline, 0, 0, 0;
      openUntil, reservations := None, map[];
      ok := true;
    }

    method RollOver(now: Moment)
      modifies `period, `billed, `attempts, `successful
      ensures View() == Loaded(old(View()), now)
    {
      if period < now.period {
        period, billed, attempts, successful := now.period, 0, |reservations|, 0;
      }
    }

    /** A reservation whose worker is gone is charged: nobody can prove it was unbilled. */
    method ChargeStale(ghost before: Ledger, ghost done: set<Id>, id: Id)
      requires done <= before.reservations.Keys && View() == Charged(before, done)
      requires id in before.reservations && id !in done
      modifies `reservations, `billed, `failures
      ensures View() == Charged(before, done + {id})
    {
      assert before.reservations - done - {id} == before.reservations - (done + {id});
      reservations := reservations - {id};
      billed, failures := billed + 1, failures + 1;
    }

    method ChargeAll(expired: set<Id>)
      requires expired <= View().reservations.Keys
      modifies `reservations, `billed, `failures
      ensures View() == Charged(old(View()), expired)
    {
      ghost var before := View();
      var left := expired;
      ghost var done: set<Id> := {};
      NothingCharged(before);
      while left != {}
        invariant done + left == expired && done !! left
        invariant View() == Charged(before, done)
        decreases left
      {
        var id :| id in left;
        ChargeStale(before, done, id);
        left, done := left - {id}, done + {id};
      }
      assert done == expired;
    }

    method ExpireStaleReservations(now: int, cfg: Config)
      modifies `reservations, `billed, `failures, `openUntil
      ensures View() == Expired(old(View()), now, cfg)
    {
      var expired := StaleIds(View(), now);
      ChargeAll(expired);
      if expired != {} && Threshold(cfg) <= failures {
        openUntil := CooldownFrom(now, cfg);
      }
    }

    method AdmitRequest(id: Id, now: int, cfg: Config) returns (result: ReserveResult)
      modifies `reservations, `attempts, `openUntil
      ensures View() == Admit(old(View()), id, now, cfg).0
      ensures result == Admit(old(View()), id, now, cfg).1
    {
      var wasOpen := openUntil;
      if wasOpen.Some? && now < wasOpen.value { return CircuitOpen; }
      if wasOpen.Some? && failures < Threshold(cfg) { openUntil := None; }
      if cfg.limit <= billed + |reservations| { return BudgetExceeded; }
      if wasOpen.None? && Threshold(cfg) <= failures {
        openUntil := CooldownFrom(now, cfg);
        return CircuitOpen;
      }
      var capacity := if Threshold(cfg) <= failures then 1 else Threshold(cfg) - failures;
      if capacity <= |reservations| { return CircuitOpen; }
      reservations := reservations[id := now];
      attempts := attempts + 1;
      result := Granted;
    }

    /** A refusal writes the record back as well: the rollover and expiry before it are kept. */
    method ReserveRequest(id: Id, now: Moment, cfg: Config) returns (result: ReserveResult)
      modifies `period, `billed, `attempts, `successful, `failures, `openUntil, `reservations
      ensures stored ==>
                View() == Reserve(old(View()), id, now, cfg).0 && result == Reserve(old(View()), id, now, cfg).1
      ensures !stored ==> View() == old(View()) && result == if cfg.limit <= 0 then BudgetExceeded else Unavailable
    {
      if cfg.limit <= 0 { return BudgetExceeded; }
      if !stored || now.period < period { return Unavailable; }
      RollOver(now);
      ExpireStaleReservations(now.at, cfg);
      result := AdmitRequest(id, now.at, cfg);
    }

    method FinishRequest(id: Id, now: Moment, billing: Option<bool>, succeeded: bool, cfg: Config) returns (ok: bool)
      modifies `billed, `successful, `failures, `openUntil, `reservations
      ensures stored ==> View() == Finish(old(View()), id, now, billing, succeeded, cfg).0
                         && ok == Finish(old(View()), id, now, billing, succeeded, cfg).1
      ensures !stored ==> View() == old(View()) && !ok
    {
      if cfg.limit <= 0 || !stored || now.period < period || id !in reservations { return false; }
      reservations := Without(reservations, {id});
      if billing != Some(false) { billed := billed + 1; }
      if succeeded {
        successful, failures, openUntil := successful + 1, 0, None;
      } else {
        failures := failures + 1;
        if Threshold(cfg) <= failures { openUntil := CooldownFrom(now.at, cfg); }
      }
      ok := true;
    }
  }

  /** What the snapshot reports as remaining. */
  function Remaining(l: Ledger, cfg: Config): int {
    Max(0, cfg.limit - l.billed - |l.reservations|)
  }

  /** On a sound ledger the clamp never acts: billed, reserved and remaining add up to the limit. */
  lemma SnapshotAddsUp(l: Ledger, cfg: Config)
    requires Sound(l, cfg)
    ensures l.billed + |l.reservations| + Remaining(l, cfg) == cfg.limit
  {
  }

  // ----- one paid request ----------------------------------------------------------

  /**
   How the bracketed code can leave: it fails before the request is started, in the send with a
   request error or another exception, after the response headers told whether it was billed, or
   not at all. Exceptions that are no `Exception` (an interrupt) are not among these.
   */
  datatype Outcome =
    | FailedBeforeStart
    | SendRejected(billed: Option<bool>)
    | SendCrashed
    | ResponseMalformed(debugBilled: Option<bool>)
    | ContentRejected(debugBilled: Option<bool>)
    | CrashedAfterHeaders(debugBilled: Option<bool>)
    | Delivered(debugBilled: Option<bool>)

  datatype Scrape = Refused(reason: ReserveResult) | Settled(delivered: bool, billed: Option<bool>) | FinishRefused

  /** The billing decision of the path taken; unknown stays unknown and is charged. */
  function BilledAs(outcome: Outcome): Option<bool> {
    match outcome
    case FailedBeforeStart => Some(false)
    case SendRejected(billed) => billed
    case SendCrashed => None
    case ResponseMalformed(debug) => debug
    case ContentRejected(debug) => debug
    case CrashedAfterHeaders(debug) => debug
    case Delivered(debug) => debug
  }

  /** A request that was not started is not billed; else what the error or the response headers say counts. */
  lemma BillingIsWhatWasSaid(outcome: Outcome)
    ensures outcome.FailedBeforeStart? ==> BilledAs(outcome) == Some(false)
    ensures outcome.SendRejected? ==> BilledAs(outcome) == outcome.billed
    ensures outcome.SendCrashed? ==> BilledAs(outcome) == None
    ensures outcome.ResponseMalformed? || outcome.ContentRejected? ==> BilledAs(outcome) == outcome.debugBilled
    ensures outcome.CrashedAfterHeaders? || outcome.Delivered? ==> BilledAs(outcome) == outcome.debugBilled
  {
  }

  /** The handlers around the request: which of the two finishes runs, with which billing. */
  method Bracket(outcome: Outcome) returns (failed: bool, billing: Option<bool>)
    ensures failed <==> !outcome.Delivered?
    ensures billing == BilledAs(outcome)
  {
    var requestStarted, requestError := outcome != FailedBeforeStart, false;
    var debug, errorBilled: Option<bool> := None, None;
    failed := !outcome.Delivered?;
    match outcome {
      case FailedBeforeStart =>
      case SendRejected(billed) => requestError, errorBilled := true, billed;
      case SendCrashed =>
      case ResponseMalformed(billed) => requestError, debug := true, billed;
      case ContentRejected(billed) => requestError, debug, errorBilled := true, billed, billed;
      case CrashedAfterHeaders(billed) => debug := billed;
      case Delivered(billed) => debug := billed;
    }
    billing := if !requestStarted then Some(false)
               else if requestError && errorBilled.Some? then errorBilled
               else debug;
  }

  lemma GrantIsOutstanding(l: Ledger, id: Id, at: Moment, cfg: Config)
    requires Reserve(l, id, at, cfg).1 == Granted
    ensures id in Reserve(l, id, at, cfg).0.reservations && Reserve(l, id, at, cfg).0.period == at.period
            && 0 < cfg.limit
  {
  }

  /** The record after the one finish of a granted request. */
  function SettledLedger(reserved: Ledger, id: Id, at: Moment, outcome: Outcome, cfg: Config): Ledger {
    Finish(reserved, id, at, BilledAs(outcome), outcome.Delivered?, cfg).0
  }

  /** It leaves nothing outstanding for the request, and costs one unit unless known to be unbilled. */
  lemma SettledCost(reserved: Ledger, id: Id, at: Moment, outcome: Outcome, cfg: Config)
    requires id in reserved.reservations && reserved.period <= at.period && 0 < cfg.limit
    ensures var l := SettledLedger(reserved, id, at, outcome, cfg);
            && l.reservations == reserved.reservations - {id}
            && l.billed == reserved.billed + (if BilledAs(outcome) == Some(false) then 0 else 1)
            && (outcome == FailedBeforeStart ==> l.billed == reserved.billed)
            && (outcome.SendCrashed? ==> l.billed == reserved.billed + 1)
  {
  }

  /**
   With no other process in between, every path finishes a granted reservation exactly once; only
   a clock that steps back into an earlier month makes the ledger refuse that finish.
   */
  method ScrapeUrlSync(state: UsageState, id: Id, reservedAt: Moment, finishedAt: Moment, outcome: Outcome, cfg: Config)
      returns (result: Scrape)
    requires state.stored
    modifies state
    ensures var (reserved, admitted) := Reserve(old(state.View()), id, reservedAt, cfg);
            if admitted != Granted then result == Refused(admitted) && state.View() == reserved
            else if finishedAt.period < reservedAt.period then result == FinishRefused && state.View() == reserved
            else result == Settled(outcome.Delivered?, BilledAs(outcome))
                 && state.View() == SettledLedger(reserved, id, finishedAt, outcome, cfg)
  {
    ghost var before := state.View();
    var granted := state.ReserveRequest(id, reservedAt, cfg);
    if granted != Granted { return Refused(granted); }
    GrantIsOutstanding(before, id, reservedAt, cfg);
    var failed, billing := Bracket(outcome);
    var ok := state.FinishRequest(id, finishedAt, billing, !failed, cfg);
    result := if ok then Settled(!failed, billing) else FinishRefused;
  }
}
