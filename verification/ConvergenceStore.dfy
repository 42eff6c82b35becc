/**
 The store itself: the methods of `ConvergenceStore` as they change the tables in place. Each
 is proved against the transaction that specifies it and keeps the invariant of every run.
 */
module ConvergenceStore {
  import opened Options
  import opened RecoveryPolicy
  import opened ConvergenceTables
  import opened ConvergenceInvariant
  import opened ConvergenceQueue
  import opened ConvergenceEffects

  /** What a worker is handed: its attempt, and the chain and its sources as they were then. */
  datatype Lease = Lease(attempt: AttemptId, owner: Worker, until: int, chain: Chain, sources: set<Source>)

  datatype ClaimResult = Claimed(lease: Lease) | NothingDue | LeaseSecondsInvalid

  /** Attempt ids are the primary key of the telemetry table. */
  ghost predicate UniqueIds(log: seq<PrimaryRow>) {
    forall i, j :: 0 <= i < j < |log| ==> log[i].id != log[j].id
  }

  class Store {
    const cohorts: map<string, set<Source>>
    /** Where a chain id stands in the order of the ids' texts. */
    const place: ChainId -> int
    var chains: map<ChainId, Chain>
    var sources: map<ChainId, set<Source>>
    var attempts: map<AttemptId, Attempt>
    var telemetry: seq<PrimaryRow>
    var cursor: Option<Cursor>

    function View(): Tables
      reads this
    {
      Tables(chains, sources, attempts, telemetry, cursor)
    }

    constructor (cohorts: map<string, set<Source>>, place: ChainId -> int)
      ensures this.cohorts == cohorts && this.place == place
      ensures View() == EMPTY_TABLES && Reachable(View())
    {
      this.cohorts, this.place := cohorts, place;
      chains, sources, attempts, telemetry, cursor := map[], map[], map[], [], None;
      new;
      assert View() == Run(EMPTY_TABLES, []);
    }

    /** `INSERT OR IGNORE` of one (chain, source) row per selected source. */
    method AddSources(id: ChainId, selected: set<Source>)
      requires selected != {}
      modifies `sources
      ensures sources == old(sources)[id := SourcesOf(old(View()), id) + selected]
    {
      ghost var was, known := sources, SourcesOf(View(), id);
      ghost var added: set<Source> := {};
      var rest := selected;
      while rest != {}
        invariant added + rest == selected
        invariant id in sources || added == {}
        invariant (if id in sources then sources[id] else {}) == known + added
        invariant forall other :: other != id ==> (other in sources <==> other in was)
        invariant forall other :: other != id && other in was ==> sources[other] == was[other]
        decreases rest
      {
        var source :| source in rest;
        var row := if id in sources then sources[id] else {};
        sources := sources[id := row + {source}];
        rest, added := rest - {source}, added + {source};
      }
      assert added == selected;
      assert sources == was[id := known + selected];
    }

    method CreateOrGetChain(r: CreateRequest) returns (error: Option<CreateError>)
      requires Reachable(View())
      modifies `chains, `sources
      ensures error == CreateCheck(cohorts, r)
      ensures View() == if error.None? then CreateTables(old(View()), r) else old(View())
      ensures Reachable(View())
    {
      error := CreateCheck(cohorts, r);
      if error.Some? { return; }
      CheckedCreatesAreAllowed(cohorts, r);
      StepStaysReachable(View(), Create(r));
      if r.id !in chains {
        chains := chains[r.id := NewChain(r)];
      }
      AddSources(r.id, r.selected);
    }

    /** One more expired lease: its running attempt fails, then the chain waits again. */
    method ReapLease(ghost t: Tables, ghost done: set<ChainId>, id: ChainId, now: int)
      requires View() == ReapTables(t, done, now) && id in ExpiredLeases(t, now) && id !in done
      modifies `chains, `attempts
      ensures View() == ReapTables(t, done + {id}, now)
    {
      ReapOneMore(t, done, id, now);
      FailRunningAttempts(id, now);
      chains := chains[id := chains[id].(state := Waiting, nextAttemptAt := Some(now),
        leaseOwner := None, leaseUntil := None, updatedAt := now)];
    }

    method FailRunningAttempts(id: ChainId, now: int)
      modifies `attempts
      ensures attempts == map a | a in old(attempts) ::
                if a.chain == id then ReapedAttempt(old(attempts)[a], now) else old(attempts)[a]
    {
      attempts := map a | a in attempts ::
        if a.chain == id && attempts[a].state == AttemptRunning
        then attempts[a].(state := AttemptFailed, reason := Some(LeaseExpired), finishedAt := Some(now))
        else attempts[a];
    }

    method ReapExpiredLeases(now: int)
      modifies `chains, `attempts
      ensures View() == ReapTables(old(View()), ExpiredLeases(old(View()), now), now)
    {
      ghost var before := View();
      var rest := set id | id in chains && LeaseOver(chains[id], now);
      ghost var expired, done: set<ChainId> := rest, {};
      assert View() == ReapTables(before, done, now);
      while rest != {}
        invariant expired == ExpiredLeases(before, now)
        invariant done + rest == expired && done !! rest
        invariant View() == ReapTables(before, done, now)
        decreases rest
      {
        var id :| id in rest;
        ReapLease(before, done, id, now);
        rest, done := rest - {id}, done + {id};
      }
      assert done == expired;
    }

    method TakeLease(id: ChainId, r: ClaimRequest) returns (lease: Lease)
      requires id in chains && NextAttempt(View(), id) !in attempts
      modifies `chains, `attempts
      ensures View() == LeaseTables(old(View()), id, r)
      ensures lease == Lease(AttemptId(id, chains[id].attemptIndex), r.owner, r.now + r.leaseSeconds,
                             chains[id], SourcesOf(View(), id))
    {
      var c := chains[id];
      var number := c.attemptIndex + 1;
      chains := chains[id := c.(state := Running, attemptIndex := number, nextAttemptAt := None,
        leaseOwner := Some(r.owner), leaseUntil := Some(r.now + r.leaseSeconds), updatedAt := r.now)];
      attempts := attempts[AttemptId(id, number) :=
        Attempt(c.action, AttemptRunning, r.owner, None, None, None, 0, 0, r.now, None)];
      lease := Lease(AttemptId(id, number), r.owner, r.now + r.leaseSeconds, chains[id], SourcesOf(View(), id));
    }

    method ClaimDue(r: ClaimRequest) returns (result: ClaimResult)
      requires Reachable(View())
      modifies `chains, `attempts
      ensures result.LeaseSecondsInvalid? <==> !(30 <= r.leaseSeconds <= 60 * 60)
      ensures result.LeaseSecondsInvalid? ==> View() == old(View())
      ensures result.NothingDue? ==> MayPick(old(View()), r, None) && View() == ClaimTables(old(View()), r, None)
      ensures result.Claimed? ==>
                var id := result.lease.attempt.chain;
                && MayPick(old(View()), r, Some(id))
                && IsFirst(SweepTables(old(View()), r.now), id, r.now, r.filters, place)
                && View() == ClaimTables(old(View()), r, Some(id))
                && result.lease.attempt == AttemptId(id, View().chains[id].attemptIndex)
                && result.lease == Lease(result.lease.attempt, r.owner, r.now + r.leaseSeconds,
                                         View().chains[id], SourcesOf(View(), id))
      ensures result.Claimed? && r.filters.actions.Some? ==> result.lease.chain.action in r.filters.actions.value
      ensures result.Claimed? && r.filters.eligible.Some? ==>
                forall source :: source in result.lease.sources ==> source in r.filters.eligible.value
      ensures result.NothingDue? ==> OnlyFilteredAreDue(View(), r.now, r.filters)
      ensures Reachable(View())
    {
      if !(30 <= r.leaseSeconds <= 60 * 60) { return LeaseSecondsInvalid; }
      ghost var before := View();
      ReapExpiredLeases(r.now);
      chains := map id | id in chains :: ExhaustedChain(chains[id], r.now);
      assert View() == SweepTables(before, r.now);
      if EmptyFilter(r.filters) {
        StepStaysReachable(before, Claim(r, None));
        UnclaimedAreFiltered(before, r);
        return NothingDue;
      }

      var due := set id | id in chains && Claimable(View(), id, r.now, r.filters);
      if due == {} {
        StepStaysReachable(before, Claim(r, None));
        UnclaimedAreFiltered(before, r);
        return NothingDue;
      }
      ghost var _ := SomethingIsFirst(View(), r.now, r.filters, due, place);
      var id :| id in due && forall other :: other in due ==>
        Precedes(chains[id], chains[other], place(id), place(other));
      assert forall other :: Claimable(View(), other, r.now, r.filters) ==> other in due;
      assert IsFirst(View(), id, r.now, r.filters, place);
      InsertNeverCollides(before, r, id);
      StepStaysReachable(before, Claim(r, Some(id)));
      ClaimedIsAllowed(before, r, id);
      var lease := TakeLease(id, r);
      result := Claimed(lease);
    }

    method HasDue(now: int, filters: Filters) returns (due: bool)
      ensures due <==> exists id :: LooksDue(View(), id, now, filters)
      ensures due <==>
              exists id ::
                && id in chains && now < chains[id].deadlineAt
                && (|| (&& chains[id].state in {Waiting, UpstreamPending}
                        && chains[id].nextAttemptAt.Some? && chains[id].nextAttemptAt.value <= now
                        && (chains[id].leaseUntil.Some? ==> chains[id].leaseUntil.value <= now))
                    || (&& chains[id].state == Running
                        && chains[id].leaseUntil.Some? && chains[id].leaseUntil.value <= now))
                && (filters.actions.Some? ==> chains[id].action in filters.actions.value)
                && (filters.eligible.Some? ==>
                      && filters.eligible.value != {}
                      && forall source :: source in SourcesOf(View(), id) ==> source in filters.eligible.value)
    {
      forall id { LooksDueMeans(View(), id, now, filters); }
      if EmptyFilter(filters) { return false; }
      var hits := set id | id in chains && LooksDue(View(), id, now, filters);
      due := hits != {};
      if due {
        ghost var id :| id in hits;
        assert LooksDue(View(), id, now, filters);
      } else {
        assert forall id :: LooksDue(View(), id, now, filters) ==> id in hits;
      }
    }

    /** The two updates of a finish that passed its checks. */
    method SettleAttempt(r: FinishRequest)
      requires FinishCheck(View(), r) == Applied
      modifies `chains, `attempts
      ensures View() == FinishTables(old(View()), r)
    {
      var id := r.attempt.chain;
      var made := |RowsFor(View(), id, r.decision.action)|;
      var (state, next) := Verdict(r.decision, made, r.finishedAt, chains[id].deadlineAt);
      var a, c := attempts[r.attempt], chains[id];
      attempts := attempts[r.attempt := a.(
        state := if r.succeeded then AttemptSucceeded else AttemptFailed, parserRun := r.parserRun,
        outcome := Some(r.outcome), reason := Some(r.reason),
        paidRequests := r.paidRequests, paidCost := r.paidCost, finishedAt := Some(r.finishedAt))];
      if c.state == Running {
        chains := chains[id := c.(
          action := r.decision.action, reasonClass := r.decision.reasonClass, state := state,
          delays := r.decision.delays, paidFetchAllowed := r.decision.paidFetchAllowed,
          paidRequests := c.paidRequests + r.paidRequests, paidCost := c.paidCost + r.paidCost,
          nextAttemptAt := next, lastOutcome := r.outcome, lastReason := r.reason,
          leaseOwner := None, leaseUntil := None, updatedAt := r.finishedAt)];
      }
    }

    method FinishAttempt(r: FinishRequest) returns (result: FinishResult)
      requires Reachable(View())
      modifies `chains, `attempts
      ensures result == FinishCheck(old(View()), r)
      ensures View() == FinishTables(old(View()), r)
      ensures result == Applied ==>
                && r.attempt.chain in chains
                && ScheduledAs(chains[r.attempt.chain], r, MadeFor(old(View()), r))
      ensures Reachable(View())
    {
      StepStaysReachable(View(), Finish(r));
      ReachableFinishIs(View(), r);
      result := FinishCheck(View(), r);
      if result == Applied { SettleAttempt(r); }
    }

    method ReconcileFreshPrimaryOutcomes(now: int) returns (updated: nat)
      requires Reachable(View())
      modifies `chains
      ensures View() == ReconcileTables(old(View()), now)
      ensures updated == |set id | id in old(chains) && Closes(old(View()), id)|
      ensures ClosedExactlyTheFresh(old(View()), View())
      ensures Reachable(View())
    {
      StepStaysReachable(View(), Reconcile(now));
      ReconcileClosesExactlyTheFresh(View(), now);
      var closing := set id | id in chains && Closes(View(), id);
      updated := |closing|;
      chains := map id | id in chains :: if id in closing then ClosedChain(chains[id], now) else chains[id];
    }

    /** The telemetry of a primary refresh: `INSERT OR IGNORE` by attempt id. */
    method RecordPrimary(row: PrimaryRow) returns (inserted: bool)
      requires Reachable(View())
      modifies `telemetry
      ensures inserted <==> forall i :: 0 <= i < |old(telemetry)| ==> old(telemetry)[i].id != row.id
      ensures View() == if inserted then Step(old(View()), Record(row)) else old(View())
      ensures old(UniqueIds(telemetry)) ==> UniqueIds(telemetry)
      ensures Reachable(View())
    {
      var i := 0;
      while i < |telemetry|
        invariant 0 <= i <= |telemetry|
        invariant forall k :: 0 <= k < i ==> telemetry[k].id != row.id
      {
        if telemetry[i].id == row.id { return false; }
        i := i + 1;
      }
      StepStaysReachable(View(), Record(row));
      telemetry := telemetry + [row];
      inserted := true;
    }

    method AdvancePlannerCursor(to: Cursor)
      requires Reachable(View())
      modifies `cursor
      ensures View() == AdvanceTables(old(View()), to)
      ensures Reachable(View())
    {
      StepStaysReachable(View(), Advance(to));
      if cursor.None? || Before(cursor.value, to) { cursor := Some(to); }
    }
  }

  /** Reaping one more expired chain after others is reaping them together. */
  lemma ReapOneMore(t: Tables, done: set<ChainId>, id: ChainId, now: int)
    requires id in ExpiredLeases(t, now) && id !in done
    ensures var u := ReapTables(t, done, now);
            && id in u.chains
            && ReapTables(t, done + {id}, now).chains == u.chains[id := ReapedChain(u.chains[id], now)]
            && ReapTables(t, done + {id}, now).attempts ==
               map a | a in u.attempts :: if a.chain == id then ReapedAttempt(u.attempts[a], now) else u.attempts[a]
  {
  }
}
