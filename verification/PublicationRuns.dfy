/**
 Whole runs of the publication store: attempts begin, promote, roll back, reconcile and record
 failures in any order, with crashes and with losses of the attempt control file.
 */
module PublicationRuns {
  import opened Options
  import opened PublicationFiles
  import Plans = PublicationPlans
  import opened PublicationStatus

  /** The files, and the history of the generations issued and of those that promoted. */
  datatype System = System(
    disk: Disk, attempts: AttemptFile, sides: Sides, issued: seq<nat>, promoted: seq<nat>)

  datatype Event =
    | Begin(clock: nat)
    | Promote(generation: nat, p: Plans.Promotion, steps: nat)
    | RollBack(r: Plans.Rollback, steps: nat)
    | Reconciled(req: Request, w: CacheWrite, statusWritten: bool)
    | FailureRecorded(req: Request, w: CacheWrite, statusWritten: bool)
    | AttemptsLost
    | AttemptsDamaged

  function Exists(d: Disk): bool {
    d.published != NotPublished
  }

  function Highest(s: System): nat {
    if s.issued == [] then 0 else s.issued[|s.issued| - 1]
  }

  function Step(s: System, e: Event): System {
    match e
    case Begin(clock) =>
      var generation := NextGeneration(s.attempts, s.sides.status, Exists(s.disk), clock);
      s.(attempts := LastAttempt(generation), issued := s.issued + [generation])
    case Promote(generation, p, steps) =>
      if s.attempts != LastAttempt(generation) then s
      else s.(disk := Plans.After(s.disk, Plans.Promote(p, steps)), promoted := s.promoted + [generation])
    case RollBack(r, steps) => s.(disk := Plans.After(s.disk, Plans.RollBack(r, steps)))
    case Reconciled(req, w, statusWritten) =>
      var sides := Reconcile(s.disk, s.sides, s.attempts, req, w, statusWritten);
      if sides.Some? then s.(sides := sides.value) else s
    case FailureRecorded(req, w, statusWritten) =>
      s.(sides := RecordFailure(s.disk, s.sides, s.attempts, req, w, statusWritten))
    case AttemptsLost => s.(attempts := NoAttempts)
    case AttemptsDamaged => s.(attempts := DamagedAttempts)
  }

  /**
   What the environment grants: attempts use generations they were issued, operations are ones
   the store carries out, and a lost control file is replaced only when the clock has passed the
   generations issued before and the loss can be seen.
   */
  ghost predicate Possible(s: System, e: Event) {
    match e
    case Begin(clock) =>
      || s.attempts.LastAttempt? || Highest(s) == 0
      || StatusGeneration(s.sides.status) >= Highest(s)
      || (LeavesTrace(s.attempts, s.sides.status, Exists(s.disk)) && clock >= Highest(s))
    case Promote(generation, p, steps) => generation in s.issued && Plans.Possible(s.disk, Plans.Promote(p, steps))
    case RollBack(r, steps) => Plans.Possible(s.disk, Plans.RollBack(r, steps))
    case Reconciled(req, _, _) => req.generation in s.issued
    case FailureRecorded(req, _, _) => req.generation in s.issued
    case AttemptsLost => true
    case AttemptsDamaged => true
  }

  function Run(s: System, events: seq<Event>): System {
    if events == [] then s else Step(Run(s, events[..|events| - 1]), events[|events| - 1])
  }

  ghost predicate AllPossible(s: System, events: seq<Event>) {
    events == [] ||
    (AllPossible(s, events[..|events| - 1]) && Possible(Run(s, events[..|events| - 1]), events[|events| - 1]))
  }

  // ----- the invariant -------------------------------------------------------------

  predicate Increasing(xs: seq<nat>) {
    forall i, j :: 0 <= i < j < |xs| ==> xs[i] < xs[j]
  }

  predicate NonDecreasing(xs: seq<nat>) {
    forall i, j :: 0 <= i < j < |xs| ==> xs[i] <= xs[j]
  }

  ghost predicate Inv(s: System) {
    && Increasing(s.issued)
    && NonDecreasing(s.promoted)
    && (forall g :: g in s.promoted ==> g in s.issued)
    && (s.attempts.LastAttempt? ==> s.issued != [] && s.attempts.generation == Highest(s))
    && StatusGeneration(s.sides.status) <= Highest(s)
    && Plans.Sound(s.disk)
  }

  lemma AppendLargest(xs: seq<nat>, x: nat)
    requires NonDecreasing(xs) && forall y :: y in xs ==> y <= x
    ensures NonDecreasing(xs + [x])
  {
    forall i, j | 0 <= i < j < |xs + [x]| ensures (xs + [x])[i] <= (xs + [x])[j] {
      assert xs[i] in xs;
    }
  }

  lemma IssuedIsBounded(s: System, g: nat)
    requires Increasing(s.issued) && g in s.issued
    ensures g <= Highest(s)
  {
  }

  lemma BeginKeeps(s: System, clock: nat)
    requires Inv(s) && Possible(s, Begin(clock))
    ensures Inv(Step(s, Begin(clock)))
  {
    NextGenerationIsNewExactlyWhen(s.attempts, s.sides.status, Exists(s.disk), clock, Highest(s));
    var t := Step(s, Begin(clock));
    assert Highest(t) > Highest(s);
    forall g | g in s.issued ensures g <= Highest(s) { IssuedIsBounded(s, g); }
  }

  lemma PromoteKeeps(s: System, generation: nat, p: Plans.Promotion, steps: nat)
    requires Inv(s) && Possible(s, Promote(generation, p, steps))
    ensures Inv(Step(s, Promote(generation, p, steps)))
  {
    Plans.EventIsCrashSafe(s.disk, Plans.Promote(p, steps));
    forall g | g in s.promoted ensures g <= Highest(s) { IssuedIsBounded(s, g); }
    AppendLargest(s.promoted, Highest(s));
  }

  /** A status written for an issued generation never runs ahead of the issued ones. */
  lemma ReconciledKeeps(s: System, req: Request, w: CacheWrite, written: bool)
    requires Inv(s) && req.generation in s.issued
    ensures Inv(Step(s, Reconciled(req, w, written)))
  {
    IssuedIsBounded(s, req.generation);
  }

  lemma RecordedKeeps(s: System, req: Request, w: CacheWrite, written: bool)
    requires Inv(s) && req.generation in s.issued
    ensures Inv(Step(s, FailureRecorded(req, w, written)))
  {
    IssuedIsBounded(s, req.generation);
    if Head(s.disk).Some? {
      assert Step(s, FailureRecorded(req, w, written)) == Step(s, Reconciled(Retold(req), w, written));
      ReconciledKeeps(s, Retold(req), w, written);
    }
  }

  lemma StepKeeps(s: System, e: Event)
    requires Inv(s) && Possible(s, e)
    ensures Inv(Step(s, e))
  {
    match e
    case Begin(clock) => BeginKeeps(s, clock);
    case Promote(generation, p, steps) => PromoteKeeps(s, generation, p, steps);
    case RollBack(r, steps) => Plans.EventIsCrashSafe(s.disk, Plans.RollBack(r, steps));
    case Reconciled(req, w, written) => ReconciledKeeps(s, req, w, written);
    case FailureRecorded(req, w, written) => RecordedKeeps(s, req, w, written);
    case AttemptsLost =>
    case AttemptsDamaged =>
  }

  /**
   Over any run the issued generations strictly increase, promotions happen in non-decreasing
   generation order, the status never runs ahead, and the disk stays sound.
   */
  lemma {:induction false} RunKeeps(s: System, events: seq<Event>)
    requires Inv(s) && AllPossible(s, events)
    ensures Inv(Run(s, events))
  {
    if events != [] {
      RunKeeps(s, events[..|events| - 1]);
      StepKeeps(Run(s, events[..|events| - 1]), events[|events| - 1]);
    }
  }

  /** Everything but what a new attempt asks of the clock. */
  ghost predicate PossibleApart(s: System, e: Event) {
    e.Begin? || Possible(s, e)
  }

  ghost predicate AllPossibleApart(s: System, events: seq<Event>) {
    events == [] ||
    (AllPossibleApart(s, events[..|events| - 1]) && PossibleApart(Run(s, events[..|events| - 1]), events[|events| - 1]))
  }

  /** Without that, the issued generations increase exactly if it was kept at every begin of the run. */
  lemma {:induction false} GenerationsIncreaseExactlyIfBeginsAreSafe(s: System, events: seq<Event>)
    requires Inv(s) && AllPossibleApart(s, events)
    ensures Increasing(Run(s, events).issued) <==> AllPossible(s, events)
  {
    if events != [] {
      var before, e := events[..|events| - 1], events[|events| - 1];
      var t := Run(s, before);
      GenerationsIncreaseExactlyIfBeginsAreSafe(s, before);
      if AllPossible(s, before) {
        RunKeeps(s, before);
        if Possible(t, e) { StepKeeps(t, e); } else { UnsafeBeginRepeats(t, e); }
      } else {
        NotIncreasingForever(t, e);
      }
    }
  }

  lemma UnsafeBeginRepeats(s: System, e: Event)
    requires Inv(s) && e.Begin? && !Possible(s, e)
    ensures !Increasing(Step(s, e).issued)
  {
    NextGenerationIsNewExactlyWhen(s.attempts, s.sides.status, Exists(s.disk), e.clock, Highest(s));
    var issued, n := Step(s, e).issued, |s.issued|;
    assert n > 0 && issued[n - 1] == Highest(s) && issued[n] <= Highest(s);
  }

  lemma NotIncreasingForever(s: System, e: Event)
    requires !Increasing(s.issued)
    ensures !Increasing(Step(s, e).issued)
  {
    var i, j :| 0 <= i < j < |s.issued| && s.issued[i] >= s.issued[j];
    assert Step(s, e).issued[i] >= Step(s, e).issued[j];
  }

  // ----- consequences --------------------------------------------------------------

  lemma {:induction false} IssuedOnlyGrows(s: System, events: seq<Event>)
    ensures |s.issued| <= |Run(s, events).issued|
    ensures Run(s, events).issued[..|s.issued|] == s.issued
  {
    if events != [] { IssuedOnlyGrows(s, events[..|events| - 1]); }
  }

  lemma HighestStaysIssued(s: System, events: seq<Event>)
    requires s.issued != []
    ensures Highest(s) in Run(s, events).issued
  {
    IssuedOnlyGrows(s, events);
    assert Run(s, events).issued[|s.issued| - 1] == Run(s, events).issued[..|s.issued|][|s.issued| - 1];
  }

  lemma HighestNeverFalls(s: System, events: seq<Event>)
    requires Inv(s) && AllPossible(s, events) && s.issued != []
    ensures Inv(Run(s, events)) && Highest(s) <= Highest(Run(s, events))
  {
    RunKeeps(s, events);
    HighestStaysIssued(s, events);
    IssuedIsBounded(Run(s, events), Highest(s));
  }

  /** Once a newer attempt has begun, an older one changes nothing by promoting, however long it waits. */
  lemma OvertakenAttemptNeverPromotes(s: System, events: seq<Event>, older: nat, p: Plans.Promotion, steps: nat)
    requires Inv(s) && AllPossible(s, events)
    requires older in s.issued && older < Highest(s)
    ensures Step(Run(s, events), Promote(older, p, steps)) == Run(s, events)
  {
    HighestNeverFalls(s, events);
  }

  lemma StatusGenerationStep(s: System, e: Event)
    ensures StatusGeneration(Step(s, e).sides.status) >= StatusGeneration(s.sides.status)
  {
    match e
    case FailureRecorded(req, w, written) => RecordingFacts(s.disk, s.sides, s.attempts, req, w, written);
    case Begin(_) =>
    case Promote(_, _, _) =>
    case RollBack(_, _) =>
    case Reconciled(_, _, _) =>
    case AttemptsLost =>
    case AttemptsDamaged =>
  }

  /** Whatever is lost and whoever was overtaken, the generation in the status never decreases. */
  lemma {:induction false} StatusGenerationNeverDecreases(s: System, events: seq<Event>)
    ensures StatusGeneration(Run(s, events).sides.status) >= StatusGeneration(s.sides.status)
  {
    if events != [] {
      StatusGenerationNeverDecreases(s, events[..|events| - 1]);
      StatusGenerationStep(Run(s, events[..|events| - 1]), events[|events| - 1]);
    }
  }

  /** In a reachable state an attempt that expects what is published is not superseded exactly if it is
      not behind the status and, as far as the control file tells, is the latest one issued. */
  lemma UnsupersededExactlyIfLatest(s: System, events: seq<Event>, req: Request)
    requires Inv(s) && AllPossible(s, events)
    requires Head(Run(s, events).disk).Some? && req.generation in Run(s, events).issued
    requires req.expected.None? || req.expected == Head(Run(s, events).disk)
    ensures var t := Run(s, events);
            !Superseded(Head(t.disk).value, t.sides.status, t.attempts, req)
            <==> if t.attempts.LastAttempt? then req.generation == Highest(t)
                 else StatusGeneration(t.sides.status) <= req.generation
  {
    RunKeeps(s, events);
    IssuedIsBounded(Run(s, events), req.generation);
  }

  // ----- what readers see over a run -----------------------------------------------

  /** The version a status claims to describe, in either of its version fields. */
  predicate Claims(f: StatusFile, v: Version) {
    f.StatusRecord? && (f.status.datasetVersion == Some(v) || f.status.publishedVersion == Some(v))
  }

  /** The commit of a promotion by the latest attempt, or of a rollback, was reached. */
  ghost predicate TookEffect(s: System, e: Event) {
    match e
    case Promote(generation, p, steps) => s.attempts == LastAttempt(generation) && Plans.Saves(s.disk, p) < steps
    case RollBack(_, steps) => 0 < steps
    case Begin(_) => false
    case Reconciled(_, _, _) => false
    case FailureRecorded(_, _, _) => false
    case AttemptsLost => false
    case AttemptsDamaged => false
  }

  function Target(e: Event): Version
    requires e.Promote? || e.RollBack?
  {
    if e.Promote? then Digest(e.p.dataset) else e.r.target
  }

  /** The target of the last operation of the run that took effect, or else what was served before it. */
  ghost function LastEffective(s: System, events: seq<Event>): Option<Version> {
    if events == [] then Head(s.disk)
    else
      var before, e := events[..|events| - 1], events[|events| - 1];
      if TookEffect(Run(s, before), e) then Some(Target(e)) else LastEffective(s, before)
  }

  lemma OnlyEffectsChangeTheHead(s: System, e: Event)
    requires Inv(s) && Possible(s, e)
    ensures Head(Step(s, e).disk) == if TookEffect(s, e) then Some(Target(e)) else Head(s.disk)
  {
    match e
    case Promote(generation, p, steps) =>
      if s.attempts == LastAttempt(generation) { PromotionServesItsTarget(s.disk, p, steps); }
    case RollBack(r, steps) => Plans.RollbackIsCrashSafe(s.disk, r, steps);
    case Begin(_) =>
    case Reconciled(_, _, _) =>
    case FailureRecorded(_, _, _) =>
    case AttemptsLost =>
    case AttemptsDamaged =>
  }

  lemma PromotionServesItsTarget(d: Disk, p: Plans.Promotion, steps: nat)
    requires Plans.Sound(d) && Plans.Possible(d, Plans.Promote(p, steps))
    ensures Head(Plans.After(d, Plans.Promote(p, steps)))
         == if Plans.Saves(d, p) < steps then Some(Digest(p.dataset)) else Head(d)
  {
    if Plans.Saves(d, p) < steps {
      Plans.PromotionRepairs(d, p, steps);
    } else {
      Plans.BeforeTheCommit(d, p, steps);
      SoundHeadsAreKept(d, Plans.After(d, Plans.Promote(p, steps)));
    }
  }

  lemma SoundHeadsAreKept(d: Disk, e: Disk)
    requires Plans.Sound(d) && Plans.Extends(d, e)
    ensures Head(e) == Head(d)
  {
    Plans.ExtensionStaysSound(d, e);
  }

  /** Over any run the version served is the target of the last operation that took effect. */
  lemma {:induction false} TheLastEffectIsServed(s: System, events: seq<Event>)
    requires Inv(s) && AllPossible(s, events)
    ensures Head(Run(s, events).disk) == LastEffective(s, events)
  {
    if events != [] {
      var before := events[..|events| - 1];
      TheLastEffectIsServed(s, before);
      RunKeeps(s, before);
      OnlyEffectsChangeTheHead(Run(s, before), events[|events| - 1]);
    }
  }

  /**
   Over any run, what readers are given is the target of the last promotion or rollback that took
   effect, or what was published before; and it is called fresh only when the cache holds that very
   dataset and the status claims no other.
   */
  lemma ReadersAreNeverMisled(s: System, events: seq<Event>, now: int, maxAge: nat)
    requires Inv(s) && AllPossible(s, events)
    requires ReadPublished(Run(s, events).disk, Run(s, events).sides, now, maxAge).Published?
    ensures var t := Run(s, events);
            var r := ReadPublished(t.disk, t.sides, now, maxAge);
            && LastEffective(s, events) == Some(r.version) && Digest(r.dataset) == r.version
            && (r.fallback.None? ==>
                  t.sides.cache == Cached(r.dataset) && forall v :: Claims(t.sides.status, v) ==> v == r.version)
  {
    var t := Run(s, events);
    ReadersGetTheHead(t.disk, t.sides, now, maxAge);
    FreshExactlyWhenAllAgree(t.disk, t.sides, now, maxAge);
    TheLastEffectIsServed(s, events);
  }

  /**
   A committed promotion is served at once; until a reconciliation it is called fresh exactly if the
   cache held that dataset already and the status agreed with it.
   */
  lemma PromotionIsStaleUntilReconciled(
      s: System, generation: nat, p: Plans.Promotion, steps: nat, now: int, maxAge: nat)
    requires Inv(s) && Possible(s, Promote(generation, p, steps)) && s.attempts == LastAttempt(generation)
    requires Plans.Saves(s.disk, p) < steps
    ensures var t := Step(s, Promote(generation, p, steps));
            var r := ReadPublished(t.disk, t.sides, now, maxAge);
            && Head(t.disk) == Some(Digest(p.dataset))
            && (r.Published? ==>
                  && r.dataset == p.dataset
                  && (r.fallback.None? <==>
                        s.sides.cache == Cached(p.dataset) && StatusAgrees(s.sides.status, Digest(p.dataset))))
  {
    Plans.PromotionRepairs(s.disk, p, steps);
    var t := Step(s, Promote(generation, p, steps));
    HeadIsItsDigest(t.disk);
    ReadersGetTheHead(t.disk, t.sides, now, maxAge);
    if ReadPublished(t.disk, t.sides, now, maxAge).Published? {
      FreshExactlyWhenAllAgree(t.disk, t.sides, now, maxAge);
    }
  }

  /** The latest attempt promotes and reconciles without failing: readers are told the answer is fresh. */
  lemma LatestAttemptReachesFresh(s: System, req: Request, now: int, maxAge: nat)
    requires Inv(s) && Head(s.disk).Some? && s.attempts == LastAttempt(req.generation)
    requires req.expected == None || req.expected == Head(s.disk)
    requires !Failed(req.status)
    requires ReadPublished(s.disk, s.sides, now, maxAge).Published?
    ensures var t := Step(s, Reconciled(req, CacheWritten, true));
            ReadPublished(t.disk, t.sides, now, maxAge) == Published(HeadDataset(s.disk), Head(s.disk).value, None)
  {
    StaleAfterReconcilingExactlyWhen(s.disk, s.sides, s.attempts, req, now, maxAge);
  }

  /** The latest attempt failed and reconciles: readers are told the answer is stale. */
  lemma LatestFailureIsReported(s: System, req: Request, now: int, maxAge: nat)
    requires Inv(s) && Head(s.disk).Some? && s.attempts == LastAttempt(req.generation)
    requires req.expected == None || req.expected == Head(s.disk)
    requires Failed(req.status)
    requires ReadPublished(s.disk, s.sides, now, maxAge).Published?
    ensures var t := Step(s, Reconciled(req, CacheWritten, true));
            var r := ReadPublished(t.disk, t.sides, now, maxAge);
            r.Published? && r.version == Head(s.disk).value && r.fallback.Some?
  {
    StaleAfterReconcilingExactlyWhen(s.disk, s.sides, s.attempts, req, now, maxAge);
  }
}
