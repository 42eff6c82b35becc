/**
 The order of publications (`validate_and_publish_standard_cards_candidate` in
 `app/dataset_publication_store.py`): what a candidate is compared with, when it is obsolete, and
 why an older snapshot never replaces a newer one.
 */
module PublicationOrdering {
  import opened Options
  import opened PublicationFiles
  import Plans = PublicationPlans
  import Status = PublicationStatus

  datatype Kind = Obsolete | Regression | Validation
  datatype Verdict = Pass | Reject(kind: Kind)

  /** The caller's own `validated_previous`, if it gave one (which may be none at all). */
  datatype Given = Unset | Given(previous: Option<Dataset>)

  /** Verdicts of the content checks: the gates, and the regression check against the baseline. */
  datatype Checks = Checks(contentOk: bool, regressed: bool)

  predicate InTime(c: Dataset, now: int, maxAge: nat) {
    c.fetchedAt.Some? && -MAX_FUTURE_SKEW_SECONDS <= now - c.fetchedAt.value <= maxAge
  }

  /** The snapshot a candidate is compared with; `found` are the recoverable versions. */
  function PreviousOf(d: Disk, given: Given, found: seq<Version>): Option<Dataset> {
    match given
    case Given(previous) => previous
    case Unset =>
      if Head(d).Some? then Some(Status.HeadDataset(d))
      else if found == [] then None
      else Some(found[0].of)
  }

  predicate ExactRepair(d: Disk, given: Given, found: seq<Version>, c: Dataset) {
    given.Unset? && ReadPointer(d.published).BadPointer? && found != [] && found[0] == Digest(c)
  }

  predicate IsObsolete(d: Disk, given: Given, found: seq<Version>, c: Dataset) {
    var previous := PreviousOf(d, given, found);
    && previous.Some? && previous.value.fetchedAt.Some? && c.fetchedAt.Some?
    && c.fetchedAt.value <= previous.value.fetchedAt.value
    && !ExactRepair(d, given, found, c)
  }

  function Judge(
      d: Disk, given: Given, found: seq<Version>, c: Dataset, checks: Checks, now: int, maxAge: nat): Verdict {
    if IsObsolete(d, given, found, c) then Reject(Obsolete)
    else if PreviousOf(d, given, found).Some? && checks.regressed then Reject(Regression)
    else if !checks.contentOk || !InTime(c, now, maxAge) then Reject(Validation)
    else Pass
  }

  /** A candidate is compared with the caller's baseline if it brought one, else with what is served, else
      with the freshest that can be recovered. */
  lemma PreviousIs(d: Disk, given: Given, found: seq<Version>)
    ensures var previous := PreviousOf(d, given, found);
            && (given.Given? ==> previous == given.previous)
            && (given.Unset? && Head(d).Some? ==> previous.Some? && Some(Digest(previous.value)) == Head(d))
            && (given.Unset? && Head(d).None? && found != [] ==> previous.Some? && Digest(previous.value) == found[0])
            && (given.Unset? && Head(d).None? && found == [] ==> previous.None?)
  {
    if Head(d).Some? { Status.HeadIsItsDigest(d); }
  }

  /** The reasons of a rejection, in their order, and what passes. */
  lemma VerdictsMean(d: Disk, given: Given, found: seq<Version>, c: Dataset, checks: Checks, now: int, maxAge: nat)
    ensures var (verdict, previous) := (Judge(d, given, found, c, checks, now, maxAge), PreviousOf(d, given, found));
            var repair := given.Unset? && ReadPointer(d.published).BadPointer? && found != [] && found[0] == Digest(c);
            var obsolete := !repair && previous.Some? && NotOlder(previous.value, c);
            && (verdict == Reject(Obsolete) <==> obsolete)
            && (verdict == Reject(Regression) <==> !obsolete && previous.Some? && checks.regressed)
            && (verdict == Pass <==>
                  && !obsolete && (previous.Some? ==> !checks.regressed) && checks.contentOk
                  && c.fetchedAt.Some? && c.fetchedAt.value <= now + 300 && now <= c.fetchedAt.value + maxAge)
  {
  }

  predicate Newer(a: Dataset, b: Dataset) {
    a.fetchedAt.Some? && b.fetchedAt.Some? && a.fetchedAt.value > b.fetchedAt.value
  }

  predicate NotOlder(a: Dataset, b: Dataset) {
    a.fetchedAt.Some? && b.fetchedAt.Some? && a.fetchedAt.value >= b.fetchedAt.value
  }

  /** With the publication readable, what passes is strictly newer than what is published. */
  lemma PassIsNewerThanTheHead(d: Disk, found: seq<Version>, c: Dataset, checks: Checks, now: int, maxAge: nat)
    requires Head(d).Some? && Head(d).value.of.fetchedAt.Some?
    requires Judge(d, Unset, found, c, checks, now, maxAge) == Pass
    ensures Newer(c, Head(d).value.of)
  {
    Status.HeadIsItsDigest(d);
  }

  /** With the publication unreadable, what passes is newer than every recoverable version, or is
      the freshest of them put back. */
  lemma PassIsNewerThanTheRecoverable(
      d: Disk, found: seq<Version>, c: Dataset, checks: Checks, now: int, maxAge: nat, v: Version)
    requires Head(d).None? && Plans.IsDiscovery(d, found, now)
    requires Judge(d, Unset, found, c, checks, now, maxAge) == Pass
    requires Plans.Discoverable(d, v, now)
    ensures Newer(c, v.of) || (ReadPointer(d.published).BadPointer? && Digest(c) == found[0] && NotOlder(c, v.of))
  {
    assert v in found;
    if v != found[0] {
      var i :| 0 <= i < |found| && found[i] == v;
      assert Plans.NoOlder(d, found[0], found[i], now);
    }
    assert found[0] in found;
  }

  /** The earliest and the latest time at which a candidate passes beside a given baseline. */
  function EarliestBeside(previous: Option<Dataset>, now: int, maxAge: nat): int {
    if previous.Some? && previous.value.fetchedAt.Some?
    then Status.Max(previous.value.fetchedAt.value + 1, now - maxAge)
    else now - maxAge
  }

  /** The content checks let a candidate through beside this baseline. */
  predicate Clears(checks: Checks, previous: Option<Dataset>) {
    checks.contentOk && (previous.Some? ==> !checks.regressed)
  }

  /** The candidate passes, and no damaged record of its version keeps it from being promoted. */
  predicate Accepts(
      d: Disk, given: Given, found: seq<Version>, c: Dataset, checks: Checks, now: int, maxAge: nat) {
    Judge(d, given, found, c, checks, now, maxAge) == Pass && (Digest(c) in d.records ==> Verified(d, Digest(c)))
  }

  /** Another candidate than `last`, and one no newer, is accepted. */
  ghost predicate ForgetsLast(
      d: Disk, given: Given, found: seq<Version>, last: Version, checks: Checks, now: int, maxAge: nat) {
    exists c: Dataset ::
      Accepts(d, given, found, c, checks, now, maxAge) && Digest(c) != last && NotOlder(last.of, c)
  }

  /** The baseline leaves an admissible time that is not after that of `last`. */
  predicate LeavesRoom(previous: Option<Dataset>, last: Version, now: int, maxAge: nat) {
    var earliest := EarliestBeside(previous, now, maxAge);
    last.of.fetchedAt.Some? && earliest <= last.of.fetchedAt.value && earliest <= now + MAX_FUTURE_SKEW_SECONDS
  }

  /** There is always a dataset of a given time that is not among finitely many versions. */
  lemma {:induction false} SomeDatasetIsNew(taken: set<Version>, t: int, atLeast: nat) returns (c: Dataset)
    ensures c.fetchedAt == Some(t) && Digest(c) !in taken && c.content >= atLeast
    decreases |taken|
  {
    c := Dataset(Some(t), atLeast);
    if Digest(c) in taken { c := SomeDatasetIsNew(taken - {Digest(c)}, t, atLeast + 1); }
  }

  /**
   A caller that brings its own baseline lifts the comparison with what is published. Whatever was
   served last, readable still or not, another candidate no newer than it is accepted exactly when
   the content checks pass and the baseline leaves room for one.
   */
  lemma GivenBaselineBypassesTheHeadExactlyWhen(
      d: Disk, found: seq<Version>, previous: Option<Dataset>, last: Version, checks: Checks, now: int, maxAge: nat)
    ensures ForgetsLast(d, Given(previous), found, last, checks, now, maxAge)
            <==> Clears(checks, previous) && LeavesRoom(previous, last, now, maxAge)
  {
    if Clears(checks, previous) && LeavesRoom(previous, last, now, maxAge) {
      var c := SomeDatasetIsNew(d.records.Keys + {last}, EarliestBeside(previous, now, maxAge), 0);
      assert Accepts(d, Given(previous), found, c, checks, now, maxAge);
    }
  }

  /** The freshest recoverable version is another one, no fresher than `last`, and admissible. */
  predicate RepairsBehind(found: seq<Version>, last: Version, now: int, maxAge: nat) {
    found != [] && found[0] != last && NotOlder(last.of, found[0].of) && InTime(found[0].of, now, maxAge)
  }

  /**
   With the publication unreadable, be it that its file is lost or damaged or that the record of its
   head is, another candidate no newer than `last` is accepted exactly when the content checks pass
   and what is recoverable leaves room for one, or, where the file itself is gone, is put back.
   */
  lemma UnreadablePublicationIsForgottenExactlyWhen(
      d: Disk, found: seq<Version>, last: Version, checks: Checks, now: int, maxAge: nat)
    requires Head(d).None? && Plans.IsDiscovery(d, found, now)
    ensures ForgetsLast(d, Unset, found, last, checks, now, maxAge)
            <==> && Clears(checks, PreviousOf(d, Unset, found))
                 && (|| LeavesRoom(PreviousOf(d, Unset, found), last, now, maxAge)
                     || (ReadPointer(d.published).BadPointer? && RepairsBehind(found, last, now, maxAge)))
  {
    var previous := PreviousOf(d, Unset, found);
    if found != [] { assert found[0] in found; }
    if Clears(checks, previous) {
      if LeavesRoom(previous, last, now, maxAge) {
        var c := SomeDatasetIsNew(d.records.Keys + {last}, EarliestBeside(previous, now, maxAge), 0);
        assert Accepts(d, Unset, found, c, checks, now, maxAge);
      } else if ReadPointer(d.published).BadPointer? && RepairsBehind(found, last, now, maxAge) {
        assert Accepts(d, Unset, found, found[0].of, checks, now, maxAge);
      }
    }
  }

  /** While what was served last is recoverable, nothing strictly older is ever accepted. */
  lemma RecoverableIsNotForgotten(
      d: Disk, found: seq<Version>, last: Version, c: Dataset, checks: Checks, now: int, maxAge: nat)
    requires Head(d).None? && Plans.IsDiscovery(d, found, now) && Plans.Discoverable(d, last, now)
    requires Accepts(d, Unset, found, c, checks, now, maxAge)
    ensures !Newer(last.of, c)
  {
    PassIsNewerThanTheRecoverable(d, found, c, checks, now, maxAge, last);
  }

  /** A dataset fetched `ago` seconds before `now`. */
  function Fetched(now: int, ago: int): Dataset {
    Dataset(Some(now - ago), 0)
  }

  /** The manifest is intact and lists a version of 10 seconds ago, whose record is damaged, before one of 30. */
  function DamagedHead(now: int): Disk {
    var b, a := Digest(Fetched(now, 10)), Digest(Fetched(now, 30));
    Disk(map[b := DamagedRecord, a := Record(a, Fetched(now, 30), Some(now))], ManifestFor([b, a], 5, now))
  }

  /** On it a snapshot of 20 seconds ago, older than the head, is accepted. */
  lemma DamagedHeadIsForgotten(now: int)
    ensures var d, head, found := DamagedHead(now), Digest(Fetched(now, 10)), [Digest(Fetched(now, 30))];
            && ReadPointer(d.published) == ManifestPointer([head] + found) && !Verified(d, head)
            && Plans.IsDiscovery(d, found, now)
            && Accepts(d, Unset, found, Fetched(now, 20), Checks(true, false), now, 3600)
            && Newer(head.of, Fetched(now, 20))
  {
  }

  /** And promoting it replaces the newer head by the older snapshot. */
  lemma DamagedHeadIsReplaced(now: int) returns (p: Plans.Promotion)
    ensures p.dataset == Fetched(now, 20) && Plans.CanPromote(DamagedHead(now), p)
    ensures var e := ApplyAll(DamagedHead(now), Plans.PromotePlan(DamagedHead(now), p));
            Head(e) == Some(Digest(Fetched(now, 20))) && Plans.Sound(e)
  {
    var d, c := DamagedHead(now), Fetched(now, 20);
    var a := Fetched(now, 30);
    p := Plans.Promotion(c, Plans.Baseline([Digest(c), Digest(a)], []), 5, now, []);
    var write := WriteRecord(Digest(c), Record(Digest(c), c, Some(now)));
    assert Plans.NewRecord(d, p) == [write] && [write][..0] == [];
    var e := ApplyAll(d, [write]);
    assert ApplyAll(d, [write][..|[write]| - 1]) == d && [write][|[write]| - 1] == write;
    assert e == d.(records := d.records[Digest(c) := Record(Digest(c), c, Some(now))]);
    assert Plans.IsDiscovery(e, p.baseline.listed, now);
    assert Plans.PromotePlan(d, p)[..|Plans.PromotePlan(d, p)|] == Plans.PromotePlan(d, p);
    Plans.PromotionRepairs(d, p, |Plans.PromotePlan(d, p)|);
  }

  // ----- runs between rollbacks ----------------------------------------------------

  /** The disk, the clock, and the version of the last publication that was committed. */
  datatype System = System(disk: Disk, clock: int, last: Option<Version>)

  /** A publication that a crash may cut short after `steps` writes, or the loss or damage of a file. */
  datatype Event =
    | Publish(p: Plans.Promotion, found: seq<Version>, checks: Checks, maxAge: nat, steps: nat)
    | ManifestLost
    | ManifestDamaged
    | RecordLost(version: Version)
    | RecordDamaged(version: Version)

  predicate Passes(s: System, e: Event)
    requires e.Publish?
  {
    Accepts(s.disk, Unset, e.found, e.p.dataset, e.checks, e.p.now, e.maxAge)
  }

  /** What was last served could be found again without the published file. */
  predicate Recoverable(s: System) {
    s.last.Some? ==> Plans.Discoverable(s.disk, s.last.value, s.clock)
  }

  /** The clock does not step back; the published file is lost only when its version is recoverable, and
      records are only of other versions than the one last served. */
  ghost predicate Possible(s: System, e: Event) {
    match e
    case Publish(p, found, _, _, steps) =>
      && s.clock <= p.now
      && Plans.IsDiscovery(s.disk, found, p.now)
      && (Passes(s, e) ==> Plans.Possible(s.disk, Plans.Promote(p, steps)))
    case ManifestLost => Recoverable(s)
    case ManifestDamaged => Recoverable(s)
    case RecordLost(version) => s.last != Some(version)
    case RecordDamaged(version) => s.last != Some(version)
  }

  function Step(s: System, e: Event): System {
    match e
    case Publish(p, found, checks, maxAge, steps) =>
      if !Passes(s, e) then s.(clock := p.now)
      else System(Plans.After(s.disk, Plans.Promote(p, steps)), p.now,
                  if steps > Plans.Saves(s.disk, p) then Some(Digest(p.dataset)) else s.last)
    case ManifestLost => s.(disk := s.disk.(published := NotPublished))
    case ManifestDamaged => s.(disk := s.disk.(published := UnreadablePointer))
    case RecordLost(version) => s.(disk := s.disk.(records := s.disk.records - {version}))
    case RecordDamaged(version) => s.(disk := s.disk.(records := s.disk.records[version := DamagedRecord]))
  }

  function Run(s: System, events: seq<Event>): System {
    if events == [] then s else Step(Run(s, events[..|events| - 1]), events[|events| - 1])
  }

  ghost predicate AllPossible(s: System, events: seq<Event>) {
    events == [] ||
    (AllPossible(s, events[..|events| - 1]) && Possible(Run(s, events[..|events| - 1]), events[|events| - 1]))
  }

  /** What was last served is dated; the published file serves it, or it is recoverable without. */
  ghost predicate Inv(s: System) {
    && (s.last.Some? ==> s.last.value.of.fetchedAt.Some?)
    && if ReadPointer(s.disk.published).BadPointer? then Recoverable(s) else s.last.Some? && Head(s.disk) == s.last
  }

  lemma CommitKeeps(s: System, e: Event)
    requires Inv(s) && e.Publish? && Possible(s, e) && Passes(s, e) && e.steps > Plans.Saves(s.disk, e.p)
    ensures Inv(Step(s, e)) && Head(Step(s, e).disk).Some?
  {
    Plans.PromotionRepairs(s.disk, e.p, e.steps);
  }

  lemma CutShortKeeps(s: System, e: Event)
    requires Inv(s) && e.Publish? && Possible(s, e) && Passes(s, e) && e.steps <= Plans.Saves(s.disk, e.p)
    ensures Inv(Step(s, e)) && (Head(s.disk).Some? ==> Head(Step(s, e).disk) == Head(s.disk))
  {
    Plans.BeforeTheCommit(s.disk, e.p, e.steps);
    Plans.ExtensionStaysSound(s.disk, Step(s, e).disk);
  }

  lemma StepKeeps(s: System, e: Event)
    requires Inv(s) && Possible(s, e)
    ensures Inv(Step(s, e))
  {
    if e.Publish? && Passes(s, e) {
      if e.steps > Plans.Saves(s.disk, e.p) { CommitKeeps(s, e); } else { CutShortKeeps(s, e); }
    }
  }

  /** A commit is strictly newer than the last one, or puts back the freshest version of a lost manifest. */
  lemma CommitMovesForward(s: System, e: Event)
    requires Inv(s) && Possible(s, e) && e.Publish? && Passes(s, e) && s.last.Some?
    ensures Newer(e.p.dataset, s.last.value.of)
         || (ReadPointer(s.disk.published).BadPointer? && e.found != [] && Digest(e.p.dataset) == e.found[0]
             && NotOlder(e.p.dataset, s.last.value.of))
  {
    if Head(s.disk).Some? {
      PassIsNewerThanTheHead(s.disk, e.found, e.p.dataset, e.checks, e.p.now, e.maxAge);
    } else {
      PassIsNewerThanTheRecoverable(s.disk, e.found, e.p.dataset, e.checks, e.p.now, e.maxAge, s.last.value);
      assert s.last.value in e.found;
    }
  }

  /** `b` is what was served before: the same version, or one that was fetched no earlier. */
  predicate NotBehind(a: Option<Version>, b: Option<Version>) {
    b.Some? ==> a.Some? && (a == b || NotOlder(a.value.of, b.value.of))
  }

  /** Over any run of publications, crashes and such losses, what is served never gets older. */
  lemma {:induction false} ServedNeverGetsOlder(s: System, events: seq<Event>)
    requires Inv(s) && AllPossible(s, events)
    ensures Inv(Run(s, events))
    ensures NotBehind(Run(s, events).last, s.last)
    ensures Head(s.disk).Some? && Head(Run(s, events).disk).Some? ==> NotBehind(Head(Run(s, events).disk), Head(s.disk))
  {
    if events != [] {
      var t, e := Run(s, events[..|events| - 1]), events[|events| - 1];
      ServedNeverGetsOlder(s, events[..|events| - 1]);
      StepKeeps(t, e);
      if e.Publish? && Passes(t, e) && t.last.Some? { CommitMovesForward(t, e); }
    }
  }

  ghost predicate Intact(events: seq<Event>) {
    forall e :: e in events ==> !e.ManifestLost? && !e.ManifestDamaged?
  }

  /** While the manifest stays intact, a changed head is a strictly newer one. */
  lemma {:induction false} IntactHeadsStrictlyIncrease(s: System, events: seq<Event>)
    requires Inv(s) && Head(s.disk).Some? && AllPossible(s, events) && Intact(events)
    ensures Inv(Run(s, events)) && Head(Run(s, events).disk).Some?
    ensures Head(Run(s, events).disk) == Head(s.disk)
            || Newer(Head(Run(s, events).disk).value.of, Head(s.disk).value.of)
  {
    if events != [] {
      var t, e := Run(s, events[..|events| - 1]), events[|events| - 1];
      assert forall x :: x in events[..|events| - 1] ==> x in events;
      IntactHeadsStrictlyIncrease(s, events[..|events| - 1]);
      assert e in events;
      StepKeeps(t, e);
      StaysReadable(t, e);
      if e.Publish? && Passes(t, e) { CommitMovesForward(t, e); }
    }
  }

  lemma StaysReadable(s: System, e: Event)
    requires Inv(s) && Possible(s, e) && Head(s.disk).Some? && !e.ManifestLost? && !e.ManifestDamaged?
    ensures Head(Step(s, e).disk).Some?
  {
    if e.Publish? && Passes(s, e) {
      if e.steps > Plans.Saves(s.disk, e.p) { CommitKeeps(s, e); } else { CutShortKeeps(s, e); }
    }
  }

  // ----- disks on which nothing is ever forgotten ----------------------------------

  /** Every record on disk carries a readable publication time, as those the store creates do. */
  ghost predicate Stamped(d: Disk) {
    forall v :: v in d.records && Verified(d, v) ==> d.records[v].publishedAt.Some?
  }

  /** A manifest, not a legacy record, and last served a version that is recoverable. */
  ghost predicate StampedInv(s: System) {
    Inv(s) && Stamped(s.disk) && !ReadPointer(s.disk.published).LegacyPointer? && Recoverable(s)
  }

  lemma CommittedHolds(d: Disk, p: Plans.Promotion, steps: nat)
    requires Plans.CanPromote(d, p) && Plans.Saves(d, p) < steps <= |Plans.PromotePlan(d, p)|
    requires Stamped(d) && !ReadPointer(d.published).LegacyPointer?
    ensures var e := ApplyAll(d, Plans.PromotePlan(d, p)[..steps]);
            && Stamped(e) && Head(e) == Some(Digest(p.dataset)) && !ReadPointer(e.published).LegacyPointer?
  {
    Plans.AfterTheCommit(d, p, steps);
    Plans.PromotionRepairs(d, p, steps);
    SavedStaysStamped(d, p);
  }

  ghost predicate StampedWrites(ios: seq<Io>) {
    forall io :: io in ios ==> io.WriteRecord? && io.record.Record? && io.record.publishedAt.Some?
  }

  lemma {:induction false} WritesStayStamped(d: Disk, ios: seq<Io>)
    requires Stamped(d) && StampedWrites(ios)
    ensures Stamped(ApplyAll(d, ios))
  {
    if ios != [] {
      assert ios[|ios| - 1] in ios;
      assert forall io :: io in ios[..|ios| - 1] ==> io in ios;
      WritesStayStamped(d, ios[..|ios| - 1]);
    }
  }

  lemma NothingElseIsSaved(d: Disk, p: Plans.Promotion)
    requires Plans.CanPromote(d, p) && !ReadPointer(d.published).LegacyPointer?
    ensures p.baseline.saved == []
  {
    Plans.SavingExtends(d, Plans.NewRecord(d, p));
  }

  lemma SavedStaysStamped(d: Disk, p: Plans.Promotion)
    requires Plans.CanPromote(d, p)
    requires Stamped(d) && !ReadPointer(d.published).LegacyPointer?
    ensures Stamped(Plans.Saved(d, p))
  {
    NothingElseIsSaved(d, p);
    WritesStayStamped(d, Plans.NewRecord(d, p));
  }

  lemma CutShortStaysStamped(d: Disk, p: Plans.Promotion, steps: nat)
    requires Plans.CanPromote(d, p) && steps <= Plans.Saves(d, p)
    requires Stamped(d) && !ReadPointer(d.published).LegacyPointer?
    ensures Stamped(ApplyAll(d, Plans.PromotePlan(d, p)[..steps]))
  {
    NothingElseIsSaved(d, p);
    assert Plans.PromotePlan(d, p)[..steps] == Plans.NewRecord(d, p)[..steps];
    WritesStayStamped(d, Plans.NewRecord(d, p)[..steps]);
  }

  lemma StampedCommitKeeps(s: System, e: Event)
    requires StampedInv(s) && e.Publish? && Possible(s, e) && Passes(s, e) && e.steps > Plans.Saves(s.disk, e.p)
    ensures StampedInv(Step(s, e))
  {
    CommitKeeps(s, e);
    CommittedHolds(s.disk, e.p, e.steps);
  }

  lemma StampedCutShortKeeps(s: System, e: Event)
    requires StampedInv(s) && e.Publish? && Possible(s, e) && Passes(s, e) && e.steps <= Plans.Saves(s.disk, e.p)
    ensures StampedInv(Step(s, e))
  {
    CutShortKeeps(s, e);
    CutShortStaysStamped(s.disk, e.p, e.steps);
    Plans.BeforeTheCommit(s.disk, e.p, e.steps);
  }

  lemma StampedStepKeeps(s: System, e: Event)
    requires StampedInv(s) && Possible(s, e)
    ensures StampedInv(Step(s, e))
  {
    StepKeeps(s, e);
    if e.Publish? && Passes(s, e) {
      if e.steps > Plans.Saves(s.disk, e.p) { StampedCommitKeeps(s, e); } else { StampedCutShortKeeps(s, e); }
    }
  }

  /** Started from a manifest and stamped records, every run may lose its manifest at any point. */
  lemma {:induction false} ManifestsCanAlwaysBeLost(s: System, events: seq<Event>)
    requires StampedInv(s) && AllPossible(s, events)
    ensures StampedInv(Run(s, events))
    ensures Possible(Run(s, events), ManifestLost) && Possible(Run(s, events), ManifestDamaged)
  {
    if events != [] {
      ManifestsCanAlwaysBeLost(s, events[..|events| - 1]);
      StampedStepKeeps(Run(s, events[..|events| - 1]), events[|events| - 1]);
    }
  }
}
