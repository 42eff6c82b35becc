/**
 The store itself (`DatasetPublicationStore` in `app/dataset_publication_store.py`). Its methods
 change one file at a time and keep a journal of the durable writes; each is proved to carry out
 the plan of the operation, so every crash point of `PublicationPlans` is one of its states.
 */
module PublicationStore {
  import opened Options
  import opened PublicationFiles
  import opened PublicationPlans
  import opened PublicationStatus
  import Ordering = PublicationOrdering

  datatype CandidateFile = NoCandidate | DamagedCandidate | Candidate(version: Version, dataset: Dataset)

  datatype Reason =
    | ValidationFailed
    | InvalidGeneration
    | AttemptStateCorrupt
    | AttemptSuperseded
    | CandidateCorrupt
    | CandidateChanged
    | PublishedCorruptFile
    | PreviousMissing
    | NotRetained
    | AlreadyCurrent

  datatype Result<T> = Done(value: T) | Refused(reason: Reason)

  const DEFAULT_RETENTION := 5

  /** `_configured_publication_retention`: None is a setting that is not a number. */
  function Retention(setting: Option<int>): (r: nat)
    ensures ValidRetention(r)
    ensures setting.None? ==> r == 5
    ensures setting.Some? && setting.value < 2 ==> r == 2
    ensures setting.Some? && 2 <= setting.value <= 20 ==> r == setting.value
    ensures setting.Some? && 20 < setting.value ==> r == 20
  {
    match setting
    case None => DEFAULT_RETENTION
    case Some(n) => if n < MIN_RETENTION then MIN_RETENTION else if n > MAX_RETENTION then MAX_RETENTION else n
  }

  /** What `rollback_target_version` answers. */
  function TargetFor(d: Disk, requested: Option<Version>): Result<Version> {
    match ReadPointer(d.published)
    case BadPointer => Refused(PublishedCorruptFile)
    case LegacyPointer(_) => Refused(PreviousMissing)
    case ManifestPointer(versions) =>
      match requested
      case None => if DefaultTarget(d).Some? then Done(DefaultTarget(d).value) else Refused(PreviousMissing)
      case Some(v) =>
        if v !in versions then Refused(NotRetained)
        else if v == d.published.current then Refused(AlreadyCurrent)
        else if !Verified(d, v) then Refused(PublishedCorruptFile)
        else Done(v)
  }

  /** Every target answered can be rolled back to; by default it is the first valid one below the head. */
  lemma TargetsCanBeRolledBackTo(d: Disk, requested: Option<Version>)
    requires TargetFor(d, requested).Done?
    ensures var v := TargetFor(d, requested).value;
            && v in Listed(d) && v != Listed(d)[0] && Verified(d, v)
            && (requested.Some? ==> v == requested.value)
  {
    if requested.None? {
      SanitizedIsVerified(d, Listed(d));
      ExceptDrops(Sanitized(d, Listed(d)), Listed(d)[0]);
      assert DefaultTarget(d).value in Except(Sanitized(d, Listed(d)), Listed(d)[0]);
    }
  }

  /** A default target is missing only when nothing below the head is valid. */
  lemma DefaultTargetIsMissingExactlyWhen(d: Disk)
    requires ReadPointer(d.published).ManifestPointer?
    ensures TargetFor(d, None) == Refused(PreviousMissing)
       <==> forall v :: v in Listed(d) && v != Listed(d)[0] ==> !Verified(d, v)
  {
    SanitizedIsVerified(d, Listed(d));
    ExceptDrops(Sanitized(d, Listed(d)), Listed(d)[0]);
    var others := Except(Sanitized(d, Listed(d)), Listed(d)[0]);
    if others != [] { assert others[0] in others; }
  }

  ghost predicate Pruned(d: Disk, retained: seq<Version>, stuck: set<Version>) {
    forall v :: v in d.records ==> v in retained || v in stuck
  }

  /** The order of the discovery: freshest first, then last published, then by the version's text, all descending. */
  predicate Precedes(d: Disk, v: Version, w: Version, now: int, place: Version -> int)
    requires Discoverable(d, v, now) && Discoverable(d, w, now)
  {
    NoOlder(d, v, w, now) && (NoOlder(d, w, v, now) ==> place(w) <= place(v))
  }

  ghost predicate Sorted(d: Disk, vs: seq<Version>, now: int, place: Version -> int) {
    && (forall v :: v in vs ==> Discoverable(d, v, now))
    && (forall i, j :: 0 <= i < j < |vs| ==> Precedes(d, vs[i], vs[j], now, place))
  }

  /** The recoverable ones among the files looked at so far, in order. */
  ghost predicate IsListing(d: Disk, vs: seq<Version>, now: int, seen: set<Version>, place: Version -> int) {
    && Distinct(vs)
    && (forall v :: v in vs <==> v in seen && Discoverable(d, v, now))
    && Sorted(d, vs, now, place)
  }

  lemma InsertedIsSorted(d: Disk, vs: seq<Version>, now: int, place: Version -> int, v: Version, at: nat)
    requires Sorted(d, vs, now, place) && Discoverable(d, v, now) && at <= |vs|
    requires forall i :: 0 <= i < at ==> Precedes(d, vs[i], v, now, place)
    requires at < |vs| ==> !Precedes(d, vs[at], v, now, place)
    ensures Sorted(d, vs[..at] + [v] + vs[at..], now, place)
  {
    forall j | at <= j < |vs| ensures Precedes(d, v, vs[j], now, place) {
      assert vs[at] in vs && vs[j] in vs;
      assert j == at || Precedes(d, vs[at], vs[j], now, place);
    }
    var inserted := vs[..at] + [v] + vs[at..];
    forall i, j | 0 <= i < j < |inserted| ensures Precedes(d, inserted[i], inserted[j], now, place) {
      assert i < at ==> inserted[i] == vs[i];
      assert j > at ==> inserted[j] == vs[j - 1];
    }
  }

  lemma InsertedInOrder(
      d: Disk, vs: seq<Version>, now: int, seen: set<Version>, place: Version -> int, v: Version, at: nat)
    requires IsListing(d, vs, now, seen, place) && v !in seen && Discoverable(d, v, now) && at <= |vs|
    requires Sorted(d, vs[..at] + [v] + vs[at..], now, place)
    ensures IsListing(d, vs[..at] + [v] + vs[at..], now, seen + {v}, place)
  {
    assert vs == vs[..at] + vs[at..];
  }

  lemma FirstOtherIsFound(d: Disk, vs: seq<Version>, i: nat, current: Version)
    requires i < |vs| && Except(Sanitized(d, vs[..i]), current) == []
    requires vs[i] != current && Verified(d, vs[i])
    ensures Except(Sanitized(d, vs), current) != [] && Except(Sanitized(d, vs), current)[0] == vs[i]
  {
    assert vs[..i + 1][..i] == vs[..i];
    ExceptSplits(Sanitized(d, vs[..i]), [vs[i]], current);
    assert [vs[i]][..0] == [];
    SanitizedSplits(d, vs[..i + 1], vs[i + 1..]);
    assert vs[..i + 1] + vs[i + 1..] == vs;
    ExceptSplits(Sanitized(d, vs[..i + 1]), Sanitized(d, vs[i + 1..]), current);
  }

  lemma {:induction false} SanitizedSplits(d: Disk, a: seq<Version>, b: seq<Version>)
    ensures Sanitized(d, a + b) == Sanitized(d, a) + Sanitized(d, b)
  {
    if b == [] {
      assert a + b == a;
    } else {
      assert (a + b)[..|a + b| - 1] == a + b[..|b| - 1];
      SanitizedSplits(d, a, b[..|b| - 1]);
    }
  }

  lemma NextOfPrefix(d: Disk, vs: seq<Version>, i: nat, v: Version)
    requires i < |vs|
    ensures Sanitized(d, vs[..i + 1]) == Sanitized(d, vs[..i]) + if Verified(d, vs[i]) then [vs[i]] else []
    ensures Except(Sanitized(d, vs[..i + 1]), v)
         == Except(Sanitized(d, vs[..i]), v) + if vs[i] != v && Verified(d, vs[i]) then [vs[i]] else []
  {
    assert vs[..i + 1][..i] == vs[..i];
    var before := Sanitized(d, vs[..i]);
    ExceptSplits(before, [vs[i]], v);
    assert [vs[i]][..0] == [];
    assert before + [] == before;
  }

  lemma Associates(a: seq<Io>, b: seq<Io>, c: seq<Io>)
    ensures a + b + c == a + (b + c)
  {
  }

  /** A promotion is settled once its commit, and with it the removals, is known. */
  lemma PlanFromParts(d: Disk, p: Promotion, q: Promotion)
    requires ValidRetention(p.retention) && (Digest(p.dataset) in d.records ==> Verified(d, Digest(p.dataset)))
    requires IsBaseline(ApplyAll(d, NewRecord(d, p)), p.baseline, p.now)
    requires q == p.(removals := q.removals) && Prunes(q.removals, PromotedHistory(d, p), p.retention)
    ensures CanPromote(d, q) && PromotedHistory(d, q) == PromotedHistory(d, p)
    ensures PromotePlan(d, q)
         == NewRecord(d, p) + p.baseline.saved + CommitPlan(PromotedHistory(d, p), p.retention, p.now, q.removals)
    ensures ApplyAll(d, PromotePlan(d, q))
         == ApplyAll(Saved(d, p), CommitPlan(PromotedHistory(d, p), p.retention, p.now, q.removals))
  {
    ApplyAllAppends(d, NewRecord(d, p), p.baseline.saved);
    ApplyAllAppends(
      d, NewRecord(d, p) + p.baseline.saved, CommitPlan(PromotedHistory(d, p), p.retention, p.now, q.removals));
  }

  /** Why a promotion is refused, if it is, once its generation is settled. */
  function Objection(
      d: Disk, c: CandidateFile, a: AttemptFile, version: Version, validated: bool, own: int): Option<Reason> {
    if !validated then Some(ValidationFailed)
    else if a.DamagedAttempts? then Some(AttemptStateCorrupt)
    else if !a.LastAttempt? || a.generation != own then Some(AttemptSuperseded)
    else if !c.Candidate? || Digest(c.dataset) != c.version then Some(CandidateCorrupt)
    else if c.version != version then Some(CandidateChanged)
    else if version in d.records && !Verified(d, version) then Some(PublishedCorruptFile)
    else None
  }

  /** The objections to a promotion come in the order validation, attempt, candidate, existing record. */
  lemma ObjectionsMean(d: Disk, c: CandidateFile, a: AttemptFile, version: Version, validated: bool, own: int)
    ensures var objection := Objection(d, c, a, version, validated, own);
            var latest := validated && a.LastAttempt? && a.generation == own;
            var staged := latest && c.Candidate? && c.version == Digest(c.dataset);
            && (objection == Some(ValidationFailed) <==> !validated)
            && (objection == Some(AttemptStateCorrupt) <==> validated && a.DamagedAttempts?)
            && (objection == Some(AttemptSuperseded) <==> validated && !a.DamagedAttempts? && !latest)
            && (objection == Some(CandidateCorrupt) <==> latest && !staged)
            && (objection == Some(CandidateChanged) <==> staged && c.version != version)
            && (objection == Some(PublishedCorruptFile) <==>
                  staged && c.version == version && version in d.records && !Verified(d, version))
            && (objection == None <==>
                  staged && c.version == version && (version in d.records ==> Verified(d, version)))
  {
  }

  /** Why there is no rollback target. */
  lemma TargetRefusalsMean(d: Disk, requested: Option<Version>)
    ensures var r := TargetFor(d, requested);
            var manifest := ReadPointer(d.published).ManifestPointer?;
            && (ReadPointer(d.published).BadPointer? ==> r == Refused(PublishedCorruptFile))
            && (ReadPointer(d.published).LegacyPointer? ==> r == Refused(PreviousMissing))
            && (manifest && requested.Some? ==>
                  && (r == Refused(NotRetained) <==> requested.value !in Listed(d))
                  && (r == Refused(AlreadyCurrent) <==> requested.value == Listed(d)[0])
                  && (r == Refused(PublishedCorruptFile) <==>
                        && requested.value in Listed(d) && requested.value != Listed(d)[0]
                        && !Verified(d, requested.value)))
  {
  }

  /** Why a rollback is refused, if it is. */
  function RollbackObjection(d: Disk, target: Version, validated: bool): Option<Reason> {
    if !validated then Some(ValidationFailed)
    else
      match ReadPointer(d.published)
      case BadPointer => Some(PublishedCorruptFile)
      case LegacyPointer(_) => Some(PreviousMissing)
      case ManifestPointer(versions) =>
        if target !in versions then Some(NotRetained)
        else if versions[0] == target then Some(AlreadyCurrent)
        else if !Verified(d, target) then Some(PublishedCorruptFile)
        else None
  }

  /** A rollback is carried out exactly if it was validated, and its target is listed, not the head, and verified. */
  lemma RollbackObjectionsMean(d: Disk, target: Version, validated: bool)
    ensures var (objection, pointer) := (RollbackObjection(d, target, validated), ReadPointer(d.published));
            && (objection == None <==>
                  validated && target in Listed(d) && target != Listed(d)[0] && Verified(d, target))
            && (objection == Some(ValidationFailed) <==> !validated)
            && (objection == Some(PreviousMissing) <==> validated && pointer.LegacyPointer?)
            && (objection == Some(NotRetained) <==> validated && pointer.ManifestPointer? && target !in Listed(d))
            && (objection == Some(AlreadyCurrent) <==>
                  validated && pointer.ManifestPointer? && target == Listed(d)[0])
            && (objection == Some(PublishedCorruptFile) <==>
                  && validated
                  && (pointer.BadPointer? || (target in Listed(d) && target != Listed(d)[0] && !Verified(d, target))))
  {
  }

  class DatasetPublicationStore {
    /** Where a version stands in the order of the versions' texts. */
    const place: Version -> int
    var records: map<Version, RecordFile>
    var published: PublishedFile
    var candidate: CandidateFile
    var attempts: AttemptFile
    var cache: Cache
    var status: StatusFile
    ghost var journal: seq<Io>

    constructor (place: Version -> int)
      ensures this.place == place
      ensures Files() == Disk(map[], NotPublished) && Beside() == Sides(NoCache, NoStatus)
      ensures candidate == NoCandidate && attempts == NoAttempts && journal == []
    {
      this.place := place;
      records, published := map[], NotPublished;
      candidate, attempts, cache, status := NoCandidate, NoAttempts, NoCache, NoStatus;
      journal := [];
    }

    function Files(): Disk
      reads this
    {
      Disk(records, published)
    }

    function Beside(): Sides
      reads this
    {
      Sides(cache, status)
    }

    // ----- durable writes ----------------------------------------------------------

    method SaveRecord(version: Version, record: RecordFile)
      modifies this`records, this`journal
      ensures journal == old(journal) + [WriteRecord(version, record)]
      ensures Files() == Apply(old(Files()), WriteRecord(version, record))
    {
      records := records[version := record];
      journal := journal + [WriteRecord(version, record)];
    }

    method SavePointer(manifest: PublishedFile)
      modifies this`published, this`journal
      ensures journal == old(journal) + [WriteManifest(manifest)]
      ensures Files() == Apply(old(Files()), WriteManifest(manifest))
    {
      published := manifest;
      journal := journal + [WriteManifest(manifest)];
    }

    method RemoveRecord(version: Version)
      modifies this`records, this`journal
      ensures journal == old(journal) + [Unlink(version)]
      ensures Files() == Apply(old(Files()), Unlink(version))
    {
      records := records - {version};
      journal := journal + [Unlink(version)];
    }

    // ----- attempts and candidates -------------------------------------------------

    method BeginPublicationAttempt(clock: nat) returns (generation: nat)
      modifies this`attempts
      ensures generation == NextGeneration(old(attempts), status, published != NotPublished, clock)
      ensures attempts == LastAttempt(generation)
    {
      var last: int := 0;
      if attempts.LastAttempt? { last := attempts.generation; }
      if status.StatusRecord? && status.status.generation.Some? {
        last := Max(last, status.status.generation.value);
      }
      if !attempts.LastAttempt? && (attempts.DamagedAttempts? || last != 0 || published != NotPublished) {
        last := Max(last, clock);
      }
      generation := last + 1;
      attempts := LastAttempt(generation);
    }

    method StageCandidate(dataset: Dataset) returns (version: Version)
      modifies this`candidate
      ensures version == Digest(dataset) && candidate == Candidate(version, dataset)
    {
      version := Digest(dataset);
      candidate := Candidate(version, dataset);
    }

    // ----- histories ---------------------------------------------------------------

    /** Every recoverable version, freshest first. */
    method DiscoverValidVersions(now: int) returns (versions: seq<Version>)
      ensures IsDiscovery(Files(), versions, now) && Sorted(Files(), versions, now, place)
    {
      versions := [];
      var paths := records.Keys;
      ghost var seen: set<Version> := {};
      while paths != {}
        invariant seen !! paths && seen + paths == records.Keys
        invariant IsListing(Files(), versions, now, seen, place)
        decreases paths
      {
        var path :| path in paths;
        if Discoverable(Files(), path, now) {
          var at := 0;
          while at < |versions| && Precedes(Files(), versions[at], path, now, place)
            invariant at <= |versions|
            invariant forall i :: 0 <= i < at ==> Precedes(Files(), versions[i], path, now, place)
          {
            at := at + 1;
          }
          InsertedIsSorted(Files(), versions, now, place, path, at);
          InsertedInOrder(Files(), versions, now, seen, place, path, at);
          versions := versions[..at] + [path] + versions[at..];
        }
        paths := paths - {path};
        seen := seen + {path};
      }
    }

    /** The versions whose record is still valid, in order. */
    method Sanitize(versions: seq<Version>) returns (valid: seq<Version>)
      ensures valid == Sanitized(Files(), versions)
    {
      valid := [];
      for i := 0 to |versions|
        invariant valid == Sanitized(Files(), versions[..i])
      {
        NextOfPrefix(Files(), versions, i, versions[i]);
        if Verified(Files(), versions[i]) { valid := valid + [versions[i]]; }
      }
      assert versions[..|versions|] == versions;
    }

    /** Removes every record that is not retained, save the `stuck` files that resist removal. */
    method PruneRecords(retained: seq<Version>, stuck: set<Version>) returns (ghost removals: seq<Version>)
      modifies this`records, this`journal
      ensures forall v :: v in removals ==> v !in retained
      ensures journal == old(journal) + Unlinks(removals)
      ensures Files() == ApplyAll(old(Files()), Unlinks(removals))
      ensures Pruned(Files(), retained, stuck)
    {
      removals := [];
      var paths := records.Keys;
      while paths != {}
        invariant forall v :: v in removals ==> v !in retained
        invariant journal == old(journal) + Unlinks(removals)
        invariant Files() == ApplyAll(old(Files()), Unlinks(removals))
        invariant forall v :: v in records ==> v in paths || v in retained || v in stuck
        decreases paths
      {
        var path :| path in paths;
        if path !in retained && path !in stuck {
          RemoveRecord(path);
          assert Unlinks(removals + [path])[..|removals|] == Unlinks(removals);
          removals := removals + [path];
        }
        paths := paths - {path};
      }
    }

    /** Commits a history and removes what it does not retain. */
    method CommitManifest(history: seq<Version>, retention: nat, now: int, stuck: set<Version>)
      returns (ghost removals: seq<Version>)
      requires history != [] && ValidRetention(retention)
      modifies this`records, this`published, this`journal
      ensures Prunes(removals, history, retention)
      ensures journal == old(journal) + CommitPlan(history, retention, now, removals)
      ensures Files() == ApplyAll(old(Files()), CommitPlan(history, retention, now, removals))
      ensures Pruned(Files(), Take(history, retention), stuck)
    {
      var retained := Take(history, retention);
      ghost var commit := [WriteManifest(ManifestFor(history, retention, now))];
      assert commit[..0] == [];
      SavePointer(Manifest(retained[0], retained, now, ChecksumOf(retained[0], retained, now)));
      removals := PruneRecords(retained, stuck);
      ApplyAllAppends(old(Files()), commit, Unlinks(removals));
    }

    /** The versions a promotion starts from; a legacy publication is saved as a record first. */
    method ExistingVersions(now: int) returns (listed: seq<Version>, ghost saved: seq<Io>)
      modifies this`records, this`journal
      ensures IsBaseline(old(Files()), Baseline(listed, saved), now)
      ensures journal == old(journal) + saved
      ensures Files() == ApplyAll(old(Files()), saved)
    {
      saved := [];
      var pointer := ReadPointer(published);
      if pointer.ManifestPointer? && pointer.versions != [] && Verified(Files(), pointer.versions[0]) {
        listed := pointer.versions;
      } else if pointer.LegacyPointer? && pointer.version !in records {
        var record := Record(pointer.version, published.dataset, published.publishedAt);
        SaveRecord(pointer.version, record);
        listed := [pointer.version];
        saved := [WriteRecord(pointer.version, record)];
        assert saved[..0] == [];
      } else if pointer.LegacyPointer? && Verified(Files(), pointer.version) {
        listed := [pointer.version];
      } else {
        listed := DiscoverValidVersions(now);
      }
    }

    // ----- promote and roll back ---------------------------------------------------

    /** An immutable record is written once; an existing one is kept. */
    method KeepRecord(version: Version, candidateRecord: RecordFile) returns (record: RecordFile)
      modifies this`records, this`journal
      ensures version in records && record == records[version]
      ensures var writes := if version in old(records) then [] else [WriteRecord(version, candidateRecord)];
              journal == old(journal) + writes && Files() == ApplyAll(old(Files()), writes)
    {
      if version !in records {
        SaveRecord(version, candidateRecord);
        assert [WriteRecord(version, candidateRecord)][..0] == [];
      }
      record := records[version];
    }

    /** Everything a promotion writes before its commit. */
    method SaveRecords(version: Version, dataset: Dataset, retention: nat, now: int)
      returns (record: RecordFile, listed: seq<Version>, ghost p: Promotion)
      requires Digest(dataset) == version
      modifies this`records, this`journal
      ensures p == Promotion(dataset, Baseline(listed, p.baseline.saved), retention, now, [])
      ensures IsBaseline(ApplyAll(old(Files()), NewRecord(old(Files()), p)), p.baseline, now)
      ensures journal == old(journal) + (NewRecord(old(Files()), p) + p.baseline.saved)
      ensures Files() == Saved(old(Files()), p)
    {
      record := KeepRecord(version, Record(version, dataset, Some(now)));
      ghost var saved;
      listed, saved := ExistingVersions(now);
      p := Promotion(dataset, Baseline(listed, saved), retention, now, []);
    }

    /** The writes of a promotion that nothing objects to. */
    method Publish(version: Version, dataset: Dataset, retention: nat, now: int, stuck: set<Version>)
      returns (record: RecordFile, ghost p: Promotion)
      requires Digest(dataset) == version && ValidRetention(retention)
      requires version in records ==> Verified(Files(), version)
      modifies this`records, this`published, this`journal
      ensures p.dataset == dataset && p.retention == retention && p.now == now
      ensures CanPromote(old(Files()), p)
      ensures journal == old(journal) + PromotePlan(old(Files()), p)
      ensures Files() == ApplyAll(old(Files()), PromotePlan(old(Files()), p))
      ensures Pruned(Files(), Take(PromotedHistory(old(Files()), p), retention), stuck)
    {
      ghost var was := Files();
      var listed;
      record, listed, p := SaveRecords(version, dataset, retention, now);
      var valid := Sanitize(listed);
      var history := [version] + Except(valid, version);
      assert history == PromotedHistory(was, p);
      ghost var removals := CommitManifest(history, retention, now, stuck);
      PlanFromParts(was, p, p.(removals := removals));
      Associates(old(journal), NewRecord(was, p) + p.baseline.saved, CommitPlan(history, retention, now, removals));
      p := p.(removals := removals);
    }

    /** A promotion is refused and changes nothing that is published, or carries out a plan for the candidate. */
    method PromoteCandidate(
        version: Version, validated: bool, generation: Option<int>, clock: nat, setting: Option<int>, now: int,
        stuck: set<Version>)
      returns (r: Result<RecordFile>, own: int, ghost p: Promotion)
      modifies this`attempts, this`records, this`published, this`journal
      ensures !validated || generation.Some? ==> attempts == old(attempts)
      ensures generation.Some? ==> own == generation.value
      ensures validated && generation.None? ==>
                && own == NextGeneration(old(attempts), status, old(published) != NotPublished, clock)
                && attempts == LastAttempt(own)
      ensures r.Refused? <==> Objection(old(Files()), candidate, attempts, version, validated, own).Some?
      ensures r.Refused? ==> Objection(old(Files()), candidate, attempts, version, validated, own) == Some(r.reason)
      ensures r.Refused? ==> Files() == old(Files()) && journal == old(journal)
      ensures r.Done? ==> Digest(p.dataset) == version && p.retention == Retention(setting) && p.now == now
      ensures r.Done? ==> CanPromote(old(Files()), p)
      ensures r.Done? ==> journal == old(journal) + PromotePlan(old(Files()), p)
      ensures r.Done? ==> Files() == ApplyAll(old(Files()), PromotePlan(old(Files()), p))
      ensures r.Done? ==> Pruned(Files(), Take(PromotedHistory(old(Files()), p), p.retention), stuck)
    {
      p := Promotion(version.of, Baseline([], []), Retention(setting), now, []);
      own := if generation.Some? then generation.value else 0;
      if !validated { return Refused(ValidationFailed), own, p; }
      own := OwnGeneration(generation, clock);
      if attempts.DamagedAttempts? { return Refused(AttemptStateCorrupt), own, p; }
      if !attempts.LastAttempt? || attempts.generation != own { return Refused(AttemptSuperseded), own, p; }
      if !candidate.Candidate? || Digest(candidate.dataset) != candidate.version {
        return Refused(CandidateCorrupt), own, p;
      }
      if candidate.version != version { return Refused(CandidateChanged), own, p; }
      if version in records && !Verified(Files(), version) { return Refused(PublishedCorruptFile), own, p; }
      var record;
      record, p := Publish(version, candidate.dataset, Retention(setting), now, stuck);
      r := Done(record);
    }

    /** The version an operator's rollback goes to, asked for or by default. */
    method RollbackTargetVersion(requested: Option<Version>) returns (r: Result<Version>)
      ensures r == TargetFor(Files(), requested)
    {
      var pointer := ReadPointer(published);
      if pointer.BadPointer? { return Refused(PublishedCorruptFile); }
      if pointer.LegacyPointer? { return Refused(PreviousMissing); }
      var current, history := published.current, pointer.versions;
      if requested.Some? {
        if requested.value !in history { return Refused(NotRetained); }
        if requested.value == current { return Refused(AlreadyCurrent); }
        if !Verified(Files(), requested.value) { return Refused(PublishedCorruptFile); }
        return Done(requested.value);
      }
      for i := 0 to |history|
        invariant Except(Sanitized(Files(), history[..i]), current) == []
      {
        NextOfPrefix(Files(), history, i, current);
        if history[i] != current && Verified(Files(), history[i]) {
          FirstOtherIsFound(Files(), history, i, current);
          return Done(history[i]);
        }
      }
      assert history[..|history|] == history;
      r := Refused(PreviousMissing);
    }

    method RollbackToVersion(target: Version, validated: bool, setting: Option<int>, now: int, stuck: set<Version>)
      returns (result: Result<RecordFile>, ghost r: Rollback)
      modifies this`records, this`published, this`journal
      ensures result.Refused? <==> RollbackObjection(old(Files()), target, validated).Some?
      ensures result.Refused? ==> RollbackObjection(old(Files()), target, validated) == Some(result.reason)
      ensures result.Refused? ==> Files() == old(Files()) && journal == old(journal)
      ensures result.Done? ==> r.target == target && r.retention == Retention(setting) && CanRollBack(old(Files()), r)
      ensures result.Done? ==> journal == old(journal) + RollbackPlan(old(Files()), r)
      ensures result.Done? ==> Files() == ApplyAll(old(Files()), RollbackPlan(old(Files()), r))
    {
      r := Rollback(target, Retention(setting), now, []);
      if !validated { return Refused(ValidationFailed), r; }
      var pointer := ReadPointer(published);
      if pointer.BadPointer? { return Refused(PublishedCorruptFile), r; }
      if pointer.LegacyPointer? { return Refused(PreviousMissing), r; }
      var history := pointer.versions;
      if target !in history { return Refused(NotRetained), r; }
      if history[0] == target { return Refused(AlreadyCurrent), r; }
      if !Verified(Files(), target) { return Refused(PublishedCorruptFile), r; }
      var record := records[target];
      var valid: seq<Version> := [];
      for i := 0 to |history|
        invariant Files() == old(Files()) && journal == old(journal)
        invariant valid == Except(Sanitized(Files(), history[..i]), target)
      {
        NextOfPrefix(Files(), history, i, target);
        if history[i] != target && Verified(Files(), history[i]) { valid := valid + [history[i]]; }
      }
      assert history[..|history|] == history;
      ghost var removals := CommitManifest([target] + valid, Retention(setting), now, stuck);
      r := r.(removals := removals);
      result := Done(record);
    }

    // ----- cache and status --------------------------------------------------------

    /** Without a generation the call begins an attempt of its own. */
    method OwnGeneration(generation: Option<int>, clock: nat) returns (own: int)
      modifies this`attempts
      ensures generation.Some? ==> own == generation.value && attempts == old(attempts)
      ensures generation.None? ==> own == NextGeneration(old(attempts), status, published != NotPublished, clock)
      ensures generation.None? ==> attempts == LastAttempt(own)
    {
      if generation.Some? { own := generation.value; } else { own := BeginPublicationAttempt(clock); }
    }

    /** The status to write, built up from the preserved winner's status or from the attempt's. */
    method ReconcilePayload(current: Version, fetchedAt: Option<int>, existing: StatusFile, latestAttempt: AttemptFile,
                            req: Request, cacheSynced: bool)
      returns (payload: Status)
      ensures payload == ReconciledStatus(current, fetchedAt, existing, latestAttempt, req, cacheSynced)
    {
      var existingGeneration := StatusGeneration(existing);
      var latest := if latestAttempt.LastAttempt? then latestAttempt.generation else req.generation;
      var manifestSuperseded := req.expected.Some? && req.expected.value != current;
      var generationSuperseded := req.generation < Max(existingGeneration, latest);
      var superseded := manifestSuperseded || generationSuperseded;
      var matches := existing.StatusRecord?
                     && (existing.status.datasetVersion == Some(current)
                         || existing.status.publishedVersion == Some(current));
      var preserved := superseded && matches;

      var source := if preserved then existing.status else req.status;
      var state, fetched := source.state, source.fetchedAt;
      var serving, lastRefresh := source.servingCached, source.lastRefresh;
      var attemptedState := state;
      var refreshFailed := attemptedState.Some? && attemptedState.value != Fine;
      if !preserved { state, fetched := Some(Fine), fetchedAt; }
      var winner := if preserved then source.candidateVersion else if superseded then Some(current) else req.candidate;
      if winner.None? { winner := Some(current); }
      var applied: int := req.generation;
      if preserved {
        applied := existingGeneration;
      } else if superseded {
        applied := Max(req.generation, Max(existingGeneration, latest));
        refreshFailed := false;
      }
      var stamp := if superseded then Some(Supersession(req.expected, req.candidate, req.generation)) else None;
      if !preserved && refreshFailed {
        serving, lastRefresh := true, Some(RefreshState(attemptedState.value));
      } else if !preserved && cacheSynced {
        serving, lastRefresh := false, None;
      }
      if !cacheSynced {
        serving := true;
        if !refreshFailed && !preserved { lastRefresh := Some(CacheSyncError); }
      }
      payload := Status(
        state, Some(applied), Some(current), Some(current), winner, fetched, serving, lastRefresh, stamp);
    }

    method ReconcileCurrentPublication(
        candidateVersion: Option<Version>, expected: Option<Version>, attempted: Status, generation: Option<int>,
        clock: nat, w: CacheWrite, statusWritten: bool)
      returns (r: Result<Status>, own: int)
      modifies this`attempts, this`cache, this`status
      ensures generation.Some? ==> own == generation.value && attempts == old(attempts)
      ensures generation.None? ==> own == NextGeneration(old(attempts), old(status), published != NotPublished, clock)
      ensures generation.None? ==> attempts == LastAttempt(own)
      ensures own < 1 ==> r == Refused(InvalidGeneration) && Beside() == old(Beside())
      ensures own >= 1 && Head(Files()).None? ==> r == Refused(PublishedCorruptFile) && Beside() == old(Beside())
      ensures own >= 1 && Head(Files()).Some? ==>
                var req := Request(candidateVersion, expected, attempted, own);
                var (head, fetchedAt) := (Head(Files()).value, HeadDataset(Files()).fetchedAt);
                && Some(Beside()) == Reconcile(Files(), old(Beside()), attempts, req, w, statusWritten)
                && r == Done(ReconciledStatus(head, fetchedAt, old(status), attempts, req, w.CacheWritten?))
    {
      own := OwnGeneration(generation, clock);
      if own < 1 { return Refused(InvalidGeneration), own; }
      if Head(Files()).None? { return Refused(PublishedCorruptFile), own; }
      var current, dataset := Head(Files()).value, HeadDataset(Files());
      if !w.CacheNotWritten? { cache := Cached(dataset); }
      var payload := ReconcilePayload(current, dataset.fetchedAt, status, attempts,
                                      Request(candidateVersion, expected, attempted, own), w.CacheWritten?);
      if statusWritten { status := StatusRecord(payload); }
      r := Done(payload);
    }

    method RecordStatusWithoutPublication(
        attempted: Status, generation: Option<int>, clock: nat, w: CacheWrite, statusWritten: bool)
      returns (own: int, answer: Option<Status>)
      modifies this`attempts, this`cache, this`status
      ensures generation.Some? ==> own == generation.value && attempts == old(attempts)
      ensures generation.None? ==> own == NextGeneration(old(attempts), old(status), published != NotPublished, clock)
      ensures generation.None? ==> attempts == LastAttempt(own)
      ensures own < 1 ==> Beside() == old(Beside()) && answer == None
      ensures own >= 1 ==>
                var req := Request(None, None, attempted, own);
                && Beside() == RecordFailure(Files(), old(Beside()), attempts, req, w, statusWritten)
                && answer == FailureAnswer(Files(), old(Beside()), attempts, req, w, statusWritten)
    {
      own := OwnGeneration(generation, clock);
      if own < 1 { return own, None; }
      if published != NotPublished {
        var reconciled, _ :=
          ReconcileCurrentPublication(attempted.candidateVersion, None, attempted, Some(own), clock, w, statusWritten);
        if reconciled.Done? { return own, Some(reconciled.value); }
      }
      var latest := if attempts.LastAttempt? then attempts.generation else own;
      if own < Max(latest, StatusGeneration(status)) {
        if status.StatusRecord? { return own, Some(status.status); }
        var stamp := if attempted.superseded.Some? then attempted.superseded.value.(generation := own)
                     else Supersession(None, None, own);
        return own, Some(attempted.(superseded := Some(stamp)));
      }
      if !statusWritten { return own, None; }
      var payload := attempted.(generation := Some(own), datasetVersion := None, publishedVersion := None);
      status := StatusRecord(payload);
      answer := Some(payload);
    }

    // ----- the whole publication ---------------------------------------------------

    /** Compares a candidate with the publication, the caller's baseline or what can be recovered. */
    method JudgeCandidate(
        version: Version, dataset: Dataset, given: Ordering.Given, checks: Ordering.Checks, maxAge: nat, now: int)
      returns (verdict: Ordering.Verdict, ghost found: seq<Version>)
      requires version == Digest(dataset)
      ensures IsDiscovery(Files(), found, now)
      ensures verdict == Ordering.Judge(Files(), given, found, dataset, checks, now, maxAge)
    {
      var previous: Option<Dataset> := None;
      var recovered: Option<Version> := None;
      var repairAllowed := published == NotPublished || ReadPointer(published).BadPointer?;
      if Head(Files()).Some? && given.Unset? { previous := Some(HeadDataset(Files())); }
      var immutable := DiscoverValidVersions(now);
      found := immutable;
      if given.Given? {
        previous := given.previous;
      } else if previous.None? && immutable != [] {
        assert immutable[0] in immutable;
        recovered := Some(immutable[0]);
        previous := Some(records[immutable[0]].dataset);
      }
      var exactRepair := repairAllowed && recovered == Some(version);
      var obsolete := false;
      if previous.Some? && previous.value.fetchedAt.Some? && dataset.fetchedAt.Some? {
        obsolete := dataset.fetchedAt.value <= previous.value.fetchedAt.value && !exactRepair;
      }
      var regression := previous.Some? && checks.regressed;
      verdict := if obsolete then Ordering.Reject(Ordering.Obsolete)
                 else if regression then Ordering.Reject(Ordering.Regression)
                 else if !checks.contentOk || !Ordering.InTime(dataset, now, maxAge)
                 then Ordering.Reject(Ordering.Validation)
                 else Ordering.Pass;
    }

    /** `validate_and_publish_standard_cards_candidate`, with the verdicts of the content checks given. */
    method ValidateAndPublish(dataset: Dataset, generation: nat, given: Ordering.Given, checks: Ordering.Checks,
                              maxAge: nat, setting: Option<int>, now: int, stuck: set<Version>)
      returns (verdict: Ordering.Verdict, promoted: Result<RecordFile>, ghost found: seq<Version>, ghost p: Promotion)
      modifies this`candidate, this`attempts, this`records, this`published, this`journal
      ensures candidate == Candidate(Digest(dataset), dataset) && attempts == old(attempts)
      ensures IsDiscovery(old(Files()), found, now)
      ensures verdict == Ordering.Judge(old(Files()), given, found, dataset, checks, now, maxAge)
      ensures verdict != Ordering.Pass ==> promoted.Refused?
      ensures promoted.Refused? ==> Files() == old(Files()) && journal == old(journal)
      ensures verdict == Ordering.Pass ==>
                (promoted.Done? <==> attempts == LastAttempt(generation)
                                     && (Digest(dataset) in old(records) ==> Verified(old(Files()), Digest(dataset))))
      ensures promoted.Done? ==> p.dataset == dataset && CanPromote(old(Files()), p)
      ensures promoted.Done? ==> Files() == ApplyAll(old(Files()), PromotePlan(old(Files()), p))
      ensures promoted.Done? ==> journal == old(journal) + PromotePlan(old(Files()), p)
    {
      var version := StageCandidate(dataset);
      verdict, found := JudgeCandidate(version, dataset, given, checks, maxAge, now);
      if verdict != Ordering.Pass {
        p := Promotion(dataset, Baseline([], []), 0, now, []);
        return verdict, Refused(ValidationFailed), found, p;
      }
      var own: int;
      promoted, own, p := PromoteCandidate(version, true, Some(generation), 0, setting, now, stuck);
    }
  }
}
