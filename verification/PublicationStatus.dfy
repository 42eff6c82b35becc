/**
 What readers are told (`app/dataset_publication_store.py`): attempt generations, the mutable
 cache and status beside the publication, their reconciliation with the published head, and the
 freshness that `read_published` reports.
 */
module PublicationStatus {
  import opened Options
  import opened PublicationFiles

  datatype AttemptFile = NoAttempts | DamagedAttempts | LastAttempt(generation: nat)

  /** A source state: the fine one, or any of the failing ones. */
  datatype State = Fine | Failing(code: nat)

  datatype LastRefresh = RefreshState(state: State) | CacheSyncError

  datatype Supersession = Supersession(expected: Option<Version>, candidate: Option<Version>, generation: int)

  datatype Status = Status(
    state: Option<State>,
    generation: Option<int>,
    datasetVersion: Option<Version>,
    publishedVersion: Option<Version>,
    candidateVersion: Option<Version>,
    fetchedAt: Option<int>,
    servingCached: bool,
    lastRefresh: Option<LastRefresh>,
    superseded: Option<Supersession>)

  datatype StatusFile = NoStatus | DamagedStatus | StatusRecord(status: Status)

  datatype Cache = NoCache | DamagedCache | Cached(dataset: Dataset)

  // ----- generations ---------------------------------------------------------------

  function Max(a: int, b: int): int {
    if a < b then b else a
  }

  function StatusGeneration(f: StatusFile): int {
    if f.StatusRecord? && f.status.generation.Some? then f.status.generation.value else 0
  }

  function Recorded(a: AttemptFile): nat {
    if a.LastAttempt? then a.generation else 0
  }

  /** `begin_publication_attempt`: a lost control file falls back on the clock. */
  function NextGeneration(a: AttemptFile, f: StatusFile, publishedExists: bool, clock: nat): nat {
    var known := Max(Recorded(a), StatusGeneration(f));
    if !a.LastAttempt? && (a.DamagedAttempts? || known != 0 || publishedExists)
    then Max(known, clock) + 1
    else known + 1
  }

  /** The next generation follows the highest known; with the control file lost and a reason to suspect more,
      it follows the clock as well. */
  lemma NextGenerationIs(a: AttemptFile, f: StatusFile, publishedExists: bool, clock: nat)
    ensures var next := NextGeneration(a, f, publishedExists, clock);
            && StatusGeneration(f) < next && (a.LastAttempt? ==> a.generation < next)
            && (a.LastAttempt? ==> next == a.generation + 1 || next == StatusGeneration(f) + 1)
            && (a.DamagedAttempts? || (a.NoAttempts? && publishedExists) ==> clock < next)
            && (a.NoAttempts? && 0 < StatusGeneration(f) ==> clock < next)
            && (!a.LastAttempt? ==> next == 1 || next == StatusGeneration(f) + 1 || next == clock + 1)
            && (a.NoAttempts? && !publishedExists && StatusGeneration(f) <= 0 ==> next == 1)
  {
  }

  /** What shows that generations may have been issued although the control file is gone. */
  predicate LeavesTrace(a: AttemptFile, f: StatusFile, publishedExists: bool) {
    a.DamagedAttempts? || StatusGeneration(f) > 0 || publishedExists
  }

  /** A new generation passes every issued one exactly when the control file or the status holds
      the highest, or the loss leaves a trace and the clock has passed it. */
  lemma NextGenerationIsNewExactlyWhen(a: AttemptFile, f: StatusFile, publishedExists: bool, clock: nat, highest: nat)
    requires a.LastAttempt? ==> a.generation == highest
    ensures NextGeneration(a, f, publishedExists, clock) > highest
       <==> (|| a.LastAttempt?
             || highest == 0
             || StatusGeneration(f) >= highest
             || (LeavesTrace(a, f, publishedExists) && clock >= highest))
  {
  }

  /** With the control file gone, no status and nothing published, the numbering starts over. */
  lemma LostGenerationsStartOver(clock: nat)
    ensures NextGeneration(LastAttempt(7), NoStatus, false, clock) == 8
    ensures NextGeneration(NoAttempts, NoStatus, false, clock) == 1
  {
  }

  // ----- reconciliation ------------------------------------------------------------

  datatype Request = Request(candidate: Option<Version>, expected: Option<Version>, status: Status, generation: nat)

  function Latest(a: AttemptFile, generation: nat): nat {
    if a.LastAttempt? then a.generation else generation
  }

  predicate Superseded(head: Version, f: StatusFile, a: AttemptFile, req: Request) {
    || (req.expected.Some? && req.expected.value != head)
    || req.generation < Max(StatusGeneration(f), Latest(a, req.generation))
  }

  predicate NamesVersion(f: StatusFile, v: Version) {
    f.StatusRecord? && (f.status.datasetVersion == Some(v) || f.status.publishedVersion == Some(v))
  }

  predicate Preserved(head: Version, f: StatusFile, a: AttemptFile, req: Request) {
    Superseded(head, f, a, req) && NamesVersion(f, head)
  }

  predicate Failed(s: Status) {
    s.state.Some? && s.state.value != Fine
  }

  /** The status that `reconcile_current_publication` writes for the published head. */
  function ReconciledStatus(head: Version, fetchedAt: Option<int>, f: StatusFile, a: AttemptFile, req: Request,
                            cacheSynced: bool): Status {
    var superseded := Superseded(head, f, a, req);
    var stamp := if superseded then Some(Supersession(req.expected, req.candidate, req.generation)) else None;
    if Preserved(head, f, a, req) then
      f.status.(generation := Some(StatusGeneration(f)), datasetVersion := Some(head), publishedVersion := Some(head),
                candidateVersion := if f.status.candidateVersion.Some? then f.status.candidateVersion else Some(head),
                servingCached := f.status.servingCached || !cacheSynced, superseded := stamp)
    else
      var failed := !superseded && Failed(req.status);
      Status(
        Some(Fine),
        Some(if superseded then Max(req.generation, Max(StatusGeneration(f), Latest(a, req.generation)))
             else req.generation),
        Some(head), Some(head),
        Some(if !superseded && req.candidate.Some? then req.candidate.value else head),
        fetchedAt,
        failed || !cacheSynced,
        if failed then Some(RefreshState(req.status.state.value))
        else if cacheSynced then None
        else Some(CacheSyncError),
        stamp)
  }

  /** Whatever it overwrites, a reconciled status names the head twice and keeps the generation from falling. */
  lemma ReconciledStatusFacts(
      head: Version, fetchedAt: Option<int>, f: StatusFile, a: AttemptFile, req: Request, ok: bool)
    ensures var s := ReconciledStatus(head, fetchedAt, f, a, req, ok);
            && s.datasetVersion == Some(head) && s.publishedVersion == Some(head)
            && s.generation.Some? && s.generation.value >= StatusGeneration(f)
            && (s.superseded.Some? <==> Superseded(head, f, a, req))
            && (!Preserved(head, f, a, req) ==> s.generation.value >= req.generation)
  {
  }

  /** An attempt is superseded if it expected another version than is published, or is older than the
      status or the latest attempt. */
  lemma SupersededMeans(head: Version, f: StatusFile, a: AttemptFile, req: Request)
    ensures Superseded(head, f, a, req) <==>
            || (req.expected.Some? && req.expected.value != head)
            || (f.StatusRecord? && f.status.generation.Some? && req.generation < f.status.generation.value)
            || (a.LastAttempt? && req.generation < a.generation)
  {
  }

  /** An attempt in force writes its own outcome: fine, but served from cache if it failed or the cache did. */
  lemma StatusOfAnAttemptInForce(
      head: Version, fetchedAt: Option<int>, f: StatusFile, a: AttemptFile, req: Request, cacheSynced: bool)
    requires !Superseded(head, f, a, req)
    ensures var s := ReconciledStatus(head, fetchedAt, f, a, req, cacheSynced);
            && s.state == Some(Fine) && s.generation == Some(req.generation) && s.fetchedAt == fetchedAt
            && s.candidateVersion == (if req.candidate.Some? then req.candidate else Some(head))
            && s.superseded.None?
            && (s.servingCached <==> Failed(req.status) || !cacheSynced)
            && (Failed(req.status) ==> s.lastRefresh == Some(RefreshState(req.status.state.value)))
            && (!Failed(req.status) && !cacheSynced ==> s.lastRefresh == Some(CacheSyncError))
            && (!Failed(req.status) && cacheSynced ==> s.lastRefresh.None?)
  {
  }

  /** An overtaken attempt leaves a status that already names the head as it is, but for what it must fix and
      the stamp of the overtaking. */
  lemma StatusOfAPreservedWinner(
      head: Version, fetchedAt: Option<int>, f: StatusFile, a: AttemptFile, req: Request, cacheSynced: bool)
    requires Superseded(head, f, a, req)
    requires f.StatusRecord? && (f.status.datasetVersion == Some(head) || f.status.publishedVersion == Some(head))
    ensures var s := ReconciledStatus(head, fetchedAt, f, a, req, cacheSynced);
            && s.state == f.status.state && s.fetchedAt == f.status.fetchedAt && s.lastRefresh == f.status.lastRefresh
            && s.generation == (if f.status.generation.Some? then f.status.generation else Some(0))
            && s.candidateVersion == (if f.status.candidateVersion.Some? then f.status.candidateVersion else Some(head))
            && (s.servingCached <==> f.status.servingCached || !cacheSynced)
            && s.superseded == Some(Supersession(req.expected, req.candidate, req.generation))
  {
  }

  /** Without such a status it writes one for the head, under the newest generation there is. */
  lemma StatusOfAnOvertakenAttempt(
      head: Version, fetchedAt: Option<int>, f: StatusFile, a: AttemptFile, req: Request, cacheSynced: bool)
    requires Superseded(head, f, a, req)
    requires f.StatusRecord? ==> f.status.datasetVersion != Some(head) && f.status.publishedVersion != Some(head)
    ensures var s := ReconciledStatus(head, fetchedAt, f, a, req, cacheSynced);
            && s.state == Some(Fine) && s.fetchedAt == fetchedAt && s.candidateVersion == Some(head)
            && s.generation.Some? && req.generation <= s.generation.value && StatusGeneration(f) <= s.generation.value
            && (a.LastAttempt? ==> a.generation <= s.generation.value)
            && (|| s.generation.value == req.generation || s.generation.value == StatusGeneration(f)
                || (a.LastAttempt? && s.generation.value == a.generation))
            && (s.servingCached <==> !cacheSynced)
            && s.lastRefresh == (if cacheSynced then None else Some(CacheSyncError))
            && s.superseded == Some(Supersession(req.expected, req.candidate, req.generation))
  {
  }

  /** The outcome of the two best-effort writes of a reconciliation. */
  datatype CacheWrite = CacheWritten | CacheWrittenButUnconfirmed | CacheNotWritten

  function CacheAfter(cache: Cache, head: Dataset, w: CacheWrite): Cache {
    if w.CacheNotWritten? then cache else Cached(head)
  }

  function HeadDataset(d: Disk): Dataset
    requires Head(d).Some?
  {
    match ReadPointer(d.published)
    case ManifestPointer(versions) => d.records[versions[0]].dataset
    case LegacyPointer(_) => d.published.dataset
  }

  datatype Sides = Sides(cache: Cache, status: StatusFile)

  /** `reconcile_current_publication`; None is its refusal when no head can be served. */
  function Reconcile(
      d: Disk, sides: Sides, a: AttemptFile, req: Request, w: CacheWrite, statusWritten: bool): Option<Sides> {
    match Head(d)
    case None => None
    case Some(head) =>
      var dataset := HeadDataset(d);
      Some(Sides(CacheAfter(sides.cache, dataset, w),
                 if statusWritten
                 then StatusRecord(ReconciledStatus(head, dataset.fetchedAt, sides.status, a, req, w.CacheWritten?))
                 else sides.status))
  }

  /** The request under which a recorded failure is reconciled after all. */
  function Retold(req: Request): Request {
    req.(expected := None, candidate := req.status.candidateVersion)
  }

  /** What is recorded of an attempt while nothing can be served. */
  function ColdStatus(req: Request): Status {
    req.status.(generation := Some(req.generation), datasetVersion := None, publishedVersion := None)
  }

  /** `record_status_without_publication`: reconciles if there is a head, else compares and sets. */
  function RecordFailure(
      d: Disk, sides: Sides, a: AttemptFile, req: Request, w: CacheWrite, statusWritten: bool): Sides {
    match Reconcile(d, sides, a, Retold(req), w, statusWritten)
    case Some(reconciled) => reconciled
    case None =>
      if IsBehind(sides.status, a, req) || !statusWritten then sides
      else sides.(status := StatusRecord(ColdStatus(req)))
  }

  /** Recording never lets an older attempt win, and without a head it leaves no version behind. */
  lemma RecordingFacts(d: Disk, sides: Sides, a: AttemptFile, req: Request, w: CacheWrite, ok: bool)
    ensures var after := RecordFailure(d, sides, a, req, w, ok);
            && StatusGeneration(after.status) >= StatusGeneration(sides.status)
            && (Head(d).None? && after != sides ==>
                  req.generation >= Max(Latest(a, req.generation), StatusGeneration(sides.status))
                  && StatusGeneration(after.status) == req.generation
                  && after.status.status.datasetVersion.None? && after.status.status.publishedVersion.None?)
  {
    if Head(d).Some? {
      ReconciledStatusFacts(Head(d).value, HeadDataset(d).fetchedAt, sides.status, a, Retold(req), w.CacheWritten?);
    }
  }

  /** Behind the latest attempt that the control file or the status knows. */
  predicate IsBehind(f: StatusFile, a: AttemptFile, req: Request) {
    req.generation < Max(Latest(a, req.generation), StatusGeneration(f))
  }

  /** What `record_status_without_publication` returns; None if it raises because its write failed. */
  function FailureAnswer(
      d: Disk, sides: Sides, a: AttemptFile, req: Request, w: CacheWrite, statusWritten: bool): Option<Status> {
    match Head(d)
    case Some(head) =>
      Some(ReconciledStatus(head, HeadDataset(d).fetchedAt, sides.status, a, Retold(req), w.CacheWritten?))
    case None =>
      if IsBehind(sides.status, a, req) then
        if sides.status.StatusRecord? then Some(sides.status.status)
        else
          var before := req.status.superseded;
          Some(req.status.(superseded := Some(
            if before.Some? then before.value.(generation := req.generation)
            else Supersession(None, None, req.generation))))
      else if !statusWritten then None
      else Some(ColdStatus(req))
  }

  /** With the write succeeding, the answer is what the status file then holds, but for an overtaken
      attempt that found neither a head nor a status: it is answered with its own. */
  lemma AnswerIsStored(d: Disk, sides: Sides, a: AttemptFile, req: Request, w: CacheWrite)
    ensures var answer := FailureAnswer(d, sides, a, req, w, true);
            && answer.Some?
            && (RecordFailure(d, sides, a, req, w, true).status == StatusRecord(answer.value)
                <==> !(Head(d).None? && IsBehind(sides.status, a, req) && !sides.status.StatusRecord?))
  {
  }

  // ----- reading -------------------------------------------------------------------

  datatype Fallback =
    | CurrentDatasetCorrupt
    | CurrentDatasetMissing
    | CurrentDatasetNotPublished
    | StatusNotPublished
    | LatestRefreshFailed(last: LastRefresh)

  datatype Unavailable = PublishedCorrupt | PublishedFromFuture | PublishedTooOld

  datatype Answer =
    | NotAvailable(reason: Unavailable)
    | Published(dataset: Dataset, version: Version, fallback: Option<Fallback>)

  function CacheFallback(cache: Cache, version: Version): Option<Fallback> {
    match cache
    case DamagedCache => Some(CurrentDatasetCorrupt)
    case NoCache => Some(CurrentDatasetMissing)
    case Cached(dataset) => if Digest(dataset) != version then Some(CurrentDatasetNotPublished) else None
  }

  function StatusFallback(f: StatusFile, version: Version): Option<Fallback> {
    if !f.StatusRecord? then None
    else
      var s := f.status;
      if (s.datasetVersion.Some? && s.datasetVersion.value != version) ||
         (s.publishedVersion.Some? && s.publishedVersion.value != version)
      then Some(StatusNotPublished)
      else if s.servingCached && s.lastRefresh.Some? then Some(LatestRefreshFailed(s.lastRefresh.value))
      else if Failed(s) then Some(LatestRefreshFailed(RefreshState(s.state.value)))
      else None
  }

  /** `read_published` at `now`, with an age limit, both in seconds. */
  function ReadPublished(d: Disk, sides: Sides, now: int, maxAge: nat): Answer {
    match Head(d)
    case None => NotAvailable(PublishedCorrupt)
    case Some(version) =>
      var dataset := HeadDataset(d);
      match dataset.fetchedAt
      case None => NotAvailable(PublishedCorrupt)
      case Some(t) =>
        if now - t < -MAX_FUTURE_SKEW_SECONDS then NotAvailable(PublishedFromFuture)
        else if now - t > maxAge then NotAvailable(PublishedTooOld)
        else Published(dataset, version,
                       if CacheFallback(sides.cache, version).Some? then CacheFallback(sides.cache, version)
                       else StatusFallback(sides.status, version))
  }

  /** The status, if any, names no other version and reports no failed refresh. */
  predicate StatusAgrees(f: StatusFile, version: Version) {
    f.StatusRecord? ==>
      && (f.status.datasetVersion == None || f.status.datasetVersion == Some(version))
      && (f.status.publishedVersion == None || f.status.publishedVersion == Some(version))
      && !(f.status.servingCached && f.status.lastRefresh.Some?)
      && !Failed(f.status)
  }

  lemma HeadIsItsDigest(d: Disk)
    requires Head(d).Some?
    ensures Digest(HeadDataset(d)) == Head(d).value
  {
  }

  /** Readers get the head's dataset, within the age limit, whatever cache and status say. */
  lemma ReadersGetTheHead(d: Disk, sides: Sides, now: int, maxAge: nat)
    ensures var r := ReadPublished(d, sides, now, maxAge);
            && (r.Published? ==> Head(d) == Some(r.version) && Digest(r.dataset) == r.version)
            && (r.Published? <==> Head(d).Some? && HeadDataset(d).fetchedAt.Some?
                                  && -MAX_FUTURE_SKEW_SECONDS <= now - HeadDataset(d).fetchedAt.value <= maxAge)
  {
    if Head(d).Some? { HeadIsItsDigest(d); }
  }

  /** An answer is called fresh exactly when the cache equals the head and the status agrees. */
  lemma FreshExactlyWhenAllAgree(d: Disk, sides: Sides, now: int, maxAge: nat)
    requires ReadPublished(d, sides, now, maxAge).Published?
    ensures var r := ReadPublished(d, sides, now, maxAge);
            r.fallback.None? <==> sides.cache == Cached(r.dataset) && StatusAgrees(sides.status, r.version)
  {
    ReadersGetTheHead(d, sides, now, maxAge);
  }

  /** Why nothing is answered, and why an answer is called stale: the first reason in this order. */
  lemma ReasonsOfAnswers(d: Disk, sides: Sides, now: int, maxAge: nat)
    requires Head(d).Some?
    ensures var (r, t) := (ReadPublished(d, sides, now, maxAge), HeadDataset(d).fetchedAt);
            && (r == NotAvailable(PublishedCorrupt) <==> t.None?)
            && (r == NotAvailable(PublishedFromFuture) <==> t.Some? && now + 300 < t.value)
            && (r == NotAvailable(PublishedTooOld) <==> t.Some? && t.value <= now + 300 && t.value + maxAge < now)
            && (r.Published? ==>
                  var s := sides.status;
                  var synced := sides.cache == Cached(r.dataset);
                  var disagrees := s.StatusRecord? &&
                    ((s.status.datasetVersion.Some? && s.status.datasetVersion.value != r.version) ||
                     (s.status.publishedVersion.Some? && s.status.publishedVersion.value != r.version));
                  && (r.fallback == Some(CurrentDatasetCorrupt) <==> sides.cache.DamagedCache?)
                  && (r.fallback == Some(CurrentDatasetMissing) <==> sides.cache.NoCache?)
                  && (r.fallback == Some(CurrentDatasetNotPublished) <==> sides.cache.Cached? && !synced)
                  && (r.fallback == Some(StatusNotPublished) <==> synced && disagrees)
                  && (r.fallback.Some? && r.fallback.value.LatestRefreshFailed? ==>
                        && s.StatusRecord?
                        && if s.status.servingCached && s.status.lastRefresh.Some?
                           then r.fallback.value.last == s.status.lastRefresh.value
                           else r.fallback.value.last == RefreshState(s.status.state.value)))
  {
    HeadIsItsDigest(d);
  }

  /** What a reconciliation writes: the head's dataset to the cache, and a status, if their writes succeed. */
  lemma ReconcileWrites(
      d: Disk, sides: Sides, a: AttemptFile, req: Request, w: CacheWrite, statusWritten: bool)
    ensures var after := Reconcile(d, sides, a, req, w, statusWritten);
            && (after.Some? <==> Head(d).Some?)
            && (after.Some? ==>
                  && after.value.cache == (if w == CacheNotWritten then sides.cache else Cached(HeadDataset(d)))
                  && (!statusWritten ==> after.value.status == sides.status)
                  && (statusWritten ==> after.value.status.StatusRecord?))
  {
  }

  /** Where nothing can be served, a failure is recorded exactly by an attempt that nobody has overtaken. */
  lemma ColdFailureIsRecordedExactlyWhen(d: Disk, sides: Sides, a: AttemptFile, req: Request, w: CacheWrite)
    requires Head(d).None?
    ensures var after := RecordFailure(d, sides, a, req, w, true);
            && after.cache == sides.cache
            && (if && (a.LastAttempt? ==> a.generation <= req.generation)
                   && StatusGeneration(sides.status) <= req.generation
                then
                  && after.status.StatusRecord?
                  && after.status.status == req.status.(generation := Some(req.generation),
                                                        datasetVersion := None, publishedVersion := None)
                else after.status == sides.status)
            && RecordFailure(d, sides, a, req, w, false) == sides
  {
  }

  /** Where a head is served, a failure is reconciled for it, whatever version was expected: it is marked as
      overtaken if and only if a newer attempt is known, and else keeps the candidate it names. */
  lemma WarmFailureIsReconciled(d: Disk, sides: Sides, a: AttemptFile, req: Request, w: CacheWrite)
    requires Head(d).Some?
    ensures var (after, head) := (RecordFailure(d, sides, a, req, w, true), Head(d).value);
            && after.cache == (if w == CacheNotWritten then sides.cache else Cached(HeadDataset(d)))
            && after.status.StatusRecord?
            && after.status.status.datasetVersion == Some(head) && after.status.status.publishedVersion == Some(head)
            && (after.status.status.superseded.None? <==>
                  && StatusGeneration(sides.status) <= req.generation
                  && (a.LastAttempt? ==> a.generation <= req.generation))
            && (after.status.status.superseded.None? ==>
                  && after.status.status.generation == Some(req.generation)
                  && after.status.status.candidateVersion
                     == (if req.status.candidateVersion.Some? then req.status.candidateVersion else Some(head)))
            && (after.status.status.superseded.Some? ==>
                  after.status.status.superseded.value.expected.None?
                  && after.status.status.superseded.value.candidate == req.status.candidateVersion)
  {
  }

  // ----- reading after a reconciliation --------------------------------------------

  predicate ReportsFailure(f: StatusFile) {
    f.StatusRecord? && ((f.status.servingCached && f.status.lastRefresh.Some?) || Failed(f.status))
  }

  /**
   After a reconciliation whose two writes succeeded, readers are told "stale" exactly when the
   attempt failed and was not superseded, or lost to a preserved status that reports a failure.
   */
  lemma StaleAfterReconcilingExactlyWhen(d: Disk, sides: Sides, a: AttemptFile, req: Request, now: int, maxAge: nat)
    requires Head(d).Some?
    requires ReadPublished(d, sides, now, maxAge).Published?
    ensures var r := ReadPublished(d, Reconcile(d, sides, a, req, CacheWritten, true).value, now, maxAge);
            && r.Published?
            && (r.fallback.Some? <==>
                  if !Superseded(Head(d).value, sides.status, a, req) then Failed(req.status)
                  else Preserved(Head(d).value, sides.status, a, req) && ReportsFailure(sides.status))
  {
    HeadIsItsDigest(d);
  }

  /** A cache write that failed is never hidden: unless a winner's status is preserved, readers see "stale". */
  lemma UnsyncedCacheIsReported(
      d: Disk, sides: Sides, a: AttemptFile, req: Request, w: CacheWrite, now: int, maxAge: nat)
    requires Head(d).Some? && !w.CacheWritten? && !Preserved(Head(d).value, sides.status, a, req)
    requires ReadPublished(d, sides, now, maxAge).Published?
    ensures var r := ReadPublished(d, Reconcile(d, sides, a, req, w, true).value, now, maxAge);
            r.Published? && r.fallback.Some?
  {
    HeadIsItsDigest(d);
  }

  /** A failed refresh that was overtaken is forgotten: readers are told the answer is fresh. */
  lemma OvertakenFailureLooksFresh(dataset: Dataset, now: int)
    requires dataset.fetchedAt == Some(now)
    ensures var v := Digest(dataset);
            var d := Disk(map[v := Record(v, dataset, Some(now))], ManifestFor([v], 5, now));
            var failed := Status(Some(Failing(1)), None, None, None, None, None, false, None, None);
            var req := Request(None, None, failed, 1);
            var sides := Reconcile(d, Sides(NoCache, NoStatus), LastAttempt(2), req, CacheWritten, true);
            sides.Some? && ReadPublished(d, sides.value, now, 3600) == Published(dataset, v, None)
  {
  }
}
