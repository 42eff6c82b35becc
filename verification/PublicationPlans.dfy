/**
 Promotion and rollback as plans of durable steps (`app/dataset_publication_store.py`), and what
 holds of the disk after every prefix of a plan, that is, wherever a crash falls.
 */
module PublicationPlans {
  import opened Options
  import opened PublicationFiles

  // ----- what a promotion keeps of the past ----------------------------------------

  /** The records that `_discover_valid_versions` recovers. */
  predicate Discoverable(d: Disk, v: Version, now: int) {
    && Verified(d, v)
    && d.records[v].publishedAt.Some?
    && d.records[v].dataset.fetchedAt.Some?
    && d.records[v].dataset.fetchedAt.value <= now + MAX_FUTURE_SKEW_SECONDS
  }

  predicate NoOlder(d: Disk, v: Version, w: Version, now: int)
    requires Discoverable(d, v, now) && Discoverable(d, w, now)
  {
    var a, b := d.records[v], d.records[w];
    || a.dataset.fetchedAt.value > b.dataset.fetchedAt.value
    || (a.dataset.fetchedAt == b.dataset.fetchedAt && a.publishedAt.value >= b.publishedAt.value)
  }

  /** `vs` lists every recoverable version once, freshest first. */
  ghost predicate IsDiscovery(d: Disk, vs: seq<Version>, now: int) {
    && Distinct(vs)
    && (forall v :: v in vs <==> Discoverable(d, v, now))
    && (forall i, j :: 0 <= i < j < |vs| ==> NoOlder(d, vs[i], vs[j], now))
  }

  /** The versions a promotion starts from, and the record it saves out of a legacy file. */
  datatype Baseline = Baseline(listed: seq<Version>, saved: seq<Io>)

  ghost predicate IsBaseline(d: Disk, b: Baseline, now: int) {
    match ReadPointer(d.published)
    case ManifestPointer(versions) =>
      if versions != [] && Verified(d, versions[0]) then b == Baseline(versions, [])
      else b.saved == [] && IsDiscovery(d, b.listed, now)
    case LegacyPointer(version) =>
      if version !in d.records
      then
        var record := Record(version, d.published.dataset, d.published.publishedAt);
        b == Baseline([version], [WriteRecord(version, record)])
      else if Verified(d, version) then b == Baseline([version], [])
      else b.saved == [] && IsDiscovery(d, b.listed, now)
    case BadPointer => b.saved == [] && IsDiscovery(d, b.listed, now)
  }

  // ----- plans ---------------------------------------------------------------------

  function Members(vs: seq<Version>): set<Version> {
    set v | v in vs
  }

  function Unlinks(vs: seq<Version>): (ios: seq<Io>)
    ensures |ios| == |vs| && forall i :: 0 <= i < |vs| ==> ios[i] == Unlink(vs[i])
  {
    if vs == [] then [] else Unlinks(vs[..|vs| - 1]) + [Unlink(vs[|vs| - 1])]
  }

  /** `_write_manifest`: the commit point, then the removal of what is no longer retained. */
  function CommitPlan(history: seq<Version>, retention: nat, now: int, removals: seq<Version>): seq<Io>
    requires history != [] && retention > 0
  {
    [WriteManifest(ManifestFor(history, retention, now))] + Unlinks(removals)
  }

  ghost predicate Prunes(removals: seq<Version>, history: seq<Version>, retention: nat) {
    forall v :: v in removals ==> v !in Take(history, retention)
  }

  datatype Promotion = Promotion(dataset: Dataset, baseline: Baseline, retention: nat, now: int, removals: seq<Version>)

  function NewRecord(d: Disk, p: Promotion): seq<Io> {
    var v := Digest(p.dataset);
    if v in d.records then [] else [WriteRecord(v, Record(v, p.dataset, Some(p.now)))]
  }

  function Saved(d: Disk, p: Promotion): Disk {
    ApplyAll(ApplyAll(d, NewRecord(d, p)), p.baseline.saved)
  }

  function PromotedHistory(d: Disk, p: Promotion): seq<Version> {
    HistoryFrom(Saved(d, p), Digest(p.dataset), p.baseline.listed)
  }

  /** A promotion that `promote_candidate` carries out on `d` rather than refuse it. */
  ghost predicate CanPromote(d: Disk, p: Promotion) {
    && ValidRetention(p.retention)
    && (Digest(p.dataset) in d.records ==> Verified(d, Digest(p.dataset)))
    && IsBaseline(ApplyAll(d, NewRecord(d, p)), p.baseline, p.now)
    && Prunes(p.removals, PromotedHistory(d, p), p.retention)
  }

  function PromotePlan(d: Disk, p: Promotion): seq<Io>
    requires p.retention > 0
  {
    (NewRecord(d, p) + p.baseline.saved) + CommitPlan(PromotedHistory(d, p), p.retention, p.now, p.removals)
  }

  datatype Rollback = Rollback(target: Version, retention: nat, now: int, removals: seq<Version>)

  function Listed(d: Disk): seq<Version> {
    match ReadPointer(d.published)
    case ManifestPointer(versions) => versions
    case LegacyPointer(_) => []
    case BadPointer => []
  }

  function RolledBackHistory(d: Disk, r: Rollback): seq<Version> {
    HistoryFrom(d, r.target, Listed(d))
  }

  ghost predicate CanRollBack(d: Disk, r: Rollback) {
    && ValidRetention(r.retention)
    && r.target in Listed(d) && r.target != Listed(d)[0] && Verified(d, r.target)
    && Prunes(r.removals, RolledBackHistory(d, r), r.retention)
  }

  function RollbackPlan(d: Disk, r: Rollback): seq<Io>
    requires r.retention > 0
  {
    CommitPlan(RolledBackHistory(d, r), r.retention, r.now, r.removals)
  }

  // ----- soundness -----------------------------------------------------------------

  ghost predicate AllVerified(d: Disk, vs: seq<Version>) {
    forall v :: v in vs ==> Verified(d, v)
  }

  /** The published file validates and everything it names is on disk with the right hash. */
  ghost predicate Sound(d: Disk) {
    d.published != NotPublished ==>
      match ReadPointer(d.published)
      case ManifestPointer(versions) => AllVerified(d, versions)
      case LegacyPointer(version) => version in d.records ==> Verified(d, version)
      case BadPointer => false
  }

  /** What a saving step may do: add a record that was not there, under its own digest. */
  ghost predicate OnlySaves(d: Disk, ios: seq<Io>) {
    forall io :: io in ios ==>
      io.WriteRecord? && io.version !in d.records && io.record.Record?
      && io.record.version == io.version && Digest(io.record.dataset) == io.version
  }

  ghost predicate Extends(d: Disk, e: Disk) {
    && e.published == d.published
    && (forall v :: v in d.records ==> v in e.records && e.records[v] == d.records[v])
    && (forall v :: v in e.records && v !in d.records ==> Verified(e, v))
  }

  lemma {:induction false} SavingExtends(d: Disk, ios: seq<Io>)
    requires OnlySaves(d, ios)
    ensures Extends(d, ApplyAll(d, ios))
  {
    if ios != [] {
      var rest, last := ios[..|ios| - 1], ios[|ios| - 1];
      assert last in ios;
      assert forall io :: io in rest ==> io in ios;
      SavingExtends(d, rest);
    }
  }

  lemma ExtensionStaysSound(d: Disk, e: Disk)
    requires Extends(d, e)
    ensures Sound(d) ==> Sound(e)
    ensures Head(d).Some? ==> Head(e) == Head(d)
  {
  }

  lemma {:induction false} UnlinkingKeeps(d: Disk, vs: seq<Version>)
    ensures ApplyAll(d, Unlinks(vs)) == d.(records := d.records - Members(vs))
  {
    if vs == [] {
      assert d.records - Members(vs) == d.records;
    } else {
      var rest, last := vs[..|vs| - 1], vs[|vs| - 1];
      UnlinkingKeeps(d, rest);
      assert Unlinks(vs)[..|vs| - 1] == Unlinks(rest);
      assert vs == rest + [last];
      assert Members(vs) == Members(rest) + {last};
    }
  }

  lemma UnlinksPrefix(vs: seq<Version>, k: nat)
    requires k <= |vs|
    ensures Unlinks(vs)[..k] == Unlinks(vs[..k])
  {
  }

  lemma TakeIsPrefix(vs: seq<Version>, n: nat)
    requires vs != [] && n > 0
    ensures Take(vs, n) != [] && Take(vs, n)[0] == vs[0]
    ensures Distinct(vs) ==> Distinct(Take(vs, n))
    ensures forall v :: v in Take(vs, n) ==> v in vs
    ensures |Take(vs, n)| <= n
  {
  }

  /** Where a commit stops: not begun, or committed with some of the removals done. */
  lemma CommitPrefix(d: Disk, history: seq<Version>, retention: nat, now: int, removals: seq<Version>, k: nat)
    requires history != [] && retention > 0
    requires 0 < k <= |CommitPlan(history, retention, now, removals)|
    ensures ApplyAll(d, CommitPlan(history, retention, now, removals)[..k])
         == d.(published := ManifestFor(history, retention, now), records := d.records - Members(removals[..k - 1]))
  {
    var commit := [WriteManifest(ManifestFor(history, retention, now))];
    assert CommitPlan(history, retention, now, removals)[..k] == commit + Unlinks(removals)[..k - 1];
    UnlinksPrefix(removals, k - 1);
    ApplyAllAppends(d, commit, Unlinks(removals[..k - 1]));
    assert commit[..0] == [];
    assert ApplyAll(d, commit) == d.(published := ManifestFor(history, retention, now));
    UnlinkingKeeps(d.(published := ManifestFor(history, retention, now)), removals[..k - 1]);
  }

  lemma CommittedIsSound(d: Disk, history: seq<Version>, retention: nat, now: int, gone: set<Version>)
    requires history != [] && Distinct(history) && AllVerified(d, history) && ValidRetention(retention)
    requires forall v :: v in gone ==> v !in Take(history, retention)
    ensures var e := d.(published := ManifestFor(history, retention, now), records := d.records - gone);
            Sound(e) && Head(e) == Some(history[0]) && Listed(e) == Take(history, retention)
  {
    ManifestRoundTrip(history, retention, now);
    TakeIsPrefix(history, retention);
    assert history[0] in Take(history, retention);
  }

  // ----- crash safety --------------------------------------------------------------

  lemma DiscoveryIsDistinct(d: Disk, b: Baseline, now: int)
    requires IsBaseline(d, b, now)
    ensures Distinct(b.listed)
    ensures OnlySaves(d, b.saved)
  {
  }

  lemma {:induction false} SavingTwice(d: Disk, p: Promotion)
    requires CanPromote(d, p)
    ensures OnlySaves(d, NewRecord(d, p) + p.baseline.saved)
  {
    DiscoveryIsDistinct(ApplyAll(d, NewRecord(d, p)), p.baseline, p.now);
    SavingExtends(d, NewRecord(d, p));
  }

  lemma PromotedHistoryIsValid(d: Disk, p: Promotion)
    requires CanPromote(d, p)
    ensures Extends(d, Saved(d, p))
    ensures Distinct(PromotedHistory(d, p)) && AllVerified(Saved(d, p), PromotedHistory(d, p))
    ensures PromotedHistory(d, p)[0] == Digest(p.dataset)
  {
    SavingTwice(d, p);
    SavingExtends(d, NewRecord(d, p) + p.baseline.saved);
    ApplyAllAppends(d, NewRecord(d, p), p.baseline.saved);
    DiscoveryIsDistinct(ApplyAll(d, NewRecord(d, p)), p.baseline, p.now);
    CandidateIsSaved(d, p);
    HistoryIsValid(Saved(d, p), Digest(p.dataset), p.baseline.listed);
  }

  lemma CandidateIsSaved(d: Disk, p: Promotion)
    requires CanPromote(d, p) && Extends(d, Saved(d, p))
    ensures Verified(Saved(d, p), Digest(p.dataset))
  {
    var d1 := ApplyAll(d, NewRecord(d, p));
    if Digest(p.dataset) !in d.records {
      assert NewRecord(d, p)[..0] == [];
      DiscoveryIsDistinct(d1, p.baseline, p.now);
      SavingExtends(d1, p.baseline.saved);
    }
  }

  function Saves(d: Disk, p: Promotion): nat {
    |NewRecord(d, p) + p.baseline.saved|
  }

  /** The disk once the manifest is committed and the first `unlinked` removals are done. */
  function Committed(d: Disk, p: Promotion, unlinked: nat): Disk
    requires p.retention > 0 && unlinked <= |p.removals|
  {
    Saved(d, p).(published := ManifestFor(PromotedHistory(d, p), p.retention, p.now),
                 records := Saved(d, p).records - Members(p.removals[..unlinked]))
  }

  lemma BeforeTheCommit(d: Disk, p: Promotion, k: nat)
    requires CanPromote(d, p) && k <= Saves(d, p)
    ensures Extends(d, ApplyAll(d, PromotePlan(d, p)[..k]))
  {
    var saves := NewRecord(d, p) + p.baseline.saved;
    SavingTwice(d, p);
    assert PromotePlan(d, p)[..k] == saves[..k];
    SavingExtends(d, saves[..k]);
  }

  lemma AfterTheCommit(d: Disk, p: Promotion, k: nat)
    requires p.retention > 0 && Saves(d, p) < k <= |PromotePlan(d, p)|
    ensures ApplyAll(d, PromotePlan(d, p)[..k]) == Committed(d, p, k - Saves(d, p) - 1)
  {
    var saves := NewRecord(d, p) + p.baseline.saved;
    var commit := CommitPlan(PromotedHistory(d, p), p.retention, p.now, p.removals);
    PrefixOfSum(saves, commit, k);
    ApplyAllAppends(d, saves, commit[..k - |saves|]);
    ApplyAllAppends(d, NewRecord(d, p), p.baseline.saved);
    CommitPrefix(Saved(d, p), PromotedHistory(d, p), p.retention, p.now, p.removals, k - |saves|);
  }

  lemma PrefixOfSum(a: seq<Io>, b: seq<Io>, k: nat)
    requires |a| <= k <= |a + b|
    ensures (a + b)[..k] == a + b[..k - |a|]
  {
  }

  /**
   Wherever a promotion stops, the published file still validates, everything it lists is on disk and
   hash-verified, and readers see the old head or the new one.
   */
  lemma PromotionIsCrashSafe(d: Disk, p: Promotion, k: nat)
    requires Sound(d) && CanPromote(d, p) && k <= |PromotePlan(d, p)|
    ensures var e := ApplyAll(d, PromotePlan(d, p)[..k]);
            Sound(e) && (Head(e) == Head(d) || Head(e) == Some(Digest(p.dataset)))
  {
    if k <= Saves(d, p) {
      BeforeTheCommit(d, p, k);
      ExtensionStaysSound(d, ApplyAll(d, PromotePlan(d, p)[..k]));
    } else {
      PromotionRepairs(d, p, k);
    }
  }

  /** A promotion that gets as far as its commit repairs any disk, sound or not. */
  lemma PromotionRepairs(d: Disk, p: Promotion, k: nat)
    requires CanPromote(d, p) && Saves(d, p) < k <= |PromotePlan(d, p)|
    ensures var e := ApplyAll(d, PromotePlan(d, p)[..k]);
            Sound(e) && Head(e) == Some(Digest(p.dataset)) && Listed(e) == Take(PromotedHistory(d, p), p.retention)
  {
    AfterTheCommit(d, p, k);
    PromotedHistoryIsValid(d, p);
    CommittedIsSound(
      Saved(d, p), PromotedHistory(d, p), p.retention, p.now, Members(p.removals[..k - Saves(d, p) - 1]));
  }

  lemma ListedIsDistinct(d: Disk)
    ensures Distinct(Listed(d)) && |Listed(d)| <= MAX_RETENTION
  {
  }

  /** A rollback is its commit alone: before it nothing changes, after it any disk is repaired. */
  lemma RollbackIsCrashSafe(d: Disk, r: Rollback, k: nat)
    requires CanRollBack(d, r) && k <= |RollbackPlan(d, r)|
    ensures var e := ApplyAll(d, RollbackPlan(d, r)[..k]);
            if k == 0 then e == d
            else Sound(e) && Head(e) == Some(r.target) && Listed(e) == Take(RolledBackHistory(d, r), r.retention)
  {
    if k > 0 {
      CommitPrefix(d, RolledBackHistory(d, r), r.retention, r.now, r.removals, k);
      ListedIsDistinct(d);
      HistoryIsValid(d, r.target, Listed(d));
      CommittedIsSound(d, RolledBackHistory(d, r), r.retention, r.now, Members(r.removals[..k - 1]));
    }
  }

  // ----- any sequence of crashes and retries ---------------------------------------

  /** An operation of which `steps` durable steps took effect; the rest fell to a crash. */
  datatype Event = Promote(p: Promotion, steps: nat) | RollBack(r: Rollback, steps: nat)

  ghost predicate Possible(d: Disk, e: Event) {
    match e
    case Promote(p, steps) => CanPromote(d, p) && steps <= |PromotePlan(d, p)|
    case RollBack(r, steps) => CanRollBack(d, r) && steps <= |RollbackPlan(d, r)|
  }

  function After(d: Disk, e: Event): Disk {
    match e
    case Promote(p, steps) =>
      if p.retention > 0 && steps <= |PromotePlan(d, p)| then ApplyAll(d, PromotePlan(d, p)[..steps]) else d
    case RollBack(r, steps) =>
      if r.retention > 0 && steps <= |RollbackPlan(d, r)| then ApplyAll(d, RollbackPlan(d, r)[..steps]) else d
  }

  function TargetOf(e: Event): Version {
    match e
    case Promote(p, _) => Digest(p.dataset)
    case RollBack(r, _) => r.target
  }

  function AfterAll(d: Disk, events: seq<Event>): Disk {
    if events == [] then d else After(AfterAll(d, events[..|events| - 1]), events[|events| - 1])
  }

  ghost predicate AllPossible(d: Disk, events: seq<Event>) {
    events == [] ||
    (AllPossible(d, events[..|events| - 1]) && Possible(AfterAll(d, events[..|events| - 1]), events[|events| - 1]))
  }

  lemma EventIsCrashSafe(d: Disk, e: Event)
    requires Sound(d) && Possible(d, e)
    ensures Sound(After(d, e)) && (Head(After(d, e)) == Head(d) || Head(After(d, e)) == Some(TargetOf(e)))
  {
    match e
    case Promote(p, steps) => PromotionIsCrashSafe(d, p, steps);
    case RollBack(r, steps) => RollbackIsCrashSafe(d, r, steps);
  }

  /** After any crashes and retries the disk is sound and serves the first head or an operation's target. */
  lemma {:induction false} RunsAreCrashSafe(d: Disk, events: seq<Event>)
    requires Sound(d) && AllPossible(d, events)
    ensures Sound(AfterAll(d, events))
    ensures Head(AfterAll(d, events)) == Head(d)
         || exists i :: 0 <= i < |events| && Head(AfterAll(d, events)) == Some(TargetOf(events[i]))
  {
    if events != [] {
      var before := events[..|events| - 1];
      RunsAreCrashSafe(d, before);
      EventIsCrashSafe(AfterAll(d, before), events[|events| - 1]);
      if i :| 0 <= i < |before| && Head(AfterAll(d, before)) == Some(TargetOf(before[i])) {
        assert before[i] == events[i];
      }
    }
  }

  // ----- retrying an interrupted promotion -----------------------------------------

  /** What the published file names: a manifest's list, or the single legacy version. */
  function Names(d: Disk): seq<Version> {
    match ReadPointer(d.published)
    case ManifestPointer(versions) => versions
    case LegacyPointer(version) => [version]
    case BadPointer => []
  }

  /** On a sound disk with a published file, promoting keeps exactly what that file names. */
  lemma SoundPromotionHistory(d: Disk, p: Promotion)
    requires Sound(d) && d.published != NotPublished && CanPromote(d, p)
    ensures PromotedHistory(d, p) == [Digest(p.dataset)] + Except(Names(d), Digest(p.dataset))
  {
    var d1 := ApplyAll(d, NewRecord(d, p));
    DiscoveryIsDistinct(d1, p.baseline, p.now);
    SavingTwice(d, p);
    SavingExtends(d, NewRecord(d, p));
    ExtensionStaysSound(d, d1);
    BaselineNames(d1, p.baseline, p.now);
    SanitizedKeepsAllVerified(Saved(d, p), p.baseline.listed);
  }

  lemma BaselineNames(d: Disk, b: Baseline, now: int)
    requires Sound(d) && d.published != NotPublished && IsBaseline(d, b, now)
    ensures b.listed == Names(d)
    ensures AllVerified(ApplyAll(d, b.saved), b.listed)
  {
    if b.saved != [] { assert b.saved[..0] == []; }
  }

  lemma RetryAfterTheCommit(e: Disk, q: Promotion, list: seq<Version>)
    requires Sound(e) && Listed(e) == list && list != [] && list[0] == Digest(q.dataset) && |list| <= q.retention
    requires CanPromote(e, q)
    ensures Take(PromotedHistory(e, q), q.retention) == list
  {
    SoundPromotionHistory(e, q);
    ListedIsDistinct(e);
    HeadThenRest(list, Digest(q.dataset));
  }

  lemma RetryBeforeTheCommit(d: Disk, p: Promotion, e: Disk, q: Promotion)
    requires Sound(d) && d.published != NotPublished && Extends(d, e) && q.dataset == p.dataset
    requires CanPromote(d, p) && CanPromote(e, q)
    ensures PromotedHistory(e, q) == PromotedHistory(d, p)
  {
    SoundPromotionHistory(d, p);
    ExtensionStaysSound(d, e);
    SoundPromotionHistory(e, q);
  }

  /** Crash anywhere, run the same promotion again: the manifest lists what one clean run would list. */
  lemma RetryReachesTheSameManifest(d: Disk, p: Promotion, k: nat, q: Promotion)
    requires CanPromote(d, p) && k <= |PromotePlan(d, p)|
    requires k <= Saves(d, p) ==> Sound(d) && d.published != NotPublished
    requires q.dataset == p.dataset && q.retention == p.retention
    requires CanPromote(ApplyAll(d, PromotePlan(d, p)[..k]), q)
    ensures Take(PromotedHistory(ApplyAll(d, PromotePlan(d, p)[..k]), q), q.retention)
         == Take(PromotedHistory(d, p), p.retention)
  {
    var e := ApplyAll(d, PromotePlan(d, p)[..k]);
    if k <= Saves(d, p) {
      BeforeTheCommit(d, p, k);
      RetryBeforeTheCommit(d, p, e, q);
    } else {
      PromotionRepairs(d, p, k);
      PromotedHistoryIsValid(d, p);
      TakeIsPrefix(PromotedHistory(d, p), p.retention);
      RetryAfterTheCommit(e, q, Take(PromotedHistory(d, p), p.retention));
    }
  }

  lemma HeadThenRest(vs: seq<Version>, v: Version)
    requires vs != [] && vs[0] == v && Distinct(vs)
    ensures [v] + Except(vs, v) == vs
  {
    ExceptSkipsFirst(vs, v);
    ExceptDrops(vs[1..], v);
  }

  lemma {:induction false} ExceptSkipsFirst(vs: seq<Version>, v: Version)
    requires vs != [] && vs[0] == v
    ensures Except(vs, v) == Except(vs[1..], v)
  {
    if |vs| > 1 {
      var rest := vs[..|vs| - 1];
      ExceptSkipsFirst(rest, v);
      assert vs[1..][..|vs[1..]| - 1] == rest[1..];
    }
  }

  // ----- rollback undoes promotion -------------------------------------------------

  /** The version a rollback without an argument goes to. */
  function DefaultTarget(d: Disk): Option<Version> {
    var listed := Listed(d);
    if listed == [] then None
    else
      var others := Except(Sanitized(d, listed), listed[0]);
      if others == [] then None else Some(others[0])
  }

  lemma SoundDefaultTarget(d: Disk)
    requires Sound(d) && |Listed(d)| >= 2
    ensures DefaultTarget(d) == Some(Listed(d)[1])
  {
    var listed := Listed(d);
    SanitizedKeepsAllVerified(d, listed);
    ListedIsDistinct(d);
    HeadThenRest(listed, listed[0]);
  }

  lemma {:induction false} ExceptSplits(a: seq<Version>, b: seq<Version>, v: Version)
    ensures Except(a + b, v) == Except(a, v) + Except(b, v)
  {
    if b == [] {
      assert a + b == a;
    } else {
      assert (a + b)[..|a + b| - 1] == a + b[..|b| - 1];
      ExceptSplits(a, b[..|b| - 1], v);
    }
  }

  lemma FirstNameComesSecond(names: seq<Version>, v: Version)
    requires names != [] && names[0] != v
    ensures Except(names, v) != [] && Except(names, v)[0] == names[0]
  {
    assert names == [names[0]] + names[1..];
    ExceptSplits([names[0]], names[1..], v);
    assert [names[0]][..0] == [];
    assert Except([names[0]], v) == [names[0]];
  }

  lemma HeadIsFirstName(d: Disk)
    requires Head(d).Some?
    ensures Names(d) != [] && Names(d)[0] == Head(d).value && d.published != NotPublished
  {
  }

  lemma PromotedList(d: Disk, p: Promotion)
    requires Sound(d) && d.published != NotPublished && CanPromote(d, p)
    ensures var e := ApplyAll(d, PromotePlan(d, p));
            Sound(e) && Listed(e) == Take([Digest(p.dataset)] + Except(Names(d), Digest(p.dataset)), p.retention)
  {
    assert PromotePlan(d, p)[..|PromotePlan(d, p)|] == PromotePlan(d, p);
    PromotionRepairs(d, p, |PromotePlan(d, p)|);
    SoundPromotionHistory(d, p);
  }

  /** After a promotion the old head is second in the manifest and the default rollback target. */
  lemma PromotionMakesTheOldHeadTheDefaultTarget(d: Disk, p: Promotion)
    requires Sound(d) && Head(d).Some? && CanPromote(d, p) && Head(d).value != Digest(p.dataset)
    ensures var e := ApplyAll(d, PromotePlan(d, p));
            && Sound(e) && DefaultTarget(e) == Head(d)
            && |Listed(e)| >= 2 && Listed(e)[0] == Digest(p.dataset) && Listed(e)[1] == Head(d).value
  {
    HeadIsFirstName(d);
    PromotedList(d, p);
    FirstNameComesSecond(Names(d), Digest(p.dataset));
    SoundDefaultTarget(ApplyAll(d, PromotePlan(d, p)));
  }

  lemma ExceptSecond(vs: seq<Version>)
    requires Distinct(vs) && |vs| >= 2
    ensures Except(vs, vs[1]) == [vs[0]] + vs[2..]
  {
    var tail := vs[1..];
    assert vs == [vs[0]] + tail;
    ExceptSplits([vs[0]], tail, vs[1]);
    assert [vs[0]][..0] == [];
    assert Except([vs[0]], vs[1]) == [vs[0]];
    HeadThenRest(tail, vs[1]);
    assert tail[1..] == vs[2..];
  }

  lemma SwappedHistory(d: Disk, listed: seq<Version>)
    requires AllVerified(d, listed) && Distinct(listed) && |listed| >= 2
    ensures HistoryFrom(d, listed[1], listed) == [listed[1], listed[0]] + listed[2..]
  {
    SanitizedKeepsAllVerified(d, listed);
    ExceptSecond(listed);
  }

  /**
   Promote a new version, then roll back to the default target: the old head is served again,
   the promoted version is retained second, and the rest keeps its order.
   */
  lemma RollbackUndoesPromotion(d: Disk, p: Promotion, r: Rollback)
    requires Sound(d) && Head(d).Some? && CanPromote(d, p) && Head(d).value != Digest(p.dataset)
    requires Some(r.target) == DefaultTarget(ApplyAll(d, PromotePlan(d, p)))
    requires CanRollBack(ApplyAll(d, PromotePlan(d, p)), r)
    ensures var e := ApplyAll(d, PromotePlan(d, p));
            var f := ApplyAll(e, RollbackPlan(e, r));
            && Sound(f) && Head(f) == Head(d)
            && Listed(f) == Take([Head(d).value, Digest(p.dataset)] + Listed(e)[2..], r.retention)
            && Listed(f)[1] == Digest(p.dataset)
  {
    var e := ApplyAll(d, PromotePlan(d, p));
    PromotionMakesTheOldHeadTheDefaultTarget(d, p);
    ListedIsDistinct(e);
    SwappedHistory(e, Listed(e));
    assert RollbackPlan(e, r)[..|RollbackPlan(e, r)|] == RollbackPlan(e, r);
    RollbackIsCrashSafe(e, r, |RollbackPlan(e, r)|);
  }

  // ----- what is recoverable, and what is kept -------------------------------------

  /** A record is recovered if its digest is right, both its times can be read, and it is not from more than
      five minutes ahead. */
  lemma DiscoverableMeans(d: Disk, v: Version, now: int)
    ensures Discoverable(d, v, now) <==>
            && v in d.records && d.records[v].Record? && d.records[v].version == v && Digest(d.records[v].dataset) == v
            && d.records[v].publishedAt.Some? && v.of.fetchedAt.Some? && v.of.fetchedAt.value <= now + 5 * 60
  {
  }

  /** A history keeps the order of what was listed. */
  lemma {:induction false} SanitizedKeepsOrder(d: Disk, vs: seq<Version>, i: int, j: int) returns (a: int, b: int)
    requires 0 <= i < j < |vs| && Verified(d, vs[i]) && Verified(d, vs[j])
    ensures 0 <= a < b < |Sanitized(d, vs)| && Sanitized(d, vs)[a] == vs[i] && Sanitized(d, vs)[b] == vs[j]
  {
    var rest := vs[..|vs| - 1];
    if j < |rest| {
      a, b := SanitizedKeepsOrder(d, rest, i, j);
    } else {
      a := SanitizedHolds(d, rest, i);
      b := |Sanitized(d, vs)| - 1;
    }
  }

  lemma {:induction false} SanitizedHolds(d: Disk, vs: seq<Version>, i: int) returns (a: int)
    requires 0 <= i < |vs| && Verified(d, vs[i])
    ensures 0 <= a < |Sanitized(d, vs)| && Sanitized(d, vs)[a] == vs[i]
  {
    if i < |vs| - 1 {
      a := SanitizedHolds(d, vs[..|vs| - 1], i);
    } else {
      a := |Sanitized(d, vs)| - 1;
    }
  }
}
