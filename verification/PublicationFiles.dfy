/**
 The files of the dataset publication store (`app/dataset_publication_store.py`): immutable
 version records named by the digest of their dataset, and a checksummed manifest that names
 them. Digests are modelled as constructors, hence injective; every durable write is an
 atomic replace of one file.
 */
module PublicationFiles {
  import opened Options

  /** A dataset: its `fetched_at`, if that is a readable timestamp, and everything else. */
  datatype Dataset = Dataset(fetchedAt: Option<int>, content: nat)

  datatype Version = Digest(of: Dataset)

  /** What a file under `versions/` holds; wrong schema, source or JSON all count as damaged. */
  datatype RecordFile = DamagedRecord | Record(version: Version, dataset: Dataset, publishedAt: Option<int>)

  datatype Checksum = ChecksumOf(current: Version, versions: seq<Version>, updatedAt: int) | ForeignChecksum(n: nat)

  /** The file `published.json`: a manifest, or the record that an older schema kept there. */
  datatype PublishedFile =
    | NotPublished
    | UnreadablePointer
    | LegacyRecord(version: Version, dataset: Dataset, publishedAt: Option<int>)
    | Manifest(current: Version, versions: seq<Version>, updatedAt: int, checksum: Checksum)

  datatype Disk = Disk(records: map<Version, RecordFile>, published: PublishedFile)

  const MIN_RETENTION := 2
  const MAX_RETENTION := 20
  const MAX_FUTURE_SKEW_SECONDS := 300

  // ----- reading -------------------------------------------------------------------

  /** `_verified_version_record`: the file exists, names itself and its hash matches. */
  predicate Verified(d: Disk, v: Version) {
    v in d.records && d.records[v].Record? && d.records[v].version == v && Digest(d.records[v].dataset) == v
  }

  predicate Distinct(vs: seq<Version>) {
    forall i, j :: 0 <= i < j < |vs| ==> vs[i] != vs[j]
  }

  datatype Pointer = ManifestPointer(versions: seq<Version>) | LegacyPointer(version: Version) | BadPointer

  /** `_read_publication_pointer`: validates the published file without opening what it points at. */
  function ReadPointer(p: PublishedFile): Pointer {
    match p
    case NotPublished => BadPointer
    case UnreadablePointer => BadPointer
    case LegacyRecord(version, dataset, _) => if Digest(dataset) == version then LegacyPointer(version) else BadPointer
    case Manifest(current, versions, updatedAt, checksum) =>
      if versions != [] && versions[0] == current && Distinct(versions) && |versions| <= MAX_RETENTION
         && checksum == ChecksumOf(current, versions, updatedAt)
      then ManifestPointer(versions)
      else BadPointer
  }

  /** The version that readers are served, if any can be. */
  function Head(d: Disk): Option<Version> {
    match ReadPointer(d.published)
    case ManifestPointer(versions) => if versions != [] && Verified(d, versions[0]) then Some(versions[0]) else None
    case LegacyPointer(version) => Some(version)
    case BadPointer => None
  }

  // ----- durable steps -------------------------------------------------------------

  datatype Io =
    | WriteRecord(version: Version, record: RecordFile)
    | WriteManifest(manifest: PublishedFile)
    | Unlink(version: Version)

  function Apply(d: Disk, io: Io): Disk {
    match io
    case WriteRecord(version, record) => d.(records := d.records[version := record])
    case WriteManifest(manifest) => d.(published := manifest)
    case Unlink(version) => d.(records := d.records - {version})
  }

  function ApplyAll(d: Disk, ios: seq<Io>): Disk {
    if ios == [] then d else Apply(ApplyAll(d, ios[..|ios| - 1]), ios[|ios| - 1])
  }

  lemma {:induction false} ApplyAllAppends(d: Disk, a: seq<Io>, b: seq<Io>)
    ensures ApplyAll(d, a + b) == ApplyAll(ApplyAll(d, a), b)
  {
    if b == [] {
      assert a + b == a;
    } else {
      assert (a + b)[..|a + b| - 1] == a + b[..|b| - 1];
      ApplyAllAppends(d, a, b[..|b| - 1]);
    }
  }

  // ----- the manifest of a history -------------------------------------------------

  predicate ValidRetention(retention: int) {
    MIN_RETENTION <= retention <= MAX_RETENTION
  }

  function Take(vs: seq<Version>, n: nat): seq<Version> {
    if n < |vs| then vs[..n] else vs
  }

  function ManifestFor(history: seq<Version>, retention: nat, now: int): PublishedFile
    requires history != [] && retention > 0
  {
    var kept := Take(history, retention);
    Manifest(kept[0], kept, now, ChecksumOf(kept[0], kept, now))
  }

  /** Every manifest that is written passes the reader's validation. */
  lemma ManifestRoundTrip(history: seq<Version>, retention: int, now: int)
    requires history != [] && Distinct(history) && ValidRetention(retention)
    ensures ReadPointer(ManifestFor(history, retention, now)) == ManifestPointer(Take(history, retention))
  {
  }

  function Sanitized(d: Disk, vs: seq<Version>): seq<Version> {
    if vs == [] then []
    else Sanitized(d, vs[..|vs| - 1]) + if Verified(d, vs[|vs| - 1]) then [vs[|vs| - 1]] else []
  }

  function Except(vs: seq<Version>, v: Version): seq<Version> {
    if vs == [] then []
    else Except(vs[..|vs| - 1], v) + if vs[|vs| - 1] != v then [vs[|vs| - 1]] else []
  }

  /** The head first, then every other listed version that is still valid, in order. */
  function HistoryFrom(d: Disk, head: Version, listed: seq<Version>): seq<Version> {
    [head] + Except(Sanitized(d, listed), head)
  }

  lemma {:induction false} SanitizedIsVerified(d: Disk, vs: seq<Version>)
    ensures forall v :: v in Sanitized(d, vs) <==> v in vs && Verified(d, v)
    ensures Distinct(vs) ==> Distinct(Sanitized(d, vs))
  {
    if vs != [] {
      var rest, last := vs[..|vs| - 1], vs[|vs| - 1];
      SanitizedIsVerified(d, rest);
      assert vs == rest + [last];
      if Distinct(vs) { assert last !in rest; }
    }
  }

  lemma {:induction false} ExceptDrops(vs: seq<Version>, v: Version)
    ensures forall w :: w in Except(vs, v) <==> w in vs && w != v
    ensures Distinct(vs) ==> Distinct(Except(vs, v))
    ensures v !in vs ==> Except(vs, v) == vs
  {
    if vs != [] {
      var rest, last := vs[..|vs| - 1], vs[|vs| - 1];
      ExceptDrops(rest, v);
      assert vs == rest + [last];
      if Distinct(vs) { assert last !in rest; }
    }
  }

  lemma HistoryIsValid(d: Disk, head: Version, listed: seq<Version>)
    requires Verified(d, head) && Distinct(listed)
    ensures Distinct(HistoryFrom(d, head, listed))
    ensures forall v :: v in HistoryFrom(d, head, listed) ==> Verified(d, v)
  {
    SanitizedIsVerified(d, listed);
    ExceptDrops(Sanitized(d, listed), head);
  }

  lemma {:induction false} SanitizedKeepsAllVerified(d: Disk, vs: seq<Version>)
    requires forall v :: v in vs ==> Verified(d, v)
    ensures Sanitized(d, vs) == vs
  {
    if vs != [] {
      assert vs == vs[..|vs| - 1] + [vs[|vs| - 1]];
      SanitizedKeepsAllVerified(d, vs[..|vs| - 1]);
    }
  }

  // ----- what the reader accepts ---------------------------------------------------

  /** A manifest is valid exactly if its list is not empty, starts with its current version, repeats nothing,
      is not longer than 20, and its checksum fits. */
  lemma ManifestIsValidExactlyWhen(current: Version, versions: seq<Version>, updatedAt: int, checksum: Checksum)
    ensures ReadPointer(Manifest(current, versions, updatedAt, checksum)).ManifestPointer? <==>
            && 1 <= |versions| <= 20 && versions[0] == current
            && (forall i, j :: 0 <= i < |versions| && 0 <= j < |versions| && versions[i] == versions[j] ==> i == j)
            && checksum == ChecksumOf(current, versions, updatedAt)
    ensures ReadPointer(Manifest(current, versions, updatedAt, checksum)).ManifestPointer? ==>
              ReadPointer(Manifest(current, versions, updatedAt, checksum)).versions == versions
  {
  }

  /** A legacy record is valid exactly if its digest is right, and nothing else can be read. */
  lemma LegacyIsValidExactlyWhen(version: Version, dataset: Dataset, publishedAt: Option<int>)
    ensures ReadPointer(LegacyRecord(version, dataset, publishedAt)) ==
            if Digest(dataset) == version then LegacyPointer(version) else BadPointer
    ensures ReadPointer(NotPublished) == BadPointer && ReadPointer(UnreadablePointer) == BadPointer
  {
  }

  /** What is served: the verified head of a valid manifest, or a legacy record. */
  lemma HeadMeans(d: Disk, v: Version)
    ensures Head(d) == Some(v) <==>
            || ReadPointer(d.published) == LegacyPointer(v)
            || (&& ReadPointer(d.published).ManifestPointer? && ReadPointer(d.published).versions[..1] == [v]
                && v in d.records && d.records[v].Record?
                && d.records[v].version == v && Digest(d.records[v].dataset) == v)
  {
  }
}
