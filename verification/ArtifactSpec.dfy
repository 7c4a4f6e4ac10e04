/** What each operation of the artifact gateway does to the object store. */
module ArtifactSpec {
  import opened Faults
  import opened Ordering
  import opened Extraction
  import opened Keys
  import Paths
  import Text

  /**
   * Digests are free of collisions: a digest is as good as what it was taken of. `Other` is any
   * other string a client may send.
   */
  datatype Digest = OfArchive(archive: Archive) | OfContent(content: Content) | Other(text: string)

  datatype Entry = Entry(path: string, digest: Digest, mediaType: string, size: nat, cacheControl: string)

  datatype Manifest = Manifest(
    org: string, rev: string, createdAt: int, archive: Digest, archiveSize: nat, files: seq<Entry>)

  /** A retention request as it is digested: sets are listed sorted, the cutoff in whole seconds. */
  datatype RetentionDoc = RetentionDoc(
    id: string, org: string, retained: set<string>, candidates: set<string>, before: int)

  datatype Receipt = Receipt(request: RetentionDoc, reconciledAt: int, deleted: seq<string>)

  /** The bodies of stored objects; JSON documents are as good as what they encode. */
  datatype Content = Data(bytes: Bytes) | ManifestJson(manifest: Manifest) | ReceiptJson(receipt: Receipt)

  datatype Address = Address(bucket: string, key: string)
  datatype Object = Object(content: Content, contentType: string, lastModified: int)
  type Store = map<Address, Object>

  datatype Config = Config(staticBucket: string, evidenceBucket: string, limits: Limits)

  /** Times are in microseconds; documents carry whole seconds. */
  function Seconds(t: int): int {
    t / 1_000_000
  }

  // Immutable puts

  datatype Write = Write(address: Address, content: Content, contentType: string)
  datatype Put = Put(store: Store, outcome: Outcome<bool>)

  function PutOne(store: Store, w: Write, at: int): Put {
    if w.address in store then
      if store[w.address].content != w.content then Put(store, Fault("artifact_immutable_conflict", 409))
      else Put(store, Ok(false))
    else Put(store[w.address := Object(w.content, w.contentType, at)], Ok(true))
  }

  /** The first `k` of a list of puts; a conflict ends the list. `stamps` are the store's times. */
  function PutFirst(store: Store, ws: seq<Write>, stamps: nat -> int, k: nat): Put
    requires k <= |ws|
  {
    if k == 0 then Put(store, Ok(true))
    else
      var before := PutFirst(store, ws, stamps, k - 1);
      if before.outcome.Fault? then before else PutOne(before.store, ws[k - 1], stamps(k - 1))
  }

  // Publishing

  datatype Publication = Publication(org: string, rev: string, archive: Archive, expected: Digest, now: int)

  function Describe(f: StaticFile): Entry {
    Entry(f.path, OfContent(Data(f.body)), Paths.MediaType(f.path), |f.body|, Paths.CacheControl(f.path))
  }

  function DescribeAll(files: seq<StaticFile>): seq<Entry> {
    seq(|files|, i requires 0 <= i < |files| => Describe(files[i]))
  }

  function ManifestOf(pub: Publication, files: seq<StaticFile>): Manifest {
    Manifest(pub.org, pub.rev, Seconds(pub.now), OfArchive(pub.archive), |pub.archive.raw|, DescribeAll(files))
  }

  function FileAddress(cfg: Config, org: string, rev: string, path: string): Address {
    Address(cfg.staticBucket, FileKey(org, rev, path))
  }

  function ManifestAddress(cfg: Config, org: string, rev: string): Address {
    Address(cfg.staticBucket, ManifestKey(org, rev))
  }

  function FileWrite(cfg: Config, pub: Publication, f: StaticFile): Write {
    Write(FileAddress(cfg, pub.org, pub.rev, f.path), Data(f.body), Paths.MediaType(f.path))
  }

  function ManifestWrite(cfg: Config, pub: Publication, files: seq<StaticFile>): Write {
    Write(ManifestAddress(cfg, pub.org, pub.rev), ManifestJson(ManifestOf(pub, files)), "application/json")
  }

  /** Every file in order, and the manifest last. */
  function Writes(cfg: Config, pub: Publication, files: seq<StaticFile>): (ws: seq<Write>)
    ensures |ws| == |files| + 1
  {
    seq(|files|, i requires 0 <= i < |files| => FileWrite(cfg, pub, files[i]))
    + [ManifestWrite(cfg, pub, files)]
  }

  function Prepare(cfg: Config, pub: Publication): Outcome<seq<StaticFile>> {
    if !IsUuid(pub.org) || !IsUuid(pub.rev) then Fault("artifact_identity_invalid", 422)
    else if pub.expected != OfArchive(pub.archive) then Fault("artifact_digest_mismatch", 422)
    else if pub.archive.raw == [] || |pub.archive.raw| > cfg.limits.archiveBytes then
      Fault("archive_size_invalid", 413)
    else Extract(pub.archive, cfg.limits)
  }

  /** What a publication finds under its manifest key. */
  function Existing(cfg: Config, store: Store, pub: Publication): Option<Outcome<Manifest>> {
    var a := ManifestAddress(cfg, pub.org, pub.rev);
    if a !in store then None
    else if !store[a].content.ManifestJson? then Some(Fault("artifact_state_invalid", 500))
    else if store[a].content.manifest.archive != OfArchive(pub.archive) then
      Some(Fault("revision_artifact_conflict", 409))
    else Some(Ok(store[a].content.manifest))
  }

  /** The store when the process dies after at most `puts` of the publication's puts. */
  function PublishUntil(cfg: Config, store: Store, pub: Publication, stamps: nat -> int, puts: nat): Store {
    var files := Prepare(cfg, pub);
    if files.Fault? || Existing(cfg, store, pub).Some? then store
    else
      var ws := Writes(cfg, pub, files.value);
      PutFirst(store, ws, stamps, if puts < |ws| then puts else |ws|).store
  }

  datatype Published = Published(store: Store, outcome: Outcome<(Manifest, bool)>)

  function Publish(cfg: Config, store: Store, pub: Publication, stamps: nat -> int): Published {
    var files := Prepare(cfg, pub);
    if files.Fault? then Published(store, Fault(files.code, files.status))
    else
      match Existing(cfg, store, pub)
      case Some(Fault(code, status)) => Published(store, Fault(code, status))
      case Some(Ok(manifest)) => Published(store, Ok((manifest, false)))
      case None =>
        var ws := Writes(cfg, pub, files.value);
        var put := PutFirst(store, ws, stamps, |ws|);
        Published(put.store,
                  if put.outcome.Fault? then Fault(put.outcome.code, put.outcome.status)
                  else Ok((ManifestOf(pub, files.value), true)))
  }

  // Reading

  datatype Served = Served(path: string, body: Content, digest: Digest, mediaType: string, cacheControl: string)

  function ReadFile(cfg: Config, store: Store, org: string, rev: string, path: string): Outcome<Served> {
    if !IsUuid(org) || !IsUuid(rev) then Fault("artifact_identity_invalid", 422)
    else
      var p :- Paths.CheckPath(path, false);
      var a := FileAddress(cfg, org, rev, p);
      if a !in store then Fault("artifact_not_found", 404)
      else
        var body := store[a].content;
        Ok(Served(p, body, OfContent(body), Paths.MediaType(p), Paths.CacheControl(p)))
  }

  // Evidence

  datatype Evidence = Evidence(
    org: string, build: string, name: string, body: Bytes, parses: bool, expected: Digest)

  predicate LowerLetter(c: char) {
    'a' <= c <= 'z'
  }

  /** A letter, up to 47 more letters, digits, '_' or '-', and one of three extensions. */
  predicate EvidenceName(name: string) {
    exists n :: 1 <= n <= 48 && n <= |name| && name[n..] in {".json", ".txt", ".log"}
                && LowerLetter(name[0])
                && forall i :: 1 <= i < n ==>
                     LowerLetter(name[i]) || '0' <= name[i] <= '9' || name[i] == '_' || name[i] == '-'
  }

  function EvidenceWrite(cfg: Config, e: Evidence): Write {
    Write(Address(cfg.evidenceBucket, EvidenceKey(e.org, e.build, e.name)), Data(e.body),
          Paths.MediaType(e.name))
  }

  /** `parses` says whether the body is JSON text. */
  function PutEvidence(cfg: Config, store: Store, e: Evidence, at: int): Put {
    if !IsUuid(e.org) || !IsUuid(e.build) then Put(store, Fault("artifact_identity_invalid", 422))
    else if !EvidenceName(e.name) then Put(store, Fault("evidence_name_invalid", 422))
    else if e.body == [] || |e.body| > cfg.limits.evidenceBytes then
      Put(store, Fault("evidence_size_invalid", 413))
    else if Text.EndsWith(e.name, ".json") && !e.parses then Put(store, Fault("evidence_json_invalid", 422))
    else if e.expected != OfContent(Data(e.body)) then Put(store, Fault("artifact_digest_mismatch", 422))
    else PutOne(store, EvidenceWrite(cfg, e), at)
  }

  function ReadEvidence(cfg: Config, store: Store, org: string, build: string, name: string): Outcome<Content> {
    if !IsUuid(org) || !IsUuid(build) then Fault("artifact_identity_invalid", 422)
    else if !EvidenceName(name) then Fault("evidence_name_invalid", 422)
    else
      var a := Address(cfg.evidenceBucket, EvidenceKey(org, build, name));
      if a !in store then Fault("artifact_not_found", 404) else Ok(store[a].content)
  }

  // Retention

  const RETENTION_LIMIT := 1000

  /** `before` is missing when the cutoff carries no time zone. */
  datatype Retention = Retention(
    id: string, org: string, retain: seq<string>, candidates: seq<string>, before: Option<int>)

  function Elements(list: seq<string>): set<string> {
    set x | x in list
  }

  function CheckRetention(r: Retention, now: int): Outcome<RetentionDoc> {
    if !IsUuid(r.id) || !IsUuid(r.org)
       || (exists x :: x in r.retain && !IsUuid(x)) || (exists x :: x in r.candidates && !IsUuid(x))
    then Fault("artifact_identity_invalid", 422)
    else
      var retained, candidates := Elements(r.retain), Elements(r.candidates);
      if |retained| > RETENTION_LIMIT || |candidates| > RETENTION_LIMIT || retained * candidates != {} then
        Fault("retention_set_invalid", 422)
      else if r.before.None? || r.before.value > now then Fault("retention_cutoff_invalid", 422)
      else Ok(RetentionDoc(r.id, r.org, retained, candidates, Seconds(r.before.value)))
  }

  /** The stored objects of one revision, as the reconciler groups them. */
  ghost predicate Holds(cfg: Config, store: Store, org: string, rev: string, a: Address) {
    a in store && a.bucket == cfg.staticBucket && InRevision(a.key, org, rev)
  }

  /** A revision with objects, all of them older than the cutoff. */
  ghost predicate Expired(cfg: Config, store: Store, org: string, rev: string, cutoff: int) {
    && (exists a :: Holds(cfg, store, org, rev, a))
    && (forall a :: Holds(cfg, store, org, rev, a) ==> store[a].lastModified < cutoff)
  }

  ghost function ExpiredRevisions(cfg: Config, store: Store, r: Retention): set<string>
    requires r.before.Some?
  {
    set rev | rev in r.candidates && rev !in r.retain && Expired(cfg, store, r.org, rev, r.before.value)
  }

  ghost function Doomed(cfg: Config, store: Store, org: string, revs: set<string>): set<Address> {
    set a | a in store && exists rev :: rev in revs && Holds(cfg, store, org, rev, a)
  }

  ghost function Swept(cfg: Config, store: Store, org: string, revs: set<string>): Store {
    store - Doomed(cfg, store, org, revs)
  }

  function ReceiptAddress(cfg: Config, r: Retention): Address {
    Address(cfg.evidenceBucket, ReceiptKey(r.org, r.id))
  }

  function ReceiptObject(receipt: Receipt, at: int): Object {
    Object(ReceiptJson(receipt), "application/json", at)
  }

  datatype Reconciled = Reconciled(store: Store, outcome: Outcome<(Receipt, bool)>)

  ghost function Reconcile(cfg: Config, store: Store, r: Retention, now: int, at: int): Reconciled {
    var doc := CheckRetention(r, now);
    var a := ReceiptAddress(cfg, r);
    if doc.Fault? then Reconciled(store, Fault(doc.code, doc.status))
    else if a in store then
      if !store[a].content.ReceiptJson? then Reconciled(store, Fault("artifact_state_invalid", 500))
      else if store[a].content.receipt.request != doc.value then
        Reconciled(store, Fault("retention_reconciliation_conflict", 409))
      else Reconciled(store, Ok((store[a].content.receipt, false)))
    else
      var revs := ExpiredRevisions(cfg, store, r);
      var receipt := Receipt(doc.value, Seconds(now), Listed(revs));
      Reconciled(Swept(cfg, store, r.org, revs)[a := ReceiptObject(receipt, at)], Ok((receipt, true)))
  }

  /** Whether a request reaches its deletions, rather than being refused or replayed. */
  ghost predicate Reaches(cfg: Config, store: Store, r: Retention, now: int) {
    CheckRetention(r, now).Ok? && ReceiptAddress(cfg, r) !in store
  }
}
