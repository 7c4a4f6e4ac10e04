/** Dying in the middle of one revision's deletions: what can dangle, and what puts it right. */
module InterruptionRuns {
  import opened Ordering
  import opened Extraction
  import opened Keys
  import opened ArtifactSpec
  import opened Gateway
  import opened GatewayRuns
  import opened RetentionRuns
  import Paths

  // One revision

  /**
   * After the first `n` deletions of a revision's group its manifest dangles exactly when the
   * manifest is still to be deleted and a file it lists has been.
   */
  lemma DeletionsStopped(cfg: Config, store: Store, org: string, rev: string, infos: seq<ObjectInfo>, n: nat)
    requires Consistent(cfg, store) && IsUuid(org) && IsUuid(rev) && Committed(cfg, store, org, rev)
    requires IsListing(store, cfg.staticBucket, RevisionsPrefix(org), infos) && n <= |Group(infos, org, rev)|
    ensures var first := Group(infos, org, rev)[..n];
            var left := store - AddressesOf(cfg.staticBucket, first);
            Backed(cfg, left, org, rev) <==>
              || (exists x :: x in first && x.key == ManifestKey(org, rev))
              || forall e, x :: e in store[ManifestAddress(cfg, org, rev)].content.manifest.files && x in first ==>
                   x.key != FileKey(org, rev, e.path)
  {
    assert Backed(cfg, store, org, rev);
    hide Group, Extract, IsListing;
    var first := Group(infos, org, rev)[..n];
    HalfDeletedRevision(cfg, store, org, rev, AddressesOf(cfg.staticBucket, first));
    forall key ensures Address(cfg.staticBucket, key) in AddressesOf(cfg.staticBucket, first) <==>
                       exists x :: x in first && x.key == key {
    }
    hide Backed, AddressesOf, FileKey, ManifestKey;
  }

  lemma IndexIsListed(cfg: Config, store: Store, org: string, rev: string)
    requires Backed(cfg, store, org, rev) && Committed(cfg, store, org, rev)
    ensures exists e :: e in store[ManifestAddress(cfg, org, rev)].content.manifest.files && e.path == "index.html"
  {
    var m := store[ManifestAddress(cfg, org, rev)].content.manifest;
    ExtractBounds(m.archive.archive, cfg.limits);
    var files := Extract(m.archive.archive, cfg.limits).value;
    hide Extract, StrictlySorted, TotalSize, ManifestAddress, Paths.Canonical, Stored;
    var f :| f in files && f.path == "index.html";
    var i :| 0 <= i < |files| && files[i] == f;
    assert m.files[i] in m.files && m.files[i].path == "index.html";
  }

  /** For instance, every committed revision dangles once its index page alone is gone. */
  lemma IndexGone(cfg: Config, store: Store, org: string, rev: string)
    requires Consistent(cfg, store) && IsUuid(org) && IsUuid(rev) && Committed(cfg, store, org, rev)
    ensures !Backed(cfg, store - {FileAddress(cfg, org, rev, "index.html")}, org, rev)
  {
    assert Backed(cfg, store, org, rev);
    IndexIsListed(cfg, store, org, rev);
    ManifestIsNoFile(org, rev, org, rev, "index.html");
    HalfDeletedRevision(cfg, store, org, rev, {FileAddress(cfg, org, rev, "index.html")});
    hide Backed, Extract, IsUuid, FileKey, ManifestKey;
  }

  // Runs

  /** An event of a run, or a reconciliation that dies when some of its objects are gone. */
  datatype Step = Whole(event: Event) | Dies(retention: Retention, now: int, gone: set<Address>)

  ghost function Take(cfg: Config, store: Store, step: Step): Store {
    match step
    case Whole(e) => Apply(cfg, store, e)
    case Dies(r, now, gone) =>
      if Reaches(cfg, store, r, now) then store - (gone * Doomed(cfg, store, r.org, ExpiredRevisions(cfg, store, r)))
      else store
  }

  ghost function RunAll(cfg: Config, store: Store, steps: seq<Step>): Store
    decreases |steps|
  {
    if steps == [] then store else RunAll(cfg, Take(cfg, store, steps[0]), steps[1..])
  }

  /** The reconciliation dies while this revision is among those it is deleting. */
  ghost predicate Caught(cfg: Config, store: Store, step: Step, org: string, rev: string) {
    step.Dies? && Reaches(cfg, store, step.retention, step.now) && step.retention.org == org
    && rev in ExpiredRevisions(cfg, store, step.retention)
  }

  ghost predicate EverCaught(cfg: Config, store: Store, steps: seq<Step>, org: string, rev: string)
    decreases |steps|
  {
    steps != [] &&
    (Caught(cfg, store, steps[0], org, rev) || EverCaught(cfg, Take(cfg, store, steps[0]), steps[1..], org, rev))
  }

  lemma DyingSparesOthers(cfg: Config, store: Store, step: Step, org: string, rev: string)
    requires Backed(cfg, store, org, rev) && IsUuid(org) && IsUuid(rev)
    requires step.Dies? && !Caught(cfg, store, step, org, rev)
    ensures Backed(cfg, Take(cfg, store, step), org, rev)
  {
    hide Extract, ExpiredRevisions;
    var left, r := Take(cfg, store, step), step.retention;
    if left != store && Committed(cfg, left, org, rev) {
      var m := store[ManifestAddress(cfg, org, rev)].content.manifest;
      var files := Extract(m.archive.archive, cfg.limits).value;
      forall i | 0 <= i < |files| ensures Stored(cfg, left, org, rev, files[i]) {
        assert Stored(cfg, store, org, rev, files[i]);
        SweepIsWhole(cfg, store, r.org, ExpiredRevisions(cfg, store, r), org, rev, "files/" + files[i].path);
      }
    }
  }

  lemma TakeKeepsBacked(cfg: Config, store: Store, step: Step, org: string, rev: string)
    requires Backed(cfg, store, org, rev) && IsUuid(org) && IsUuid(rev) && !Caught(cfg, store, step, org, rev)
    ensures Backed(cfg, Take(cfg, store, step), org, rev)
  {
    match step
    case Whole(e) => EventKeepsBacked(cfg, store, e, org, rev);
    case Dies(_, _, _) => DyingSparesOthers(cfg, store, step, org, rev);
  }

  /**
   * Over every run, deaths inside a revision's deletions included, the only manifests that can
   * dangle are those of revisions an unfinished reconciliation was deleting.
   */
  lemma {:induction false} OnlyCaughtManifestsDangle(
    cfg: Config, store: Store, steps: seq<Step>, org: string, rev: string)
    requires Backed(cfg, store, org, rev) && IsUuid(org) && IsUuid(rev)
    requires !EverCaught(cfg, store, steps, org, rev)
    ensures Backed(cfg, RunAll(cfg, store, steps), org, rev)
    decreases |steps|
  {
    hide Backed, Take, Caught;
    if steps != [] {
      TakeKeepsBacked(cfg, store, steps[0], org, rev);
      OnlyCaughtManifestsDangle(cfg, Take(cfg, store, steps[0]), steps[1..], org, rev);
    }
  }

  /** Making the same request again removes whatever was left dangling. */
  lemma RetryRepairs(
    cfg: Config, store: Store, r: Retention, now: int, gone: set<Address>, later: int, at: int,
    org: string, rev: string)
    requires Backed(cfg, store, org, rev) && IsUuid(org) && IsUuid(rev)
    requires Reaches(cfg, store, r, now) && now <= later
    ensures var left := Take(cfg, store, Dies(r, now, gone));
            Backed(cfg, Reconcile(cfg, left, r, later, at).store, org, rev)
  {
    var left := Take(cfg, store, Dies(r, now, gone));
    var doomed := gone * Doomed(cfg, store, r.org, ExpiredRevisions(cfg, store, r));
    var after := Swept(cfg, store, r.org, ExpiredRevisions(cfg, store, r));
    DoomAfterPartialSweep(cfg, store, r, doomed);
    assert Swept(cfg, left, r.org, ExpiredRevisions(cfg, left, r)) == after;
    SweepKeepsBacked(cfg, store, r.org, ExpiredRevisions(cfg, store, r), org, rev);
    EvidenceOutside(r.org, r.id, "", org);
    var receipt := Receipt(CheckRetention(r, later).value, Seconds(later), Listed(ExpiredRevisions(cfg, left, r)));
    hide Backed, Doomed, ExpiredRevisions;
    OutsidePutKeepsBacked(cfg, after, ReceiptAddress(cfg, r), ReceiptObject(receipt, at), org, rev);
  }
}
