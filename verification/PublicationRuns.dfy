/** Publishing: what a success means for readers, and what a crash means for the retry. */
module PublicationRuns {
  import opened Faults
  import opened Extraction
  import opened Keys
  import opened ArtifactSpec
  import opened GatewayRuns
  import Paths

  /** The revision is published from this archive. */
  ghost predicate PublishedFrom(cfg: Config, store: Store, org: string, rev: string, archive: Archive) {
    && Committed(cfg, store, org, rev)
    && var content := store[ManifestAddress(cfg, org, rev)].content;
    && content.ManifestJson?
    && content.manifest.archive == OfArchive(archive)
  }

  /** A success, first or repeated, leaves the revision published from the archive it was given. */
  lemma PublishPublishes(cfg: Config, store: Store, pub: Publication, stamps: nat -> int)
    requires Consistent(cfg, store)
    requires Publish(cfg, store, pub, stamps).outcome.Ok?
    ensures var after := Publish(cfg, store, pub, stamps);
            && Consistent(cfg, after.store)
            && PublishedFrom(cfg, after.store, pub.org, pub.rev, pub.archive)
            && after.store[ManifestAddress(cfg, pub.org, pub.rev)].content == ManifestJson(after.outcome.value.0)
  {
    var files := Prepare(cfg, pub).value;
    hide Extract;
    forall org, rev | IsUuid(org) && IsUuid(rev) ensures Backed(cfg, Publish(cfg, store, pub, stamps).store, org, rev) {
      PublishKeepsBacked(cfg, store, pub, stamps, |files| + 1, org, rev);
    }
    if Existing(cfg, store, pub).None? {
      ManifestIsCommitted(cfg, store, pub, files, stamps);
    }
  }

  function ServedAs(f: StaticFile): Served {
    Served(f.path, Data(f.body), OfContent(Data(f.body)), Paths.MediaType(f.path), Paths.CacheControl(f.path))
  }

  /**
   * Every file of the archive a revision was published from is served, under each accepted
   * spelling of its path, with the archive's bytes and with the digest, media type and cache
   * policy that the manifest lists.
   */
  lemma PublishedFilesAreServed(
    cfg: Config, store: Store, org: string, rev: string, archive: Archive, f: StaticFile, spelling: string)
    requires Consistent(cfg, store) && IsUuid(org) && IsUuid(rev)
    requires PublishedFrom(cfg, store, org, rev, archive)
    requires Extract(archive, cfg.limits).Ok? ==> f in Extract(archive, cfg.limits).value
    requires Paths.CheckPath(spelling, false) == Ok(f.path)
    ensures Extract(archive, cfg.limits).Ok?
    ensures ReadFile(cfg, store, org, rev, spelling) == Ok(ServedAs(f))
    ensures Describe(f) in store[ManifestAddress(cfg, org, rev)].content.manifest.files
    ensures var e := Describe(f);
            ServedAs(f) == Served(e.path, Data(f.body), e.digest, e.mediaType, e.cacheControl)
  {
    hide Paths.CheckPath, Paths.MediaType, Paths.CacheControl, Extract;
    assert Backed(cfg, store, org, rev);
    var m := store[ManifestAddress(cfg, org, rev)].content.manifest;
    var files := Extract(archive, cfg.limits).value;
    var i :| 0 <= i < |files| && files[i] == f;
    assert Stored(cfg, store, org, rev, files[i]);
    assert m.files[i] == Describe(f);
  }

  /** The path a manifest lists is itself an accepted spelling, so it reads back as listed. */
  lemma ListedPathsAreServed(
    cfg: Config, store: Store, org: string, rev: string, archive: Archive, f: StaticFile)
    requires Consistent(cfg, store) && IsUuid(org) && IsUuid(rev)
    requires PublishedFrom(cfg, store, org, rev, archive)
    requires Extract(archive, cfg.limits).Ok? && f in Extract(archive, cfg.limits).value
    ensures ReadFile(cfg, store, org, rev, f.path) == Ok(ServedAs(f))
  {
    ExtractBounds(archive, cfg.limits);
    Paths.CanonicalIsFixed(f.path);
    PublishedFilesAreServed(cfg, store, org, rev, archive, f, f.path);
  }

  // Published revisions survive whatever does not delete them

  ghost predicate Deletes(cfg: Config, store: Store, e: Event, org: string, rev: string) {
    && e.Reconciling?
    && Reaches(cfg, store, e.retention, e.now)
    && e.retention.org == org
    && rev in ExpiredRevisions(cfg, store, e.retention)
    && (e.finished || rev in e.done)
  }

  ghost predicate NeverDeletes(cfg: Config, store: Store, events: seq<Event>, org: string, rev: string)
    decreases |events|
  {
    events == [] ||
    (!Deletes(cfg, store, events[0], org, rev)
     && NeverDeletes(cfg, Apply(cfg, store, events[0]), events[1..], org, rev))
  }

  lemma EventKeepsPublished(cfg: Config, store: Store, e: Event, org: string, rev: string, archive: Archive)
    requires IsUuid(org) && IsUuid(rev)
    requires PublishedFrom(cfg, store, org, rev, archive) && !Deletes(cfg, store, e, org, rev)
    ensures PublishedFrom(cfg, Apply(cfg, store, e), org, rev, archive)
  {
    var a := ManifestAddress(cfg, org, rev);
    if e.Reconciling? && Reaches(cfg, store, e.retention, e.now) {
      var r := e.retention;
      var revs := ExpiredRevisions(cfg, store, r);
      SweepIsWhole(cfg, store, r.org, if e.finished then revs else revs * e.done, org, rev, "manifest.json");
    }
    assert e.Reconciling? ==> a in Apply(cfg, store, e);
    NothingIsOverwritten(cfg, store, e, a);
  }

  /** Over any later run that does not delete the revision, it stays published and readable. */
  lemma {:induction false} PublishedStays(
    cfg: Config, store: Store, events: seq<Event>, org: string, rev: string, archive: Archive)
    requires Consistent(cfg, store) && IsUuid(org) && IsUuid(rev)
    requires PublishedFrom(cfg, store, org, rev, archive)
    requires NeverDeletes(cfg, store, events, org, rev)
    ensures var after := Run(cfg, store, events);
            && PublishedFrom(cfg, after, org, rev, archive)
            && Extract(archive, cfg.limits).Ok?
            && forall f :: f in Extract(archive, cfg.limits).value ==>
                 ReadFile(cfg, after, org, rev, f.path) == Ok(ServedAs(f))
    decreases |events|
  {
    hide ReadFile, ServedAs, Extract;
    if events == [] {
      assert Backed(cfg, store, org, rev);
      forall f | f in Extract(archive, cfg.limits).value
        ensures ReadFile(cfg, store, org, rev, f.path) == Ok(ServedAs(f))
      {
        ListedPathsAreServed(cfg, store, org, rev, archive, f);
      }
    } else {
      EventKeepsPublished(cfg, store, events[0], org, rev, archive);
      EventKeepsConsistent(cfg, store, events[0]);
      PublishedStays(cfg, Apply(cfg, store, events[0]), events[1..], org, rev, archive);
    }
  }

  // Crash and retry

  /**
   * Once a publication has succeeded, the same archive is answered with the first manifest,
   * another one with a conflict, and neither changes the store.
   */
  lemma RepeatIsAnswered(
    cfg: Config, store: Store, pub: Publication, stamps: nat -> int, next: Publication, stamps': nat -> int)
    requires Consistent(cfg, store)
    requires Publish(cfg, store, pub, stamps).outcome.Ok?
    requires next.org == pub.org && next.rev == pub.rev && Prepare(cfg, next).Ok?
    ensures var first := Publish(cfg, store, pub, stamps);
            var second := Publish(cfg, first.store, next, stamps');
            && second.store == first.store
            && second.outcome == if next.archive == pub.archive then Ok((first.outcome.value.0, false))
                                 else Fault("revision_artifact_conflict", 409)
  {
    hide Extract;
    PublishPublishes(cfg, store, pub, stamps);
  }

  /**
   * A retry of a publication that died before its manifest was stored is as good as a first
   * attempt on the store as it was: the same verdict, and the same contents under every key.
   */
  lemma RetryBeforeManifest(
    cfg: Config, store: Store, pub: Publication, stamps: nat -> int, puts: nat, later: int, stamps': nat -> int)
    requires IsUuid(pub.org) && IsUuid(pub.rev)
    requires Prepare(cfg, pub).Ok? ==> puts <= |Prepare(cfg, pub).value|
    ensures var crashed := PublishUntil(cfg, store, pub, stamps, puts);
            var retry := Publish(cfg, crashed, pub.(now := later), stamps');
            var once := Publish(cfg, store, pub.(now := later), stamps);
            && retry.outcome == once.outcome
            && Contents(retry.store) == Contents(once.store)
  {
    hide Extract;
    var prepared := Prepare(cfg, pub);
    if prepared.Ok? && Existing(cfg, store, pub).None? {
      var again := pub.(now := later);
      var files := prepared.value;
      var ws, ws' := Writes(cfg, pub, files), Writes(cfg, again, files);
      var crashed := PublishUntil(cfg, store, pub, stamps, puts);
      PutsAgree(store, ws, ws', stamps, puts);
      PutsKeep(store, ws, stamps, puts);
      NoFileIsManifest(cfg, pub, files, pub.org, pub.rev);
      assert ManifestAddress(cfg, pub.org, pub.rev) !in crashed;
      PutsResume(store, ws', stamps, puts, stamps', |ws'|);
    }
  }

  /** The publication's manifest was stored before it died. */
  ghost predicate DiesAfterManifest(cfg: Config, store: Store, pub: Publication, stamps: nat -> int, puts: nat) {
    && Prepare(cfg, pub).Ok? && puts > |Prepare(cfg, pub).value|
    && Existing(cfg, store, pub).None? && Publish(cfg, store, pub, stamps).outcome.Ok?
  }

  /** When every file put goes through, the manifest does too: nothing is stored under its key. */
  lemma StoppedBeforeManifest(cfg: Config, store: Store, pub: Publication, stamps: nat -> int)
    requires Prepare(cfg, pub).Ok? && Existing(cfg, store, pub).None?
    requires Publish(cfg, store, pub, stamps).outcome.Fault?
    ensures var n := |Prepare(cfg, pub).value|;
            PublishUntil(cfg, store, pub, stamps, n + 1) == PublishUntil(cfg, store, pub, stamps, n)
  {
    hide Extract, DescribeAll;
    var files := Prepare(cfg, pub).value;
    var ws, n := Writes(cfg, pub, files), |files|;
    if PutFirst(store, ws, stamps, n).outcome.Ok? {
      PutsKeep(store, ws, stamps, n);
      NoFileIsManifest(cfg, pub, files, pub.org, pub.rev);
      FilesAreStored(cfg, store, pub, files, stamps);
    }
  }

  /**
   * A retry of a publication that died anywhere is as good as a first attempt on the store as it
   * was, with the same verdict and the same contents under every key; only when the manifest was
   * already stored is it answered with that manifest, and changes nothing.
   */
  lemma RetryIsFirstAttempt(
    cfg: Config, store: Store, pub: Publication, stamps: nat -> int, puts: nat, later: int, stamps': nat -> int)
    requires Consistent(cfg, store)
    ensures var crashed := PublishUntil(cfg, store, pub, stamps, puts);
            var retry := Publish(cfg, crashed, pub.(now := later), stamps');
            var first := Publish(cfg, store, pub, stamps);
            var once := Publish(cfg, store, pub.(now := later), stamps);
            if DiesAfterManifest(cfg, store, pub, stamps, puts) then
              crashed == first.store && retry == Published(first.store, Ok((first.outcome.value.0, false)))
            else retry.outcome == once.outcome && Contents(retry.store) == Contents(once.store)
  {
    hide Extract;
    var n := if Prepare(cfg, pub).Ok? then |Prepare(cfg, pub).value| else 0;
    if DiesAfterManifest(cfg, store, pub, stamps, puts) {
      RepeatIsAnswered(cfg, store, pub, stamps, pub.(now := later), stamps');
    } else if Prepare(cfg, pub).Ok? && puts > n && Existing(cfg, store, pub).None? {
      StoppedBeforeManifest(cfg, store, pub, stamps);
      assert PublishUntil(cfg, store, pub, stamps, puts) == PublishUntil(cfg, store, pub, stamps, n + 1);
      hide PublishUntil, Publish;
      RetryBeforeManifest(cfg, store, pub, stamps, n, later, stamps');
    } else if Prepare(cfg, pub).Ok? && puts <= n {
      hide PublishUntil, Publish;
      RetryBeforeManifest(cfg, store, pub, stamps, puts, later, stamps');
    }
  }
}
