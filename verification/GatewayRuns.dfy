/** What the gateway keeps true over every run of publications, evidence and retention, crashes included. */
module GatewayRuns {
  import opened Faults
  import opened Ordering
  import opened Extraction
  import opened Keys
  import opened ArtifactSpec
  import Text

  // Puts never overwrite

  function Contents(store: Store): map<Address, Content> {
    map a | a in store :: store[a].content
  }

  lemma {:induction false} PutsKeep(store: Store, ws: seq<Write>, stamps: nat -> int, k: nat)
    requires k <= |ws|
    ensures var p := PutFirst(store, ws, stamps, k);
            && (forall a :: a in store ==> a in p.store && p.store[a] == store[a])
            && (forall a :: a in p.store && a !in store ==> exists i :: 0 <= i < k && ws[i].address == a)
  {
    if k > 0 {
      PutsKeep(store, ws, stamps, k - 1);
    }
  }

  lemma {:induction false} PutsStore(store: Store, ws: seq<Write>, stamps: nat -> int, k: nat)
    requires k <= |ws| && PutFirst(store, ws, stamps, k).outcome.Ok?
    ensures forall i :: 0 <= i < k ==>
      && ws[i].address in PutFirst(store, ws, stamps, k).store
      && PutFirst(store, ws, stamps, k).store[ws[i].address].content == ws[i].content
  {
    if k > 0 {
      PutsStore(store, ws, stamps, k - 1);
    }
  }

  /** A put looks at contents only, so times do not matter to it. */
  lemma PutsCompareContents(s: Store, t: Store, w: Write, at: int, at': int)
    requires Contents(s) == Contents(t)
    ensures PutOne(s, w, at).outcome == PutOne(t, w, at').outcome
    ensures Contents(PutOne(s, w, at).store) == Contents(PutOne(t, w, at').store)
  {
    assert w.address in s <==> w.address in Contents(s);
    assert w.address in t <==> w.address in Contents(t);
    if w.address in s {
      assert Contents(s)[w.address] == Contents(t)[w.address];
    } else {
      var s', t' := PutOne(s, w, at).store, PutOne(t, w, at').store;
      assert Contents(s') == Contents(s)[w.address := w.content];
      assert Contents(t') == Contents(t)[w.address := w.content];
    }
  }

  /** A put that was already tried gives its verdict again and changes nothing. */
  lemma PutAgain(store: Store, ws: seq<Write>, stamps: nat -> int, k: nat, n: nat, at: int)
    requires 0 < n <= k <= |ws| && PutFirst(store, ws, stamps, n - 1).outcome.Ok?
    ensures var done, once := PutFirst(store, ws, stamps, k).store, PutFirst(store, ws, stamps, n);
            var again := PutOne(done, ws[n - 1], at);
            && again.store == done
            && (if once.outcome.Ok? then again.outcome.Ok?
                else again.outcome == once.outcome && done == once.store)
  {
    PutsGrow(store, ws, stamps, n, k);
    if PutFirst(store, ws, stamps, n).outcome.Ok? {
      PutsStore(store, ws, stamps, n);
    }
  }

  /**
   * Running a list of puts again after any part of it has been done gives the same contents and
   * the same verdict as running it once.
   */
  lemma {:induction false} PutsResume(
    store: Store, ws: seq<Write>, stamps: nat -> int, k: nat, stamps': nat -> int, n: nat)
    requires k <= |ws| && n <= |ws|
    ensures var done := PutFirst(store, ws, stamps, k).store;
            var again, once := PutFirst(done, ws, stamps', n), PutFirst(store, ws, stamps, n);
            && again.outcome.Ok? == once.outcome.Ok?
            && (again.outcome.Fault? ==> again.outcome == once.outcome)
            && (if n < k && once.outcome.Ok? then again.store == done
                else Contents(again.store) == Contents(once.store))
    decreases n
  {
    var done := PutFirst(store, ws, stamps, k).store;
    if n == 0 {
      assert k == 0 ==> done == store;
    } else {
      PutsResume(store, ws, stamps, k, stamps', n - 1);
      var again, once := PutFirst(done, ws, stamps', n - 1), PutFirst(store, ws, stamps, n - 1);
      if once.outcome.Ok? {
        var w := ws[n - 1];
        if n - 1 < k {
          PutAgain(store, ws, stamps, k, n, stamps'(n - 1));
        } else {
          PutsCompareContents(again.store, once.store, w, stamps'(n - 1), stamps(n - 1));
        }
      }
    }
  }

  /** Later puts of the list keep what the first `n` stored; after a conflict there are none. */
  lemma {:induction false} PutsGrow(store: Store, ws: seq<Write>, stamps: nat -> int, n: nat, k: nat)
    requires n <= k <= |ws|
    ensures var p, q := PutFirst(store, ws, stamps, n), PutFirst(store, ws, stamps, k);
            && (forall a :: a in p.store ==> a in q.store && q.store[a] == p.store[a])
            && (p.outcome.Fault? ==> q == p)
    decreases k
  {
    if n < k {
      PutsGrow(store, ws, stamps, n, k - 1);
    }
  }

  // Published revisions are complete

  ghost predicate Complete(cfg: Config, store: Store, org: string, rev: string, m: Manifest) {
    && m.archive.OfArchive?
    && m.org == org && m.rev == rev
    && var files := Extract(m.archive.archive, cfg.limits);
    && files.Ok?
    && m.files == DescribeAll(files.value)
    && forall i :: 0 <= i < |files.value| ==> Stored(cfg, store, org, rev, files.value[i])
  }

  ghost predicate Stored(cfg: Config, store: Store, org: string, rev: string, f: StaticFile) {
    var a := FileAddress(cfg, org, rev, f.path);
    a in store && store[a].content == Data(f.body)
  }

  ghost predicate Committed(cfg: Config, store: Store, org: string, rev: string) {
    ManifestAddress(cfg, org, rev) in store
  }

  ghost predicate Backed(cfg: Config, store: Store, org: string, rev: string) {
    Committed(cfg, store, org, rev) ==>
      var content := store[ManifestAddress(cfg, org, rev)].content;
      content.ManifestJson? && Complete(cfg, store, org, rev, content.manifest)
  }

  ghost predicate Consistent(cfg: Config, store: Store) {
    forall org, rev :: IsUuid(org) && IsUuid(rev) ==> Backed(cfg, store, org, rev)
  }

  /** The promise in the manifest's own terms: each entry's object has its digest and size. */
  lemma ManifestEntriesAreStored(cfg: Config, store: Store, org: string, rev: string, e: Entry)
    requires Consistent(cfg, store) && IsUuid(org) && IsUuid(rev)
    requires Committed(cfg, store, org, rev)
    requires store[ManifestAddress(cfg, org, rev)].content.ManifestJson?
    requires e in store[ManifestAddress(cfg, org, rev)].content.manifest.files
    ensures var a := FileAddress(cfg, org, rev, e.path);
            && a in store && store[a].content.Data?
            && OfContent(store[a].content) == e.digest
            && |store[a].content.bytes| == e.size
  {
    assert Backed(cfg, store, org, rev);
    var m := store[ManifestAddress(cfg, org, rev)].content.manifest;
    var files := Extract(m.archive.archive, cfg.limits).value;
    var i :| 0 <= i < |m.files| && m.files[i] == e;
    assert Stored(cfg, store, org, rev, files[i]);
  }

  /** File puts commit no manifest and disturb none. */
  lemma FilePutsKeepBacked(
    cfg: Config, store: Store, pub: Publication, files: seq<StaticFile>, stamps: nat -> int, k: nat,
    org: string, rev: string)
    requires IsUuid(pub.org) && IsUuid(pub.rev) && IsUuid(org) && IsUuid(rev)
    requires Backed(cfg, store, org, rev) && k <= |files|
    ensures Backed(cfg, PutFirst(store, Writes(cfg, pub, files), stamps, k).store, org, rev)
    ensures Committed(cfg, PutFirst(store, Writes(cfg, pub, files), stamps, k).store, org, rev)
        <==> Committed(cfg, store, org, rev)
  {
    hide Extract;
    var ws := Writes(cfg, pub, files);
    var after := PutFirst(store, ws, stamps, k).store;
    PutsKeep(store, ws, stamps, k);
    NoFileIsManifest(cfg, pub, files, org, rev);
    BackedGrows(cfg, store, after, org, rev);
  }

  lemma NoFileIsManifest(cfg: Config, pub: Publication, files: seq<StaticFile>, org: string, rev: string)
    requires IsUuid(pub.org) && IsUuid(pub.rev) && IsUuid(org) && IsUuid(rev)
    ensures forall i :: 0 <= i < |files| ==> Writes(cfg, pub, files)[i].address != ManifestAddress(cfg, org, rev)
  {
    forall i | 0 <= i < |files|
      ensures Writes(cfg, pub, files)[i].address != ManifestAddress(cfg, org, rev)
    {
      ManifestIsNoFile(org, rev, pub.org, pub.rev, files[i].path);
    }
  }

  lemma BackedGrows(cfg: Config, store: Store, more: Store, org: string, rev: string)
    requires Backed(cfg, store, org, rev)
    requires forall a :: a in store ==> a in more && more[a] == store[a]
    requires Committed(cfg, more, org, rev) ==> Committed(cfg, store, org, rev)
    ensures Backed(cfg, more, org, rev)
  {
    hide Extract;
    if Committed(cfg, more, org, rev) {
      var m := store[ManifestAddress(cfg, org, rev)].content.manifest;
      var files := Extract(m.archive.archive, cfg.limits).value;
      forall i | 0 <= i < |files| ensures Stored(cfg, more, org, rev, files[i]) {
        assert Stored(cfg, store, org, rev, files[i]);
      }
    }
  }

  /** Once the file puts have all gone through, what remains is the manifest. */
  lemma FilesAreStored(
    cfg: Config, store: Store, pub: Publication, files: seq<StaticFile>, stamps: nat -> int)
    requires PutFirst(store, Writes(cfg, pub, files), stamps, |files|).outcome.Ok?
    ensures var before := PutFirst(store, Writes(cfg, pub, files), stamps, |files|).store;
            && (forall i :: 0 <= i < |files| ==> Stored(cfg, before, pub.org, pub.rev, files[i]))
            && PutFirst(store, Writes(cfg, pub, files), stamps, |files| + 1)
            == PutOne(before, ManifestWrite(cfg, pub, files), stamps(|files|))
  {
    var ws := Writes(cfg, pub, files);
    PutsStore(store, ws, stamps, |files|);
    forall i | 0 <= i < |files|
      ensures Stored(cfg, PutFirst(store, ws, stamps, |files|).store, pub.org, pub.rev, files[i])
    {
      assert ws[i] == FileWrite(cfg, pub, files[i]);
    }
  }

  /** The manifest goes in last, when every file it lists is there. */
  lemma ManifestPutKeepsBacked(
    cfg: Config, store: Store, pub: Publication, files: seq<StaticFile>, stamps: nat -> int, org: string, rev: string)
    requires IsUuid(pub.org) && IsUuid(pub.rev) && IsUuid(org) && IsUuid(rev)
    requires Backed(cfg, store, org, rev)
    requires Extract(pub.archive, cfg.limits) == Ok(files)
    requires !Committed(cfg, store, pub.org, pub.rev)
    ensures Backed(cfg, PutFirst(store, Writes(cfg, pub, files), stamps, |files| + 1).store, org, rev)
  {
    var ws, n := Writes(cfg, pub, files), |files|;
    var before := PutFirst(store, ws, stamps, n);
    FilePutsKeepBacked(cfg, store, pub, files, stamps, n, org, rev);
    FilePutsKeepBacked(cfg, store, pub, files, stamps, n, pub.org, pub.rev);
    if before.outcome.Ok? {
      FilesAreStored(cfg, store, pub, files, stamps);
      ManifestPutBacks(cfg, before.store, pub, files, stamps(n), org, rev);
    }
    hide Backed, Committed, Stored, PutFirst, Extract;
  }

  lemma ManifestPutBacks(
    cfg: Config, store: Store, pub: Publication, files: seq<StaticFile>, at: int, org: string, rev: string)
    requires IsUuid(pub.org) && IsUuid(pub.rev) && IsUuid(org) && IsUuid(rev)
    requires Backed(cfg, store, org, rev)
    requires Extract(pub.archive, cfg.limits) == Ok(files)
    requires !Committed(cfg, store, pub.org, pub.rev)
    requires forall i :: 0 <= i < |files| ==> Stored(cfg, store, pub.org, pub.rev, files[i])
    ensures Backed(cfg, PutOne(store, ManifestWrite(cfg, pub, files), at).store, org, rev)
  {
    hide Extract, DescribeAll;
    var after := PutOne(store, ManifestWrite(cfg, pub, files), at).store;
    if org == pub.org && rev == pub.rev {
      forall i | 0 <= i < |files| ensures Stored(cfg, after, org, rev, files[i]) {
        assert Stored(cfg, store, org, rev, files[i]);
      }
    } else {
      if ManifestKey(org, rev) == ManifestKey(pub.org, pub.rev) {
        ManifestKeyInjective(org, rev, pub.org, pub.rev);
      }
      BackedGrows(cfg, store, after, org, rev);
    }
  }

  /** A publication that goes through commits its manifest. */
  lemma ManifestIsCommitted(
    cfg: Config, store: Store, pub: Publication, files: seq<StaticFile>, stamps: nat -> int)
    requires IsUuid(pub.org) && IsUuid(pub.rev) && !Committed(cfg, store, pub.org, pub.rev)
    requires PutFirst(store, Writes(cfg, pub, files), stamps, |files| + 1).outcome.Ok?
    ensures var after := PutFirst(store, Writes(cfg, pub, files), stamps, |files| + 1).store;
            && Committed(cfg, after, pub.org, pub.rev)
            && after[ManifestAddress(cfg, pub.org, pub.rev)].content == ManifestJson(ManifestOf(pub, files))
  {
    hide DescribeAll;
    var ws, n := Writes(cfg, pub, files), |files|;
    PutsKeep(store, ws, stamps, n);
    NoFileIsManifest(cfg, pub, files, pub.org, pub.rev);
    FilesAreStored(cfg, store, pub, files, stamps);
  }

  // Runs

  /**
   * One event of a run. A publication makes at most `puts` of its puts before the process dies;
   * an unfinished reconciliation has deleted the revisions in `done` and written no receipt.
   */
  datatype Event =
    | Publishing(pub: Publication, stamps: nat -> int, puts: nat)
    | Evidencing(evidence: Evidence, at: int)
    | Reconciling(retention: Retention, now: int, at: int, finished: bool, done: set<string>)

  ghost function Apply(cfg: Config, store: Store, e: Event): Store {
    match e
    case Publishing(pub, stamps, puts) => PublishUntil(cfg, store, pub, stamps, puts)
    case Evidencing(evidence, at) => PutEvidence(cfg, store, evidence, at).store
    case Reconciling(r, now, at, finished, done) =>
      if finished then Reconcile(cfg, store, r, now, at).store
      else if Reaches(cfg, store, r, now) then Swept(cfg, store, r.org, ExpiredRevisions(cfg, store, r) * done)
      else store
  }

  ghost function Run(cfg: Config, store: Store, events: seq<Event>): Store
    decreases |events|
  {
    if events == [] then store else Run(cfg, Apply(cfg, store, events[0]), events[1..])
  }

  /** Only a reconciliation takes anything away; no event changes an object in place. */
  lemma NothingIsOverwritten(cfg: Config, store: Store, e: Event, a: Address)
    requires a in store && (e.Reconciling? ==> a in Apply(cfg, store, e))
    ensures a in Apply(cfg, store, e) && Apply(cfg, store, e)[a] == store[a]
  {
    hide PublishUntil, PutEvidence, Swept, ExpiredRevisions;
    match e
    case Publishing(pub, stamps, puts) => PublishAdds(cfg, store, pub, stamps, puts);
    case Evidencing(evidence, at) => EvidenceAdds(cfg, store, evidence, at);
    case Reconciling(r, now, at, finished, done) =>
      if Reaches(cfg, store, r, now) {
        SweepLeaves(cfg, store, r.org, ExpiredRevisions(cfg, store, r));
        SweepLeaves(cfg, store, r.org, ExpiredRevisions(cfg, store, r) * done);
      }
  }

  lemma EvidenceAdds(cfg: Config, store: Store, e: Evidence, at: int)
    ensures forall a :: a in store ==>
      a in PutEvidence(cfg, store, e, at).store && PutEvidence(cfg, store, e, at).store[a] == store[a]
  {
    hide EvidenceName, EvidenceKey;
  }

  lemma SweepLeaves(cfg: Config, store: Store, org: string, revs: set<string>)
    ensures forall a :: a in Swept(cfg, store, org, revs) ==>
      a in store && Swept(cfg, store, org, revs)[a] == store[a]
  {}

  lemma PublishAdds(cfg: Config, store: Store, pub: Publication, stamps: nat -> int, puts: nat)
    ensures forall a :: a in store ==>
      a in PublishUntil(cfg, store, pub, stamps, puts)
      && PublishUntil(cfg, store, pub, stamps, puts)[a] == store[a]
  {
    hide Extract, Writes;
    var files := Prepare(cfg, pub);
    if files.Ok? {
      var ws := Writes(cfg, pub, files.value);
      PutsKeep(store, ws, stamps, if puts < |ws| then puts else |ws|);
    }
  }

  /** Puts that agree as far as they go have the same effect. */
  lemma {:induction false} PutsAgree(store: Store, ws: seq<Write>, ws': seq<Write>, stamps: nat -> int, k: nat)
    requires k <= |ws| && k <= |ws'| && forall i :: 0 <= i < k ==> ws[i] == ws'[i]
    ensures PutFirst(store, ws, stamps, k) == PutFirst(store, ws', stamps, k)
  {
    if k > 0 {
      PutsAgree(store, ws, ws', stamps, k - 1);
    }
  }

  lemma PublishKeepsBacked(
    cfg: Config, store: Store, pub: Publication, stamps: nat -> int, puts: nat, org: string, rev: string)
    requires Backed(cfg, store, org, rev) && IsUuid(org) && IsUuid(rev)
    ensures Backed(cfg, PublishUntil(cfg, store, pub, stamps, puts), org, rev)
  {
    hide Extract;
    var files := Prepare(cfg, pub);
    if files.Ok? && Existing(cfg, store, pub).None? {
      if puts <= |files.value| {
        FilePutsKeepBacked(cfg, store, pub, files.value, stamps, puts, org, rev);
      } else {
        ManifestPutKeepsBacked(cfg, store, pub, files.value, stamps, org, rev);
      }
    }
  }

  /** An object outside every revision neither is a manifest nor disturbs one. */
  lemma OutsidePutKeepsBacked(cfg: Config, store: Store, address: Address, value: Object, org: string, rev: string)
    requires Backed(cfg, store, org, rev) && IsUuid(org) && IsUuid(rev) && address !in store
    requires !Text.StartsWith(address.key, RevisionsPrefix(org))
    ensures Backed(cfg, store[address := value], org, rev)
  {
    RevisionOfKey(org, rev, "manifest.json");
    BackedGrows(cfg, store, store[address := value], org, rev);
  }

  /** Evidence never lands on a manifest or a file. */
  lemma EvidenceKeepsBacked(cfg: Config, store: Store, e: Evidence, at: int, org: string, rev: string)
    requires Backed(cfg, store, org, rev) && IsUuid(org) && IsUuid(rev)
    ensures Backed(cfg, PutEvidence(cfg, store, e, at).store, org, rev)
  {
    hide EvidenceName, EvidenceKey, Backed;
    var w := EvidenceWrite(cfg, e);
    if PutEvidence(cfg, store, e, at).store != store {
      EvidenceOutside(e.org, e.build, e.name, org);
      OutsidePutKeepsBacked(cfg, store, w.address, Object(w.content, w.contentType, at), org, rev);
    }
  }

  /** A revision's manifest and files share their fate: a sweep takes all of them or none. */
  lemma SweepIsWhole(
      cfg: Config, store: Store, org: string, revs: set<string>, org': string, rev': string, rest: string)
    requires IsUuid(org) && IsUuid(org') && IsUuid(rev')
    ensures var a := Address(cfg.staticBucket, RevisionPrefix(org', rev') + rest);
            a in store ==> (a in Doomed(cfg, store, org, revs) <==> org' == org && rev' in revs)
  {
    RevisionOfKey(org', rev', rest);
    if org' != org {
      ForeignKey(org', rev', rest, org);
    }
  }

  lemma SweepKeepsBacked(
    cfg: Config, store: Store, org: string, revs: set<string>, org': string, rev': string)
    requires Backed(cfg, store, org', rev') && IsUuid(org) && IsUuid(org') && IsUuid(rev')
    ensures Backed(cfg, Swept(cfg, store, org, revs), org', rev')
  {
    hide Extract;
    var after := Swept(cfg, store, org, revs);
    if Committed(cfg, after, org', rev') {
      var m := store[ManifestAddress(cfg, org', rev')].content.manifest;
      var files := Extract(m.archive.archive, cfg.limits).value;
      SweepIsWhole(cfg, store, org, revs, org', rev', "manifest.json");
      forall i | 0 <= i < |files| ensures Stored(cfg, after, org', rev', files[i]) {
        assert Stored(cfg, store, org', rev', files[i]);
        SweepIsWhole(cfg, store, org, revs, org', rev', "files/" + files[i].path);
      }
    }
  }

  lemma ReconcileKeepsBacked(cfg: Config, store: Store, r: Retention, now: int, at: int, org: string, rev: string)
    requires Backed(cfg, store, org, rev) && IsUuid(org) && IsUuid(rev)
    ensures Backed(cfg, Reconcile(cfg, store, r, now, at).store, org, rev)
  {
    if Reaches(cfg, store, r, now) {
      var revs := ExpiredRevisions(cfg, store, r);
      SweepKeepsBacked(cfg, store, r.org, revs, org, rev);
      EvidenceOutside(r.org, r.id, "", org);
      var receipt := Receipt(CheckRetention(r, now).value, Seconds(now), Listed(revs));
      OutsidePutKeepsBacked(
        cfg, Swept(cfg, store, r.org, revs), ReceiptAddress(cfg, r), ReceiptObject(receipt, at), org, rev);
    }
    hide Backed, Swept, ExpiredRevisions, CheckRetention;
  }

  /** No event takes a file from under a stored manifest, whatever the rest of the store is like. */
  lemma EventKeepsBacked(cfg: Config, store: Store, e: Event, org: string, rev: string)
    requires Backed(cfg, store, org, rev) && IsUuid(org) && IsUuid(rev)
    ensures Backed(cfg, Apply(cfg, store, e), org, rev)
  {
    hide Backed, PublishUntil, PutEvidence, Swept, ExpiredRevisions, Reconcile;
    match e
    case Publishing(pub, stamps, puts) => PublishKeepsBacked(cfg, store, pub, stamps, puts, org, rev);
    case Evidencing(evidence, at) => EvidenceKeepsBacked(cfg, store, evidence, at, org, rev);
    case Reconciling(r, now, at, finished, done) =>
      if finished {
        ReconcileKeepsBacked(cfg, store, r, now, at, org, rev);
      } else if Reaches(cfg, store, r, now) {
        SweepKeepsBacked(cfg, store, r.org, ExpiredRevisions(cfg, store, r) * done, org, rev);
      }
  }

  lemma EventKeepsConsistent(cfg: Config, store: Store, e: Event)
    requires Consistent(cfg, store)
    ensures Consistent(cfg, Apply(cfg, store, e))
  {
    hide Backed, Apply;
    forall org, rev | IsUuid(org) && IsUuid(rev) ensures Backed(cfg, Apply(cfg, store, e), org, rev) {
      EventKeepsBacked(cfg, store, e, org, rev);
    }
  }

  /** In every state of every run, each stored manifest has all of its files. */
  lemma {:induction false} RunsAreConsistent(cfg: Config, store: Store, events: seq<Event>)
    requires Consistent(cfg, store)
    ensures Consistent(cfg, Run(cfg, store, events))
    decreases |events|
  {
    if events != [] {
      EventKeepsConsistent(cfg, store, events[0]);
      RunsAreConsistent(cfg, Apply(cfg, store, events[0]), events[1..]);
    }
  }

  /** A store without revisions starts out consistent. */
  lemma EmptyIsConsistent(cfg: Config)
    ensures Consistent(cfg, map[])
  {}
}
