/** Which requests the artifact gateway accepts, said of the requests and the store themselves. */
module GatewayVerdicts {
  import opened Faults
  import opened Ordering
  import opened Extraction
  import opened Keys
  import opened ArtifactSpec
  import opened GatewayRuns
  import opened PathSpellings
  import Paths

  // Lists of puts

  ghost predicate DistinctAddresses(ws: seq<Write>) {
    forall i, j :: 0 <= i < j < |ws| ==> ws[i].address != ws[j].address
  }

  /** The address is free or already holds the content. */
  predicate Free(store: Store, a: Address, content: Content) {
    a in store ==> store[a].content == content
  }

  /** Puts to different addresses go through exactly when none finds another body. */
  lemma {:induction false} PutsGoThroughExactly(store: Store, ws: seq<Write>, stamps: nat -> int, k: nat)
    requires k <= |ws| && DistinctAddresses(ws)
    ensures PutFirst(store, ws, stamps, k).outcome.Ok? <==>
            forall i :: 0 <= i < k ==> Free(store, ws[i].address, ws[i].content)
  {
    if k > 0 {
      PutsGoThroughExactly(store, ws, stamps, k - 1);
      PutsKeep(store, ws, stamps, k - 1);
    }
  }

  lemma WritesAreDistinct(cfg: Config, pub: Publication, files: seq<StaticFile>)
    requires IsUuid(pub.org) && IsUuid(pub.rev) && DistinctKeys(files, PathOf)
    ensures DistinctAddresses(Writes(cfg, pub, files))
  {
    var ws := Writes(cfg, pub, files);
    hide DescribeAll, IsUuid, Paths.MediaType;
    forall i, j | 0 <= i < j < |ws| ensures ws[i].address != ws[j].address {
      if j == |files| {
        ManifestIsNoFile(pub.org, pub.rev, pub.org, pub.rev, files[i].path);
      } else {
        assert PathOf(files[i]) != PathOf(files[j]);
        if FileKey(pub.org, pub.rev, files[i].path) == FileKey(pub.org, pub.rev, files[j].path) {
          FileKeyInjective(pub.org, pub.rev, files[i].path, pub.org, pub.rev, files[j].path);
        }
      }
    }
  }

  // Publishing

  /** The request itself is in order: ids, digest, size and members. */
  ghost predicate Publishable(cfg: Config, pub: Publication) {
    && IsUuid(pub.org) && IsUuid(pub.rev)
    && pub.expected == OfArchive(pub.archive)
    && 0 < |pub.archive.raw| <= cfg.limits.archiveBytes
    && pub.archive.members.Some? && Accepted(pub.archive.members.value, cfg.limits)
  }

  /** Every file of the archive finds its key free or holding that file. */
  ghost predicate FilesFree(cfg: Config, store: Store, pub: Publication)
    requires pub.archive.members.Some?
  {
    forall f :: f in FilesOf(pub.archive.members.value) ==>
      Free(store, FileAddress(cfg, pub.org, pub.rev, f.path), Data(f.body))
  }

  /** The revision is committed from the same archive, or not at all and no file is in the way. */
  ghost predicate Unopposed(cfg: Config, store: Store, pub: Publication)
    requires pub.archive.members.Some?
  {
    var a := ManifestAddress(cfg, pub.org, pub.rev);
    if a in store then
      store[a].content.ManifestJson? && store[a].content.manifest.archive == OfArchive(pub.archive)
    else FilesFree(cfg, store, pub)
  }

  lemma PreparedExactly(cfg: Config, pub: Publication)
    ensures Prepare(cfg, pub).Ok? <==> Publishable(cfg, pub)
    ensures Prepare(cfg, pub).Ok? ==>
      && DistinctKeys(Prepare(cfg, pub).value, PathOf)
      && forall f :: f in Prepare(cfg, pub).value <==> f in FilesOf(pub.archive.members.value)
  {
    ExtractExact(pub.archive, cfg.limits);
    hide Extract, Accepted, FilesOf, DistinctKeys, StrictlySorted;
    if Prepare(cfg, pub).Ok? {
      var files, all := Prepare(cfg, pub).value, FilesOf(pub.archive.members.value);
      AcceptedIsDistinct(pub.archive.members.value, cfg.limits);
      DistinctPermuted(all, files, PathOf);
      forall f ensures f in files <==> f in all {
        SameElement(files, all, f);
      }
    }
  }

  lemma AcceptedIsDistinct(members: seq<Member>, limits: Limits)
    requires Accepted(members, limits)
    ensures DistinctKeys(FilesOf(members), PathOf)
  {
  }

  /**
   * A publication succeeds exactly when the request is in order and nothing stored opposes it: in
   * particular only with the archive's own digest.
   */
  lemma PublishSucceedsExactly(cfg: Config, store: Store, pub: Publication, stamps: nat -> int)
    ensures Publish(cfg, store, pub, stamps).outcome.Ok? <==>
            Publishable(cfg, pub) && Unopposed(cfg, store, pub)
  {
    PreparedExactly(cfg, pub);
    if Publishable(cfg, pub) && Existing(cfg, store, pub).None? {
      var files := Prepare(cfg, pub).value;
      var ws := Writes(cfg, pub, files);
      WritesAreDistinct(cfg, pub, files);
      PutsGoThroughExactly(store, ws, stamps, |ws|);
      WritesAreFreeExactly(cfg, store, pub, files);
    }
    hide Prepare, Accepted, Writes, PutFirst, FilesFree, DistinctKeys, DistinctAddresses, Free;
  }

  lemma WritesAreFreeExactly(cfg: Config, store: Store, pub: Publication, files: seq<StaticFile>)
    requires pub.archive.members.Some? && ManifestAddress(cfg, pub.org, pub.rev) !in store
    requires forall f :: f in files <==> f in FilesOf(pub.archive.members.value)
    ensures var ws := Writes(cfg, pub, files);
            (forall i :: 0 <= i < |ws| ==> Free(store, ws[i].address, ws[i].content)) <==> FilesFree(cfg, store, pub)
  {
    hide FilesOf, FileKey, ManifestKey, DescribeAll, Paths.MediaType;
    var ws := Writes(cfg, pub, files);
    forall i | 0 <= i < |files| ensures ws[i] == FileWrite(cfg, pub, files[i]) && files[i] in files {
    }
    assert ws[|files|] == ManifestWrite(cfg, pub, files);
    if forall i :: 0 <= i < |ws| ==> Free(store, ws[i].address, ws[i].content) {
      forall f | f in files ensures Free(store, FileAddress(cfg, pub.org, pub.rev, f.path), Data(f.body)) {
        var i :| 0 <= i < |files| && files[i] == f;
        assert Free(store, ws[i].address, ws[i].content);
      }
    }
  }

  /** A request that is not in order stores nothing, however far it is let run. */
  lemma RefusedPublishStoresNothing(cfg: Config, store: Store, pub: Publication, stamps: nat -> int, puts: nat)
    requires !Publishable(cfg, pub)
    ensures Publish(cfg, store, pub, stamps).store == store
    ensures PublishUntil(cfg, store, pub, stamps, puts) == store
  {
    PreparedExactly(cfg, pub);
    hide Prepare, Accepted;
  }

  /** Why a request that is not in order is refused: the first thing wrong with it. */
  lemma RefusedPublishSaysWhy(cfg: Config, store: Store, pub: Publication, stamps: nat -> int)
    requires !Publishable(cfg, pub)
    ensures var outcome := Publish(cfg, store, pub, stamps).outcome;
            && outcome.Fault?
            && (if !IsUuid(pub.org) || !IsUuid(pub.rev) then outcome == Fault("artifact_identity_invalid", 422)
                else if pub.expected != OfArchive(pub.archive) then outcome == Fault("artifact_digest_mismatch", 422)
                else if !(0 < |pub.archive.raw| <= cfg.limits.archiveBytes) then
                  outcome == Fault("archive_size_invalid", 413)
                else pub.archive.members.None? ==> outcome == Fault("archive_invalid", 422))
  {
    PreparedExactly(cfg, pub);
    hide Accepted, TakeAll;
  }

  /** The publication is new, and this is its manifest. */
  ghost predicate Publishes(
    cfg: Config, store: Store, pub: Publication, stamps: nat -> int, after: Store, m: Manifest)
  {
    Publish(cfg, store, pub, stamps) == Published(after, Ok((m, true)))
  }

  /** What a new manifest says of the whole. */
  lemma NewManifestSays(
      cfg: Config, store: Store, pub: Publication, stamps: nat -> int, after: Store, m: Manifest)
    requires Publishes(cfg, store, pub, stamps, after, m)
    ensures m.org == pub.org && m.rev == pub.rev && m.createdAt == pub.now / 1_000_000
    ensures m.archive == OfArchive(pub.archive) && m.archiveSize == |pub.archive.raw|
    ensures Prepare(cfg, pub).Ok? && m.files == DescribeAll(Prepare(cfg, pub).value)
  {
    hide Prepare, PutFirst, DescribeAll, Writes;
  }

  /** What a new manifest says, entry by entry. */
  lemma NewManifestLists(
      cfg: Config, store: Store, pub: Publication, stamps: nat -> int, after: Store, m: Manifest, e: Entry)
    requires Publishes(cfg, store, pub, stamps, after, m)
    ensures pub.archive.members.Some?
    ensures e in m.files <==>
            exists f :: f in FilesOf(pub.archive.members.value)
              && e == Entry(f.path, OfContent(Data(f.body)), Paths.MediaType(f.path), |f.body|,
                            Paths.CacheControl(f.path))
  {
    NewManifestSays(cfg, store, pub, stamps, after, m);
    PreparedExactly(cfg, pub);
    var files := Prepare(cfg, pub).value;
    hide Publishes, Prepare, Accepted, FilesOf, Paths.MediaType, Paths.CacheControl, DistinctKeys;
    forall i | 0 <= i < |files| ensures m.files[i] == Describe(files[i]) && files[i] in files {
    }
    if f :| f in files && e == Describe(f) {
      var i :| 0 <= i < |files| && files[i] == f;
      assert m.files[i] == e;
    }
  }

  /** The entries come in strictly increasing order of their paths. */
  lemma NewManifestIsSorted(
      cfg: Config, store: Store, pub: Publication, stamps: nat -> int, after: Store, m: Manifest, i: nat, j: nat)
    requires Publishes(cfg, store, pub, stamps, after, m) && i < j < |m.files|
    ensures Less(m.files[i].path, m.files[j].path)
  {
    NewManifestSays(cfg, store, pub, stamps, after, m);
    ExtractExact(pub.archive, cfg.limits);
    assert Prepare(cfg, pub) == Extract(pub.archive, cfg.limits);
    var files := Prepare(cfg, pub).value;
    hide Publishes, Prepare, Extract, Accepted, FilesOf, Paths.MediaType, Paths.CacheControl;
    assert PathOf(files[i]) == m.files[i].path && PathOf(files[j]) == m.files[j].path;
  }

  // What a publication adds

  lemma {:induction false} PutsAddOnly(store: Store, ws: seq<Write>, stamps: nat -> int, k: nat, a: Address)
    requires k <= |ws| && a !in store && a in PutFirst(store, ws, stamps, k).store
    ensures var o := PutFirst(store, ws, stamps, k).store[a];
            exists i :: 0 <= i < k && ws[i].address == a && o == Object(ws[i].content, ws[i].contentType, stamps(i))
  {
    if k > 0 && a in PutFirst(store, ws, stamps, k - 1).store {
      PutsAddOnly(store, ws, stamps, k - 1, a);
    }
  }

  function StoredAt(cfg: Config, org: string, rev: string, p: string): Address {
    Address(cfg.staticBucket, "organizations/" + org + "/revisions/" + rev + "/files/" + p)
  }

  function ListedAt(cfg: Config, org: string, rev: string): Address {
    Address(cfg.staticBucket, "organizations/" + org + "/revisions/" + rev + "/manifest.json")
  }

  lemma FileKeyText(org: string, rev: string, path: string)
    ensures FileKey(org, rev, path) == "organizations/" + org + "/revisions/" + rev + "/files/" + path
    ensures ManifestKey(org, rev) == "organizations/" + org + "/revisions/" + rev + "/manifest.json"
  {
    assert "/" + ("files/" + path) == "/files/" + path;
    assert rev + "/" + "manifest.json" == rev + "/manifest.json";
  }

  /** The object is a file of the archive, under its own path. */
  ghost predicate HoldsFile(cfg: Config, pub: Publication, a: Address, o: Object)
    requires pub.archive.members.Some?
  {
    exists f :: f in FilesOf(pub.archive.members.value) && a == StoredAt(cfg, pub.org, pub.rev, f.path)
                && o.content == Data(f.body) && o.contentType == Paths.MediaType(f.path)
  }

  /** However far a publication is let run, all that it adds are the archive's files and its manifest. */
  lemma PublishAddsOnly(cfg: Config, store: Store, pub: Publication, stamps: nat -> int, puts: nat, a: Address)
    requires a !in store && a in PublishUntil(cfg, store, pub, stamps, puts)
    ensures Publishable(cfg, pub)
    ensures var o := PublishUntil(cfg, store, pub, stamps, puts)[a];
            || HoldsFile(cfg, pub, a, o)
            || (a == ListedAt(cfg, pub.org, pub.rev) && o.contentType == "application/json"
                && o.content.ManifestJson? && o.content.manifest.archive == OfArchive(pub.archive))
  {
    PreparedExactly(cfg, pub);
    hide Prepare, Accepted, FilesOf, PutFirst, DistinctKeys, Paths.MediaType, FileKey, ManifestKey, DescribeAll;
    var files := Prepare(cfg, pub).value;
    var ws := Writes(cfg, pub, files);
    var k := if puts < |ws| then puts else |ws|;
    PutsAddOnly(store, ws, stamps, k, a);
    var i :| 0 <= i < k && ws[i].address == a
             && PutFirst(store, ws, stamps, k).store[a] == Object(ws[i].content, ws[i].contentType, stamps(i));
    if i < |files| {
      assert ws[i] == FileWrite(cfg, pub, files[i]) && files[i] in files;
      FileKeyText(pub.org, pub.rev, files[i].path);
    } else {
      assert ws[i] == ManifestWrite(cfg, pub, files);
      FileKeyText(pub.org, pub.rev, "");
    }
  }

  // Serving

  /** Under every spelling of a canonical path a file is served just when it is stored, and as stored. */
  lemma ServesExactly(cfg: Config, store: Store, org: string, rev: string, spelling: string, p: string)
    requires Paths.Canonical(p) && Spells(spelling, p)
    ensures var a := StoredAt(cfg, org, rev, p);
            ReadFile(cfg, store, org, rev, spelling) ==
            if !IsUuid(org) || !IsUuid(rev) then Fault("artifact_identity_invalid", 422)
            else if a !in store then Fault("artifact_not_found", 404)
            else Ok(Served(p, store[a].content, OfContent(store[a].content),
                           Paths.MediaType(p), Paths.CacheControl(p)))
  {
    SpellingsExactly(spelling, p);
    FileKeyText(org, rev, p);
    hide Paths.CheckPath, Paths.Canonical, Spells, FileKey, Paths.MediaType, Paths.CacheControl, IsUuid;
  }

  /** Any other text is no path, and is told so. */
  lemma ServesNothingElse(cfg: Config, store: Store, org: string, rev: string, text: string)
    requires forall p :: Paths.Canonical(p) ==> !Spells(text, p)
    ensures ReadFile(cfg, store, org, rev, text)
            == if !IsUuid(org) || !IsUuid(rev) then Fault("artifact_identity_invalid", 422)
               else Fault("artifact_path_invalid", 422)
  {
    if Paths.CheckPath(text, false).Ok? {
      SpellingsExactly(text, Paths.CheckPath(text, false).value);
    }
    hide Spells, Paths.Canonical, IsUuid, Paths.MediaType, Paths.CacheControl;
  }

  // Evidence

  /** A lower-case letter and up to 47 letters, digits, '_' or '-', before one of three extensions. */
  ghost predicate NamesEvidence(name: string) {
    exists stem, extension :: NamedAs(name, stem, extension)
  }

  predicate NamedAs(name: string, stem: string, extension: string) {
    && name == stem + extension && (extension == ".json" || extension == ".txt" || extension == ".log")
    && 1 <= |stem| <= 48 && 'a' <= stem[0] <= 'z'
    && forall i :: 0 <= i < |stem| ==>
         'a' <= stem[i] <= 'z' || (i > 0 && ('0' <= stem[i] <= '9' || stem[i] == '_' || stem[i] == '-'))
  }

  lemma EvidenceNamesExactly(name: string)
    ensures EvidenceName(name) <==> NamesEvidence(name)
  {
    if EvidenceName(name) {
      var n :| 1 <= n <= 48 && n <= |name| && name[n..] in {".json", ".txt", ".log"}
               && LowerLetter(name[0])
               && forall i :: 1 <= i < n ==>
                    LowerLetter(name[i]) || '0' <= name[i] <= '9' || name[i] == '_' || name[i] == '-';
      var stem := name[..n];
      assert name == stem + name[n..];
      forall i | 0 <= i < n ensures stem[i] == name[i] {
      }
      assert NamedAs(name, stem, name[n..]);
    } else if NamesEvidence(name) {
      var stem, extension :| NamedAs(name, stem, extension);
      NamedIsName(name, stem, extension);
    }
  }

  lemma NamedIsName(name: string, stem: string, extension: string)
    requires NamedAs(name, stem, extension)
    ensures EvidenceName(name)
  {
    var n := |stem|;
    assert name[n..] == extension;
    forall i | 0 <= i < n ensures name[i] == stem[i] {
    }
    assert LowerLetter(name[0]);
    assert name[n..] in {".json", ".txt", ".log"};
  }

  predicate EndsInJson(name: string) {
    |name| >= 5 && name[|name| - 5..] == ".json"
  }

  function EvidenceAt(cfg: Config, org: string, build: string, name: string): Address {
    Address(cfg.evidenceBucket, "organizations/" + org + "/builds/" + build + "/" + name)
  }

  lemma EvidenceAddress(cfg: Config, org: string, build: string, name: string)
    ensures Address(cfg.evidenceBucket, EvidenceKey(org, build, name)) == EvidenceAt(cfg, org, build, name)
  {
    assert "organizations/" + org + ("/builds/" + build + "/" + name)
        == "organizations/" + org + "/builds/" + build + "/" + name;
  }

  /** The request itself is in order: ids, name, size, form and digest. */
  ghost predicate Storable(cfg: Config, e: Evidence) {
    && IsUuid(e.org) && IsUuid(e.build) && NamesEvidence(e.name)
    && 0 < |e.body| <= cfg.limits.evidenceBytes
    && (EndsInJson(e.name) ==> e.parses)
    && e.expected == OfContent(Data(e.body))
  }

  /** Evidence is taken just when the request is in order and its place is free or holds it already. */
  lemma EvidenceIsStoredExactly(cfg: Config, store: Store, e: Evidence, at: int)
    ensures var put, a := PutEvidence(cfg, store, e, at), EvidenceAt(cfg, e.org, e.build, e.name);
            && (put.outcome.Ok? <==> Storable(cfg, e) && Free(store, a, Data(e.body)))
            && (put.outcome.Ok? ==> put.outcome.value == (a !in store))
            && put.store == if put.outcome.Ok? && a !in store
                            then store[a := Object(Data(e.body), Paths.MediaType(e.name), at)] else store
  {
    EvidenceNamesExactly(e.name);
    EvidenceAddress(cfg, e.org, e.build, e.name);
    hide EvidenceName, NamesEvidence, IsUuid, Paths.MediaType;
  }

  lemma EvidenceKeyInjective(org: string, build: string, name: string, org': string, build': string, name': string)
    requires IsUuid(org) && IsUuid(build) && IsUuid(org') && IsUuid(build')
    requires EvidenceKey(org, build, name) == EvidenceKey(org', build', name')
    ensures org == org' && build == build' && name == name'
  {
    var tail, tail' := "/builds/" + build + "/" + name, "/builds/" + build' + "/" + name';
    OrganizationOfKey(org, tail);
    OrganizationOfKey(org', tail');
    assert tail == tail';
    assert tail[8..44] == build && tail[45..] == name;
    assert tail'[8..44] == build' && tail'[45..] == name';
  }

  /** Nothing takes evidence away: it lies outside what a reconciliation deletes. */
  lemma EventKeepsEvidence(cfg: Config, store: Store, e: Event, org: string, build: string, name: string)
    requires IsUuid(org) && Address(cfg.evidenceBucket, EvidenceKey(org, build, name)) in store
    ensures var a := Address(cfg.evidenceBucket, EvidenceKey(org, build, name));
            a in Apply(cfg, store, e) && Apply(cfg, store, e)[a] == store[a]
  {
    var a := Address(cfg.evidenceBucket, EvidenceKey(org, build, name));
    if e.Reconciling? && Reaches(cfg, store, e.retention, e.now) {
      EvidenceOutside(org, build, name, e.retention.org);
      forall revs: set<string> ensures a in Swept(cfg, store, e.retention.org, revs) {
      }
    }
    NothingIsOverwritten(cfg, store, e, a);
    hide Swept, ExpiredRevisions;
  }

  /** Evidence that has been taken is read back as it was sent, after any run whatever. */
  lemma {:induction false} EvidenceIsReadBack(cfg: Config, store: Store, e: Evidence, at: int, events: seq<Event>)
    requires PutEvidence(cfg, store, e, at).outcome.Ok?
    ensures ReadEvidence(cfg, Run(cfg, PutEvidence(cfg, store, e, at).store, events), e.org, e.build, e.name)
            == Ok(Data(e.body))
  {
    var after := PutEvidence(cfg, store, e, at).store;
    var a := Address(cfg.evidenceBucket, EvidenceKey(e.org, e.build, e.name));
    hide EvidenceName, EvidenceKey, Paths.MediaType, IsUuid, Run;
    assert a in after && after[a].content == Data(e.body);
    assert IsUuid(e.org) && IsUuid(e.build) && EvidenceName(e.name);
    hide PutEvidence;
    EvidenceStays(cfg, after, events, e.org, e.build, e.name);
  }

  lemma {:induction false} EvidenceStays(
      cfg: Config, store: Store, events: seq<Event>, org: string, build: string, name: string)
    requires IsUuid(org) && Address(cfg.evidenceBucket, EvidenceKey(org, build, name)) in store
    ensures var a := Address(cfg.evidenceBucket, EvidenceKey(org, build, name));
            a in Run(cfg, store, events) && Run(cfg, store, events)[a] == store[a]
    decreases |events|
  {
    hide Apply, EvidenceKey;
    if events != [] {
      EventKeepsEvidence(cfg, store, events[0], org, build, name);
      EvidenceStays(cfg, Apply(cfg, store, events[0]), events[1..], org, build, name);
    }
  }

  // Retention

  /** The request itself is in order: ids, at most a thousand revisions each way, apart, and a past cutoff. */
  ghost predicate Reconcilable(r: Retention, now: int) {
    var retained, candidates := (set x | x in r.retain), (set x | x in r.candidates);
    && IsUuid(r.id) && IsUuid(r.org)
    && (forall x :: x in r.retain || x in r.candidates ==> IsUuid(x))
    && |retained| <= 1000 && |candidates| <= 1000
    && (forall x :: !(x in r.retain && x in r.candidates))
    && r.before.Some? && r.before.value <= now
  }

  function ReceiptAt(cfg: Config, r: Retention): Address {
    Address(cfg.evidenceBucket, "organizations/" + r.org + "/retention/" + r.id + ".json")
  }

  /** The receipt under the request's id, if there is one, is of the same request to the second. */
  ghost predicate SameRequest(cfg: Config, store: Store, r: Retention)
    requires r.before.Some?
  {
    var a := ReceiptAt(cfg, r);
    a in store ==>
      && store[a].content.ReceiptJson?
      && var q := store[a].content.receipt.request;
         && q.id == r.id && q.org == r.org && q.before == r.before.value / 1_000_000
         && (forall x :: x in q.retained <==> x in r.retain)
         && (forall x :: x in q.candidates <==> x in r.candidates)
  }

  lemma ChecksRetentionExactly(r: Retention, now: int)
    ensures CheckRetention(r, now).Ok? <==> Reconcilable(r, now)
    ensures CheckRetention(r, now).Ok? ==>
      CheckRetention(r, now).value
      == RetentionDoc(r.id, r.org, (set x | x in r.retain), (set x | x in r.candidates), r.before.value / 1_000_000)
  {
    assert Elements(r.retain) == set x | x in r.retain;
    assert Elements(r.candidates) == set x | x in r.candidates;
    assert Elements(r.retain) * Elements(r.candidates) == {} <==> forall x :: !(x in r.retain && x in r.candidates) by {
      if x :| x in r.retain && x in r.candidates {
        assert x in Elements(r.retain) * Elements(r.candidates);
      }
    }
    hide IsUuid;
  }

  /**
   * A reconciliation goes through just when the request is in order and its id has not been used
   * for another; one that does not leaves the store as it was, and so does a repeated one.
   */
  lemma ReconcilesExactly(cfg: Config, store: Store, r: Retention, now: int, at: int)
    ensures var result, a := Reconcile(cfg, store, r, now, at), ReceiptAt(cfg, r);
            && (result.outcome.Ok? <==> Reconcilable(r, now) && SameRequest(cfg, store, r))
            && (result.outcome.Fault? || a in store ==> result.store == store)
            && (result.outcome.Ok? && a in store ==> result.outcome.value == (store[a].content.receipt, false))
            && (result.outcome.Ok? && a !in store ==>
                  && result.outcome.value.1 && a in result.store
                  && result.store[a].content == ReceiptJson(result.outcome.value.0)
                  && result.outcome.value.0.reconciledAt == now / 1_000_000
                  && SameRequest(cfg, result.store, r))
  {
    ChecksRetentionExactly(r, now);
    assert ReceiptAddress(cfg, r) == ReceiptAt(cfg, r) by {
      assert "organizations/" + r.org + ("/retention/" + r.id + ".json")
          == "organizations/" + r.org + "/retention/" + r.id + ".json";
    }
    hide CheckRetention, Reconcilable, ReceiptAddress, ReceiptAt, Swept, ExpiredRevisions;
  }
}
