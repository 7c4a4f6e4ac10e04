/** The artifact gateway itself: one object store, changed one object at a time. */
module Gateway {
  import opened Faults
  import opened Ordering
  import opened Extraction
  import opened Keys
  import opened ArtifactSpec
  import opened GatewayVerdicts
  import Paths
  import Text

  datatype ObjectInfo = ObjectInfo(key: string, lastModified: int)

  /** Where the listed objects are. */
  function AddressesOf(bucket: string, infos: seq<ObjectInfo>): set<Address> {
    set info | info in infos :: Address(bucket, info.key)
  }

  /** Every stored object under a prefix, once, in whatever order the store lists them. */
  ghost predicate IsListing(store: Store, bucket: string, prefix: string, infos: seq<ObjectInfo>) {
    && (forall i, j :: 0 <= i < j < |infos| ==> infos[i].key != infos[j].key)
    && (forall i :: 0 <= i < |infos| ==>
          && Address(bucket, infos[i].key) in store
          && Text.StartsWith(infos[i].key, prefix)
          && infos[i].lastModified == store[Address(bucket, infos[i].key)].lastModified)
    && (forall a :: a in store && a.bucket == bucket && Text.StartsWith(a.key, prefix) ==>
          exists i :: 0 <= i < |infos| && infos[i].key == a.key)
  }

  /** The listed objects of one revision, in listing order. */
  function Group(infos: seq<ObjectInfo>, org: string, rev: string): seq<ObjectInfo> {
    if infos == [] then []
    else
      var n := |infos| - 1;
      Group(infos[..n], org, rev) + (if InRevision(infos[n].key, org, rev) then [infos[n]] else [])
  }

  lemma {:induction false} GroupElements(infos: seq<ObjectInfo>, org: string, rev: string)
    ensures forall x :: x in Group(infos, org, rev) <==> x in infos && InRevision(x.key, org, rev)
  {
    if infos != [] {
      var n := |infos| - 1;
      GroupElements(infos[..n], org, rev);
      assert infos == infos[..n] + [infos[n]];
    }
  }

  class Artifacts {
    const cfg: Config
    var objects: Store

    constructor (cfg: Config, objects: Store)
      ensures this.cfg == cfg && this.objects == objects
    {
      this.cfg := cfg;
      this.objects := objects;
    }

    method PutImmutable(w: Write, at: int) returns (r: Outcome<bool>)
      modifies this`objects
      ensures Put(objects, r) == PutOne(old(objects), w, at)
    {
      if w.address in objects {
        if objects[w.address].content != w.content {
          return Fault("artifact_immutable_conflict", 409);
        }
        return Ok(false);
      }
      objects := objects[w.address := Object(w.content, w.contentType, at)];
      r := Ok(true);
    }

    /** After `i` turns of the loop the store is the one a crash at that point leaves behind. */
    method PublishStatic(pub: Publication, stamps: nat -> int) returns (r: Outcome<(Manifest, bool)>)
      modifies this`objects
      ensures Published(objects, r) == Publish(cfg, old(objects), pub, stamps)
      ensures r.Ok? <==> Publishable(cfg, pub) && Unopposed(cfg, old(objects), pub)
      ensures !Publishable(cfg, pub) ==> objects == old(objects)
    {
      hide Publishable, Unopposed;
      PublishVerdict(cfg, objects, pub, stamps);
      hide Extract, ManifestOf, Paths.MediaType, FileAddress, ManifestAddress, IsUuid;
      if !IsUuid(pub.org) || !IsUuid(pub.rev) {
        return Fault("artifact_identity_invalid", 422);
      }
      if pub.expected != OfArchive(pub.archive) {
        return Fault("artifact_digest_mismatch", 422);
      }
      if pub.archive.raw == [] || |pub.archive.raw| > cfg.limits.archiveBytes {
        return Fault("archive_size_invalid", 413);
      }
      var extracted := ExtractFiles(pub.archive, cfg.limits);
      if extracted.Fault? {
        return Fault(extracted.code, extracted.status);
      }
      var files := extracted.value;
      assert Prepare(cfg, pub) == Ok(files);
      var manifestAddress := ManifestAddress(cfg, pub.org, pub.rev);
      if manifestAddress in objects {
        var existing := objects[manifestAddress].content;
        if !existing.ManifestJson? {
          return Fault("artifact_state_invalid", 500);
        }
        if existing.manifest.archive != OfArchive(pub.archive) {
          return Fault("revision_artifact_conflict", 409);
        }
        return Ok((existing.manifest, false));
      }
      var manifest := ManifestOf(pub, files);
      ghost var before, ws := objects, Writes(cfg, pub, files);
      for i := 0 to |files|
        invariant PutFirst(before, ws, stamps, i) == Put(objects, PutFirst(before, ws, stamps, i).outcome)
        invariant PutFirst(before, ws, stamps, i).outcome.Ok?
      {
        var put := PutImmutable(FileWrite(cfg, pub, files[i]), stamps(i));
        if put.Fault? {
          PutsStopped(before, ws, stamps, i + 1, |ws|);
          return Fault(put.code, put.status);
        }
      }
      var put := PutImmutable(ManifestWrite(cfg, pub, files), stamps(|files|));
      if put.Fault? {
        return Fault(put.code, put.status);
      }
      r := Ok((manifest, true));
    }

    method ServeFile(org: string, rev: string, path: string) returns (r: Outcome<Served>)
      ensures r == ReadFile(cfg, objects, org, rev, path)
    {
      hide Paths.CheckPath, Paths.MediaType, Paths.CacheControl;
      if !IsUuid(org) || !IsUuid(rev) {
        return Fault("artifact_identity_invalid", 422);
      }
      var checked := Paths.NormalizePath(path, false);
      if checked.Fault? {
        return Fault(checked.code, checked.status);
      }
      var p := checked.value;
      var address := FileAddress(cfg, org, rev, p);
      if address !in objects {
        return Fault("artifact_not_found", 404);
      }
      var body := objects[address].content;
      r := Ok(Served(p, body, OfContent(body), Paths.MediaType(p), Paths.CacheControl(p)));
    }

    method StoreEvidence(e: Evidence, at: int) returns (r: Outcome<bool>)
      modifies this`objects
      ensures Put(objects, r) == PutEvidence(cfg, old(objects), e, at)
      ensures r.Ok? <==> Storable(cfg, e) && Free(old(objects), EvidenceAt(cfg, e.org, e.build, e.name), Data(e.body))
    {
      EvidenceIsStoredExactly(cfg, objects, e, at);
      hide Storable, Free, EvidenceName;
      if !IsUuid(e.org) || !IsUuid(e.build) {
        return Fault("artifact_identity_invalid", 422);
      }
      if !EvidenceName(e.name) {
        return Fault("evidence_name_invalid", 422);
      }
      if e.body == [] || |e.body| > cfg.limits.evidenceBytes {
        return Fault("evidence_size_invalid", 413);
      }
      if Text.EndsWith(e.name, ".json") && !e.parses {
        return Fault("evidence_json_invalid", 422);
      }
      if e.expected != OfContent(Data(e.body)) {
        return Fault("artifact_digest_mismatch", 422);
      }
      r := PutImmutable(EvidenceWrite(cfg, e), at);
    }

    method EvidenceBody(org: string, build: string, name: string) returns (r: Outcome<Content>)
      ensures r == ReadEvidence(cfg, objects, org, build, name)
    {
      if !IsUuid(org) || !IsUuid(build) {
        return Fault("artifact_identity_invalid", 422);
      }
      if !EvidenceName(name) {
        return Fault("evidence_name_invalid", 422);
      }
      var address := Address(cfg.evidenceBucket, EvidenceKey(org, build, name));
      if address !in objects {
        return Fault("artifact_not_found", 404);
      }
      return Ok(objects[address].content);
    }

    method List(bucket: string, prefix: string) returns (infos: seq<ObjectInfo>)
      ensures IsListing(objects, bucket, prefix, infos)
    {
      infos := [];
      var rest := objects.Keys;
      while rest != {}
        invariant rest <= objects.Keys
        invariant forall i :: 0 <= i < |infos| ==> Address(bucket, infos[i].key) !in rest
        invariant IsListing(map a | a in objects.Keys - rest :: objects[a], bucket, prefix, infos)
        decreases rest
      {
        var a :| a in rest;
        ghost var seen := map b | b in objects.Keys - rest :: objects[b];
        ghost var was := infos;
        rest := rest - {a};
        if a.bucket == bucket && Text.StartsWith(a.key, prefix) {
          infos := infos + [ObjectInfo(a.key, objects[a].lastModified)];
          forall b | b in seen && b.bucket == bucket && Text.StartsWith(b.key, prefix)
            ensures exists i :: 0 <= i < |infos| && infos[i].key == b.key
          {
            var i :| 0 <= i < |was| && was[i].key == b.key;
            assert infos[i] == was[i];
          }
          assert infos[|was|].key == a.key;
        }
      }
      assert (map a | a in objects.Keys - rest :: objects[a]) == objects;
    }

    /** The store removes keys one at a time; a crash leaves the keys not yet reached. */
    method Delete(bucket: string, infos: seq<ObjectInfo>)
      modifies this`objects
      ensures objects == old(objects) - AddressesOf(bucket, infos)
    {
      for n := 0 to |infos|
        invariant objects == old(objects) - AddressesOf(bucket, infos[..n])
      {
        objects := objects - {Address(bucket, infos[n].key)};
        assert infos[..n + 1] == infos[..n] + [infos[n]];
      }
      assert infos[..|infos|] == infos;
    }

    /** Objects grouped by candidate revision; `order` is the order the groups were met in. */
    method GroupCandidates(infos: seq<ObjectInfo>, org: string, candidates: set<string>)
      returns (groups: map<string, seq<ObjectInfo>>, order: seq<string>)
      requires forall i :: 0 <= i < |infos| ==> Text.StartsWith(infos[i].key, RevisionsPrefix(org))
      ensures DistinctKeys(order, Same)
      ensures forall rev :: rev in order <==> rev in groups
      ensures forall rev :: rev in groups <==> rev in candidates && Group(infos, org, rev) != []
      ensures forall rev :: rev in groups ==> groups[rev] == Group(infos, org, rev)
    {
      hide InRevision, Text.Segment, RevisionsPrefix;
      groups, order := map[], [];
      for n := 0 to |infos|
        invariant DistinctKeys(order, Same)
        invariant forall rev :: rev in order <==> rev in groups
        invariant forall rev :: rev in groups <==> rev in candidates && Group(infos[..n], org, rev) != []
        invariant forall rev :: rev in groups ==> groups[rev] == Group(infos[..n], org, rev)
      {
        assert infos[..n + 1][..n] == infos[..n];
        var rev := Text.Segment(infos[n].key[|RevisionsPrefix(org)|..]);
        ReadRevision(infos[n].key, org);
        if rev in candidates {
          if rev !in groups {
            order := order + [rev];
            groups := groups[rev := []];
          }
          groups := groups[rev := groups[rev] + [infos[n]]];
        }
      }
      assert infos[..|infos|] == infos;
    }

    method Newest(infos: seq<ObjectInfo>) returns (newest: int)
      requires infos != []
      ensures exists x :: x in infos && x.lastModified == newest
      ensures forall x :: x in infos ==> x.lastModified <= newest
    {
      newest := infos[0].lastModified;
      for n := 1 to |infos|
        invariant exists x :: x in infos && x.lastModified == newest
        invariant forall i :: 0 <= i < n ==> infos[i].lastModified <= newest
      {
        if infos[n].lastModified > newest {
          newest := infos[n].lastModified;
        }
      }
    }

    /** Deletes, in increasing order, the groups that are not retained and have fully expired. */
    method Sweep(infos: seq<ObjectInfo>, org: string, candidates: set<string>, retained: set<string>, cutoff: int)
      returns (deleted: seq<string>)
      requires IsListing(objects, cfg.staticBucket, RevisionsPrefix(org), infos)
      modifies this`objects
      ensures StrictlySorted(deleted, Same)
      ensures forall rev :: rev in deleted <==>
        rev in candidates && rev !in retained && Expired(cfg, old(objects), org, rev, cutoff)
      ensures objects == Swept(cfg, old(objects), org, Elements(deleted))
    {
      hide Expired, Swept, Doomed, Group, Holds, IsListing, AddressesOf;
      ghost var before := objects;
      SweepNothing(cfg, before, org);
      ExpiredHasGroup(cfg, before, infos, org, cutoff);
      var groups, order := GroupCandidates(infos, org, candidates);
      var sorted := SortBy(order, Same);
      SortedOrder(order);
      hide SortBy, DistinctKeys;
      deleted := [];
      for n := 0 to |sorted|
        invariant objects == Swept(cfg, before, org, Elements(deleted))
        invariant StrictlySorted(deleted, Same)
        invariant forall x, i :: x in deleted && n <= i < |sorted| ==> Less(x, sorted[i])
        invariant forall rev :: rev in deleted <==>
          rev in sorted[..n] && rev !in retained && Expired(cfg, before, org, rev, cutoff)
      {
        var rev := sorted[n];
        if rev !in retained {
          var newest := Newest(groups[rev]);
          ExpiredByNewest(cfg, before, infos, org, rev, newest, cutoff);
          if newest < cutoff {
            SweepOne(cfg, before, infos, org, deleted, rev);
            Delete(cfg.staticBucket, groups[rev]);
            AppendStrict(deleted, rev, Same);
            deleted := deleted + [rev];
          }
        }
      }
    }

    method Reconcile(r: Retention, now: int, at: int) returns (result: Outcome<(Receipt, bool)>)
      modifies this`objects
      ensures Reconciled(objects, result) == ArtifactSpec.Reconcile(cfg, old(objects), r, now, at)
      ensures result.Ok? <==> Reconcilable(r, now) && SameRequest(cfg, old(objects), r)
    {
      ReconcilesExactly(cfg, objects, r, now, at);
      hide Reconcilable, SameRequest;
      var checked := CheckRetention(r, now);
      if checked.Fault? {
        return Fault(checked.code, checked.status);
      }
      var doc, cutoff := checked.value, r.before.value;
      var receiptAddress := ReceiptAddress(cfg, r);
      if receiptAddress in objects {
        var existing := objects[receiptAddress].content;
        if !existing.ReceiptJson? {
          return Fault("artifact_state_invalid", 500);
        }
        if existing.receipt.request != doc {
          return Fault("retention_reconciliation_conflict", 409);
        }
        return Ok((existing.receipt, false));
      }
      ghost var before := objects;
      var infos := List(cfg.staticBucket, RevisionsPrefix(r.org));
      var deleted := Sweep(infos, r.org, doc.candidates, doc.retained, cutoff);
      ghost var revs := ExpiredRevisions(cfg, before, r);
      assert Elements(deleted) == revs;
      StrictUnique(deleted, Listed(revs), Same);
      var receipt := Receipt(doc, Seconds(now), deleted);
      var put := PutImmutable(Write(receiptAddress, ReceiptJson(receipt), "application/json"), at);
      result := Ok((receipt, true));
    }
  }

  lemma PublishVerdict(cfg: Config, store: Store, pub: Publication, stamps: nat -> int)
    ensures Publish(cfg, store, pub, stamps).outcome.Ok? <==> Publishable(cfg, pub) && Unopposed(cfg, store, pub)
    ensures !Publishable(cfg, pub) ==> Publish(cfg, store, pub, stamps).store == store
  {
    PublishSucceedsExactly(cfg, store, pub, stamps);
    if !Publishable(cfg, pub) {
      RefusedPublishStoresNothing(cfg, store, pub, stamps, 0);
    }
    hide Publishable, Unopposed, Publish;
  }

  lemma ReadRevision(key: string, org: string)
    requires Text.StartsWith(key, RevisionsPrefix(org))
    ensures forall r :: InRevision(key, org, r) <==> r == Text.Segment(key[|RevisionsPrefix(org)|..])
  {}

  lemma ExpiredByNewest(
      cfg: Config, store: Store, infos: seq<ObjectInfo>, org: string, rev: string, newest: int, cutoff: int)
    requires IsListing(store, cfg.staticBucket, RevisionsPrefix(org), infos)
    requires exists x :: x in Group(infos, org, rev) && x.lastModified == newest
    requires forall x :: x in Group(infos, org, rev) ==> x.lastModified <= newest
    ensures newest < cutoff <==> Expired(cfg, store, org, rev, cutoff)
  {
    GroupIsRevision(cfg, store, infos, org, rev);
    var x :| x in Group(infos, org, rev) && x.lastModified == newest;
    assert Holds(cfg, store, org, rev, Address(cfg.staticBucket, x.key));
  }

  lemma ExpiredHasGroup(cfg: Config, store: Store, infos: seq<ObjectInfo>, org: string, cutoff: int)
    requires IsListing(store, cfg.staticBucket, RevisionsPrefix(org), infos)
    ensures forall rev :: Expired(cfg, store, org, rev, cutoff) ==> Group(infos, org, rev) != []
    ensures forall i :: 0 <= i < |infos| ==> Text.StartsWith(infos[i].key, RevisionsPrefix(org))
  {
    forall rev | Expired(cfg, store, org, rev, cutoff) ensures Group(infos, org, rev) != [] {
      GroupIsRevision(cfg, store, infos, org, rev);
    }
  }

  lemma SortedOrder(order: seq<string>)
    requires DistinctKeys(order, Same)
    ensures StrictlySorted(SortBy(order, Same), Same)
    ensures forall rev :: rev in SortBy(order, Same) <==> rev in order
  {
    SortStrict(order, Same);
    SortElements(order, Same);
    forall rev ensures rev in SortBy(order, Same) <==> rev in order {
      SameElement(SortBy(order, Same), order, rev);
    }
  }

  lemma SweepNothing(cfg: Config, store: Store, org: string)
    ensures Swept(cfg, store, org, Elements([])) == store
  {
    assert Doomed(cfg, store, org, Elements([])) == {};
  }

  lemma SweepOne(cfg: Config, store: Store, infos: seq<ObjectInfo>, org: string, done: seq<string>, rev: string)
    requires IsListing(store, cfg.staticBucket, RevisionsPrefix(org), infos)
    ensures Swept(cfg, store, org, Elements(done)) - AddressesOf(cfg.staticBucket, Group(infos, org, rev))
         == Swept(cfg, store, org, Elements(done + [rev]))
  {
    GroupIsRevision(cfg, store, infos, org, rev);
    var group := Group(infos, org, rev);
    var gone := AddressesOf(cfg.staticBucket, group);
    forall a ensures a in gone <==> Holds(cfg, store, org, rev, a) {
      if Holds(cfg, store, org, rev, a) {
        var x :| x in group && x.key == a.key;
        assert a == Address(cfg.staticBucket, x.key);
      }
    }
    assert Elements(done + [rev]) == Elements(done) + {rev};
    assert Doomed(cfg, store, org, Elements(done + [rev]))
        == Doomed(cfg, store, org, Elements(done)) + (gone * store.Keys);
  }

  /** A listing's group for a revision is exactly what the store holds of it. */
  lemma GroupIsRevision(cfg: Config, store: Store, infos: seq<ObjectInfo>, org: string, rev: string)
    requires IsListing(store, cfg.staticBucket, RevisionsPrefix(org), infos)
    ensures var group := Group(infos, org, rev);
            && (forall x :: x in group ==>
                  && Holds(cfg, store, org, rev, Address(cfg.staticBucket, x.key))
                  && store[Address(cfg.staticBucket, x.key)].lastModified == x.lastModified)
            && (forall a :: Holds(cfg, store, org, rev, a) ==> exists x :: x in group && x.key == a.key)
  {
    var group := Group(infos, org, rev);
    GroupElements(infos, org, rev);
    forall a | Holds(cfg, store, org, rev, a) ensures exists x :: x in group && x.key == a.key {
      var i :| 0 <= i < |infos| && infos[i].key == a.key;
      assert infos[i] in infos;
    }
  }

  /** A list of puts that has met a conflict goes no further. */
  lemma {:induction false} PutsStopped(store: Store, ws: seq<Write>, stamps: nat -> int, i: nat, k: nat)
    requires i <= k <= |ws| && PutFirst(store, ws, stamps, i).outcome.Fault?
    ensures PutFirst(store, ws, stamps, k) == PutFirst(store, ws, stamps, i)
  {
    if i < k {
      PutsStopped(store, ws, stamps, i, k - 1);
    }
  }
}
