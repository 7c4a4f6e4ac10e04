/** Retention: exactly what a reconciliation deletes, and why an interrupted one can be repeated. */
module RetentionRuns {
  import opened Faults
  import opened Ordering
  import opened Extraction
  import opened Keys
  import opened ArtifactSpec
  import opened GatewayRuns

  /**
   * A reconciliation that goes through removes exactly the objects of its expired candidates,
   * changes no other object, and adds its receipt.
   */
  lemma ReconcileExact(cfg: Config, store: Store, r: Retention, now: int, at: int, a: Address)
    requires Reaches(cfg, store, r, now)
    ensures var after := Reconcile(cfg, store, r, now, at).store;
            && (a in store ==>
                  (a !in after <==>
                     exists rev :: rev in ExpiredRevisions(cfg, store, r) && Holds(cfg, store, r.org, rev, a))
                  && (a in after ==> after[a] == store[a]))
            && (a !in store ==> (a in after <==> a == ReceiptAddress(cfg, r)))
  {}

  /**
   * In terms of keys: whatever `rest` follows a revision's prefix, the object goes just when the
   * organization is the request's and the revision is a candidate, not retained, and all of its
   * objects are older than the cutoff.
   */
  lemma ReconcileByKey(
    cfg: Config, store: Store, r: Retention, now: int, at: int, org: string, rev: string, rest: string)
    requires Reaches(cfg, store, r, now) && IsUuid(org) && IsUuid(rev)
    requires Address(cfg.staticBucket, RevisionPrefix(org, rev) + rest) in store
    ensures var a := Address(cfg.staticBucket, RevisionPrefix(org, rev) + rest);
            var after := Reconcile(cfg, store, r, now, at).store;
            && (a in after ==> after[a] == store[a])
            && (a !in after <==>
                  && org == r.org && rev in r.candidates && rev !in r.retain
                  && forall b :: Holds(cfg, store, org, rev, b) ==> store[b].lastModified < r.before.value)
  {
    var a := Address(cfg.staticBucket, RevisionPrefix(org, rev) + rest);
    var revs := ExpiredRevisions(cfg, store, r);
    ReconcileExact(cfg, store, r, now, at, a);
    SweepIsWhole(cfg, store, r.org, revs, org, rev, rest);
    RevisionOfKey(org, rev, rest);
    assert Holds(cfg, store, org, rev, a);
  }

  /** The receipt lists, in order, the revisions that were deleted. */
  lemma ReceiptLists(cfg: Config, store: Store, r: Retention, now: int, at: int)
    requires Reaches(cfg, store, r, now)
    ensures var result := Reconcile(cfg, store, r, now, at);
            && result.outcome.Ok? && result.outcome.value.1
            && StrictlySorted(result.outcome.value.0.deleted, Same)
            && (forall rev :: rev in result.outcome.value.0.deleted <==> rev in ExpiredRevisions(cfg, store, r))
            && forall rev, a :: rev in result.outcome.value.0.deleted ==> !Holds(cfg, result.store, r.org, rev, a)
  {
    var result := Reconcile(cfg, store, r, now, at);
    var revs := ExpiredRevisions(cfg, store, r);
    EvidenceOutside(r.org, r.id, "", r.org);
    forall rev, a | rev in revs ensures !Holds(cfg, result.store, r.org, rev, a) {
      if a in store && Holds(cfg, store, r.org, rev, a) {
        assert a in Doomed(cfg, store, r.org, revs);
      }
    }
  }

  /** Replaying a request returns its receipt; reusing its id for another request is refused. */
  lemma ReconcileReplays(
      cfg: Config, store: Store, r: Retention, now: int, at: int, next: Retention, now': int, at': int)
    requires Reaches(cfg, store, r, now)
    requires next.id == r.id && next.org == r.org && CheckRetention(next, now').Ok?
    ensures var first := Reconcile(cfg, store, r, now, at);
            var second := Reconcile(cfg, first.store, next, now', at');
            && second.store == first.store
            && second.outcome == if CheckRetention(next, now') == CheckRetention(r, now)
                                 then Ok((first.outcome.value.0, false))
                                 else Fault("retention_reconciliation_conflict", 409)
  {}

  // Interruption

  /** Losing some of the doomed objects leaves the rest doomed, and nothing else. */
  lemma DoomAfterPartialSweep(cfg: Config, store: Store, r: Retention, gone: set<Address>)
    requires r.before.Some?
    requires gone <= Doomed(cfg, store, r.org, ExpiredRevisions(cfg, store, r))
    ensures Doomed(cfg, store - gone, r.org, ExpiredRevisions(cfg, store - gone, r))
         == Doomed(cfg, store, r.org, ExpiredRevisions(cfg, store, r)) - gone
  {
    var left := store - gone;
    var before, after := ExpiredRevisions(cfg, store, r), ExpiredRevisions(cfg, left, r);
    forall a ensures a in Doomed(cfg, left, r.org, after) <==> a in Doomed(cfg, store, r.org, before) - gone {
      if a in Doomed(cfg, left, r.org, after) {
        var rev :| rev in after && Holds(cfg, left, r.org, rev, a);
        PartialGroup(cfg, store, r, gone, rev, a);
        assert rev in before && Holds(cfg, store, r.org, rev, a);
      } else if a in Doomed(cfg, store, r.org, before) - gone {
        var rev :| rev in before && Holds(cfg, store, r.org, rev, a);
        PartialGroup(cfg, store, r, gone, rev, a);
        assert rev in after && Holds(cfg, left, r.org, rev, a);
      }
    }
  }

  /**
   * A half-deleted revision is still expired, because what is left of it is older than the
   * cutoff; a revision that was not expired has lost nothing.
   */
  lemma PartialGroup(cfg: Config, store: Store, r: Retention, gone: set<Address>, rev: string, a: Address)
    requires r.before.Some?
    requires gone <= Doomed(cfg, store, r.org, ExpiredRevisions(cfg, store, r))
    requires a !in gone && Holds(cfg, store, r.org, rev, a)
    ensures Expired(cfg, store - gone, r.org, rev, r.before.value) <==> Expired(cfg, store, r.org, rev, r.before.value)
  {
    var left := store - gone;
    assert Holds(cfg, left, r.org, rev, a);
    if !Expired(cfg, store, r.org, rev, r.before.value) {
      var b :| Holds(cfg, store, r.org, rev, b) && store[b].lastModified >= r.before.value;
      assert b !in gone;
      assert Holds(cfg, left, r.org, rev, b);
    }
  }

  /** The second attempt finds just the revisions that still have an object. */
  lemma ExpiredAfterPartialSweep(cfg: Config, store: Store, r: Retention, gone: set<Address>)
    requires r.before.Some?
    requires gone <= Doomed(cfg, store, r.org, ExpiredRevisions(cfg, store, r))
    ensures forall rev :: rev in ExpiredRevisions(cfg, store - gone, r) <==>
      rev in ExpiredRevisions(cfg, store, r) && exists a :: a !in gone && Holds(cfg, store, r.org, rev, a)
  {
    var left := store - gone;
    forall rev ensures rev in ExpiredRevisions(cfg, left, r) <==>
      rev in ExpiredRevisions(cfg, store, r) && exists a :: a !in gone && Holds(cfg, store, r.org, rev, a)
    {
      if a :| a !in gone && Holds(cfg, store, r.org, rev, a) {
        PartialGroup(cfg, store, r, gone, rev, a);
      } else {
        assert forall a :: !Holds(cfg, left, r.org, rev, a);
      }
    }
  }

  /**
   * Stop the deletions anywhere, even inside a revision, and make the request again: the store
   * ends as after one uninterrupted run, except that the second receipt lists only the revisions
   * that the first attempt had not finished.
   */
  lemma InterruptedReconcileConverges(
    cfg: Config, store: Store, r: Retention, now: int, at: int, gone: set<Address>, later: int, at': int)
    requires Reaches(cfg, store, r, now) && now <= later
    requires gone <= Doomed(cfg, store, r.org, ExpiredRevisions(cfg, store, r))
    ensures Reaches(cfg, store - gone, r, later)
    ensures var once := Reconcile(cfg, store, r, now, at);
            var again := Reconcile(cfg, store - gone, r, later, at');
            && again.store - {ReceiptAddress(cfg, r)} == once.store - {ReceiptAddress(cfg, r)}
            && again.outcome.Ok? && once.outcome.Ok?
            && forall rev :: rev in again.outcome.value.0.deleted <==>
                 rev in once.outcome.value.0.deleted && exists a :: a !in gone && Holds(cfg, store, r.org, rev, a)
  {
    hide Expired, Holds;
    DoomAfterPartialSweep(cfg, store, r, gone);
    ExpiredAfterPartialSweep(cfg, store, r, gone);
    var left := store - gone;
    assert Swept(cfg, left, r.org, ExpiredRevisions(cfg, left, r))
        == Swept(cfg, store, r.org, ExpiredRevisions(cfg, store, r));
    hide Swept, ExpiredRevisions;
  }

  /**
   * Dying inside one revision can leave a manifest without its files. It does exactly when the
   * manifest was not yet deleted and a listed file was.
   */
  lemma HalfDeletedRevision(cfg: Config, store: Store, org: string, rev: string, gone: set<Address>)
    requires Consistent(cfg, store) && IsUuid(org) && IsUuid(rev) && Committed(cfg, store, org, rev)
    ensures Backed(cfg, store - gone, org, rev) <==>
      || ManifestAddress(cfg, org, rev) in gone
      || forall e :: e in store[ManifestAddress(cfg, org, rev)].content.manifest.files ==>
           FileAddress(cfg, org, rev, e.path) !in gone
  {
    hide Extract;
    assert Backed(cfg, store, org, rev);
    var left := store - gone;
    var m := store[ManifestAddress(cfg, org, rev)].content.manifest;
    var files := Extract(m.archive.archive, cfg.limits).value;
    if ManifestAddress(cfg, org, rev) !in gone {
      assert Committed(cfg, left, org, rev);
      forall i | 0 <= i < |files|
        ensures Stored(cfg, left, org, rev, files[i]) <==> FileAddress(cfg, org, rev, m.files[i].path) !in gone
      {
        assert Stored(cfg, store, org, rev, files[i]);
      }
      if e :| e in m.files && FileAddress(cfg, org, rev, e.path) in gone {
        var i :| 0 <= i < |m.files| && m.files[i] == e;
        assert !Stored(cfg, left, org, rev, files[i]);
      } else {
        forall i | 0 <= i < |files| ensures Stored(cfg, left, org, rev, files[i]) {
          assert m.files[i] in m.files;
        }
      }
    }
  }
}
