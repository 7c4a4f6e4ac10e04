/** Pruning twice, reloading, and what switching an item on or off does to every item. */
module RegistryUpdates {
  import opened Faults
  import opened Ordering
  import opened JsonTrees
  import opened RegistrySpec
  import opened RegistryMeaning

  // Pruning again

  lemma PruneConfigAgain(base: Fields, over: Fields)
    ensures PruneConfig(base, PruneConfig(base, over)) == PruneConfig(base, over)
  {
    assert EqualKeys(base, PruneConfig(base, over), PruneConfig(base, over).Keys) == {};
  }

  lemma TrimConfigAgain(kind: Kind, base: Fields, over: Fields)
    ensures TrimConfig(kind, base, TrimConfig(kind, base, over)) == TrimConfig(kind, base, over)
  {
    if kind.Presets? && "config" in over && over["config"].Obj? {
      PruneConfigAgain(ConfigOf(base), over["config"].fields);
    }
  }

  lemma TrimAgain(kind: Kind, base: Option<Fields>, over: Fields)
    ensures Trim(kind, base, Trim(kind, base, over)) == Trim(kind, base, over)
  {
    var t := Trim(kind, base, over);
    TrimLosesSlug(kind, base, over);
    assert WithoutSlug(t) == t;
    if base.Some? {
      var bare := WithoutSlug(over);
      var kept := bare - EqualKeys(base.value, bare, Compared(kind));
      TrimConfigAgain(kind, base.value, kept);
      assert EqualKeys(base.value, t, Compared(kind)) == {};
      assert t - {} == t;
    }
  }

  lemma TrimKeepsComplete(kind: Kind, over: Fields)
    requires Complete(kind, over)
    ensures Complete(kind, Trim(kind, None, over))
  {
  }

  /** An entry that was kept is kept as it is, unless it was only a marker. */
  lemma PruneEntryAgain(kind: Kind, base: Option<Fields>, value: Json)
    requires PruneEntry(kind, base, value).Some?
    ensures var kept := PruneEntry(kind, base, value).value;
            PruneEntry(kind, base, kept) == if kept == Obj(map[]) then None else Some(kept)
  {
    TrimAgain(kind, base, value.fields);
    if base.None? {
      TrimKeepsComplete(kind, value.fields);
    }
    hide Trim, Complete;
  }

  /** Entries other than empty objects. */
  function NonEmpty(entries: seq<Entry>): (r: seq<Entry>)
    ensures |r| <= |entries|
  {
    if entries == [] then []
    else
      var n := |entries| - 1;
      if entries[n].value == Obj(map[]) then NonEmpty(entries[..n]) else NonEmpty(entries[..n]) + [entries[n]]
  }

  lemma {:induction false} NonEmptyIsAll(entries: seq<Entry>)
    ensures NonEmpty(entries) == entries <==> forall i :: 0 <= i < |entries| ==> entries[i].value != Obj(map[])
  {
    if entries != [] {
      var n := |entries| - 1;
      NonEmptyIsAll(entries[..n]);
      assert entries == entries[..n] + [entries[n]];
      if NonEmpty(entries) == entries {
        assert |NonEmpty(entries[..n])| <= n;
        assert NonEmpty(entries)[..n] == NonEmpty(entries[..n]);
      }
    }
  }

  lemma {:induction false} PruneAgainDropsMarkers(kind: Kind, items: seq<Fields>, entries: seq<Entry>)
    ensures Prune(kind, items, Prune(kind, items, entries)) == NonEmpty(Prune(kind, items, entries))
  {
    hide PruneEntry, Base;
    if entries != [] {
      var n := |entries| - 1;
      var e, rest, all := entries[n], Prune(kind, items, entries[..n]), Prune(kind, items, entries);
      PruneAgainDropsMarkers(kind, items, entries[..n]);
      var kept := PruneEntry(kind, Base(items, e.slug), e.value);
      if kept.Some? {
        PruneEntryAgain(kind, Base(items, e.slug), e.value);
        assert all[..|all| - 1] == rest;
      } else {
        assert all == rest;
      }
    }
  }

  // Which entries leave a marker

  /** One field of an override says what the catalog item says. */
  predicate SaysTheSame(kind: Kind, base: Fields, over: Fields, k: string)
    requires k in over
  {
    || ((k == "name" || k == "category" || k == "enabled" || (k == "image" && kind.Runners?))
        && k in base && Eq(over[k], base[k]))
    || (kind.Presets? && k == "config" && over[k].Obj?
        && forall c :: c in over[k].fields ==> c in ConfigOf(base) && Eq(over[k].fields[c], ConfigOf(base)[c]))
  }

  /** Apart from its slug and an explicit false, an override repeats the catalog item. */
  predicate Repeats(kind: Kind, base: Fields, over: Fields) {
    forall k :: k in over && k != "slug" && !(k == "enabled" && ExplicitlyOff(over)) ==>
      SaysTheSame(kind, base, over, k)
  }

  lemma TrimConfigKeys(kind: Kind, base: Fields, over: Fields, k: string)
    requires k in over
    ensures k in TrimConfig(kind, base, over) <==>
            !(kind.Presets? && k == "config" && over[k].Obj?
              && forall c :: c in over[k].fields ==> c in ConfigOf(base) && Eq(over[k].fields[c], ConfigOf(base)[c]))
  {
    if kind.Presets? && k == "config" && over[k].Obj? {
      var theirs := over[k].fields;
      var c := PruneConfig(ConfigOf(base), theirs);
      assert forall x :: x in theirs ==> (x in c <==> !(x in ConfigOf(base) && Eq(theirs[x], ConfigOf(base)[x])));
      if x :| x in theirs && !(x in ConfigOf(base) && Eq(theirs[x], ConfigOf(base)[x])) {
        assert x in c;
      } else {
        assert c == map[];
      }
    }
  }

  /** Trimming leaves nothing exactly when the override repeats the catalog item. */
  lemma TrimIsEmptyExactly(kind: Kind, base: Fields, over: Fields)
    ensures Trim(kind, Some(base), over) == map[] <==> Repeats(kind, base, over)
  {
    var bare := WithoutSlug(over);
    var kept := bare - EqualKeys(base, bare, Compared(kind));
    var t := TrimConfig(kind, base, kept);
    assert t.Keys <= kept.Keys;
    assert forall k :: k in over && k != "slug" && !(k == "enabled" && ExplicitlyOff(over)) <==> k in bare;
    forall k | k in bare ensures k in t <==> !SaysTheSame(kind, base, over, k) {
      assert bare[k] == over[k];
      if k in kept {
        TrimConfigKeys(kind, base, kept, k);
      }
    }
    hide SaysTheSame, TrimConfig, EqualKeys, WithoutSlug, ExplicitlyOff;
    if k :| k in t {
      assert k in bare;
    } else {
      assert t == map[];
    }
  }

  /** The override switches off a catalog item that is enabled, and says nothing else. */
  predicate OnlySwitchesOff(kind: Kind, base: Option<Fields>, value: Json) {
    && value.Obj? && base.Some? && On(base.value)
    && ExplicitlyOff(value.fields) && Repeats(kind, base.value, value.fields)
  }

  lemma MarkerExactly(kind: Kind, base: Option<Fields>, value: Json)
    ensures PruneEntry(kind, base, value) == Some(Obj(map[])) <==> OnlySwitchesOff(kind, base, value)
  {
    if value.Obj? {
      if base.Some? {
        TrimIsEmptyExactly(kind, base.value, value.fields);
      } else if Complete(kind, value.fields) {
        CustomNotEmpty(kind, value.fields);
      }
    }
    hide Trim, Repeats, Complete, ExplicitlyOff;
  }

  lemma CustomNotEmpty(kind: Kind, over: Fields)
    requires Complete(kind, over)
    ensures Trim(kind, None, over) != map[]
  {
    assert (if kind.Runners? then "name" else "config") in Trim(kind, None, over);
  }

  ghost predicate HasMarker(entries: seq<Entry>) {
    exists i :: 0 <= i < |entries| && entries[i].value == Obj(map[])
  }

  ghost predicate SomeOnlySwitchesOff(kind: Kind, items: seq<Fields>, entries: seq<Entry>) {
    exists i :: 0 <= i < |entries| && OnlySwitchesOff(kind, Base(items, entries[i].slug), entries[i].value)
  }

  lemma {:induction false} MarkersExactly(kind: Kind, items: seq<Fields>, entries: seq<Entry>)
    ensures HasMarker(Prune(kind, items, entries)) <==> SomeOnlySwitchesOff(kind, items, entries)
  {
    hide PruneEntry, Base, OnlySwitchesOff;
    if entries != [] {
      var n := |entries| - 1;
      var e, rest, all := entries[n], Prune(kind, items, entries[..n]), Prune(kind, items, entries);
      MarkersExactly(kind, items, entries[..n]);
      MarkerExactly(kind, Base(items, e.slug), e.value);
      SwitchesOffStep(kind, items, entries);
      var kept := PruneEntry(kind, Base(items, e.slug), e.value);
      if kept.Some? {
        MarkerAppended(rest, Entry(e.slug, kept.value));
      } else {
        assert all == rest;
      }
    }
  }

  lemma SwitchesOffStep(kind: Kind, items: seq<Fields>, entries: seq<Entry>)
    requires entries != []
    ensures var n := |entries| - 1;
            SomeOnlySwitchesOff(kind, items, entries) <==>
              SomeOnlySwitchesOff(kind, items, entries[..n])
              || OnlySwitchesOff(kind, Base(items, entries[n].slug), entries[n].value)
  {
    hide Base, OnlySwitchesOff;
    var n := |entries| - 1;
    assert forall i :: 0 <= i < n ==> entries[..n][i] == entries[i];
    if i :| 0 <= i < n && OnlySwitchesOff(kind, Base(items, entries[i].slug), entries[i].value) {
      assert entries[..n][i] == entries[i];
    }
  }

  lemma MarkerAppended(entries: seq<Entry>, e: Entry)
    ensures HasMarker(entries + [e]) <==> HasMarker(entries) || e.value == Obj(map[])
  {
    if i :| 0 <= i < |entries| && entries[i].value == Obj(map[]) {
      assert (entries + [e])[i] == entries[i];
    }
    assert (entries + [e])[|entries|] == e;
  }

  /**
   * Pruning is idempotent exactly when no entry does nothing but switch off an item the catalog
   * enables; such an entry is first reduced to a marker, and the marker is dropped the next time.
   */
  lemma PruneIsIdempotent(kind: Kind, items: seq<Fields>, entries: seq<Entry>)
    ensures var once := Prune(kind, items, entries);
            Prune(kind, items, once) == once <==> !SomeOnlySwitchesOff(kind, items, entries)
  {
    PruneAgainDropsMarkers(kind, items, entries);
    NonEmptyIsAll(Prune(kind, items, entries));
    MarkersExactly(kind, items, entries);
    hide Prune, OnlySwitchesOff;
  }

  /** Sound overrides are pruned once and for all, and keep their meaning. */
  lemma SoundOverridesSettle(kind: Kind, items: seq<Fields>, entries: seq<Entry>)
    requires IsCatalog(kind, items) && DistinctKeys(entries, SlugOf) && AllSound(kind, items, entries)
    ensures var once := Prune(kind, items, entries);
            Prune(kind, items, once) == once && EqItems(Merge(items, once), Merge(items, entries))
  {
    assert forall i :: 0 <= i < |entries| ==> !OnlySwitchesOff(kind, Base(items, entries[i].slug), entries[i].value);
    hide Prune, AllSound, OnlySwitchesOff, EqItems, Merge;
    PruneIsIdempotent(kind, items, entries);
    PruneKeepsMeaning(kind, items, entries);
  }

  /** Switching off an item the catalog enables is lost by pruning, whatever else the entry says. */
  lemma DisablingEnabledItemIsLost(kind: Kind, item: Fields, over: Fields)
    requires IsItem(kind, item) && On(item) && ExplicitlyOff(over)
    ensures !On(MergeItem(item, Some(Obj(over))))
    ensures On(MergeItem(item, PruneEntry(kind, Some(item), Obj(over))))
  {
    var trimmed := Trim(kind, Some(item), over);
    TrimLosesSlug(kind, Some(item), over);
    assert "enabled" !in WithoutSlug(over);
    assert trimmed.Keys <= WithoutSlug(over).Keys;
    hide Trim;
    MergeNothing(item);
  }

  // Lookups across a reload

  lemma {:induction false} PruneKeepsSlugs(kind: Kind, items: seq<Fields>, entries: seq<Entry>)
    requires DistinctKeys(entries, SlugOf)
    ensures DistinctKeys(Prune(kind, items, entries), SlugOf)
    ensures forall e :: e in Prune(kind, items, entries) ==> exists i :: 0 <= i < |entries| && entries[i].slug == e.slug
  {
    hide PruneEntry, Base;
    if entries != [] {
      var n := |entries| - 1;
      PruneKeepsSlugs(kind, items, entries[..n]);
      var rest := Prune(kind, items, entries[..n]);
      forall e | e in rest
        ensures e.slug != entries[n].slug && exists i :: 0 <= i < |entries| && entries[i].slug == e.slug
      {
        var i :| 0 <= i < n && entries[..n][i].slug == e.slug;
        assert SlugOf(entries[i]) != SlugOf(entries[n]) && entries[i].slug == e.slug;
      }
    }
  }

  /** What is found in one object is found in another that holds the same entry. */
  lemma LookupCarries(a: seq<Entry>, b: seq<Entry>, slug: string)
    requires DistinctKeys(a, SlugOf) && DistinctKeys(b, SlugOf)
    requires forall i :: 0 <= i < |a| && a[i].slug == slug ==> a[i] in b
    ensures Lookup(a, slug).Some? ==> Lookup(b, slug) == Lookup(a, slug)
  {
    LookupNone(a, slug);
    if Lookup(a, slug).Some? {
      var i :| 0 <= i < |a| && a[i].slug == slug;
      LookupAt(a, i);
      var j :| 0 <= j < |b| && b[j] == a[i];
      LookupAt(b, j);
    }
  }

  /** Rearranging entries does not change what is found under a slug. */
  lemma LookupPermuted(a: seq<Entry>, b: seq<Entry>, slug: string)
    requires DistinctKeys(a, SlugOf) && multiset(a) == multiset(b)
    ensures Lookup(a, slug) == Lookup(b, slug)
  {
    DistinctPermuted(a, b, SlugOf);
    forall i | 0 <= i < |a| ensures a[i] in b {
      SameElement(a, b, a[i]);
    }
    forall i | 0 <= i < |b| ensures b[i] in a {
      SameElement(a, b, b[i]);
    }
    LookupCarries(a, b, slug);
    LookupCarries(b, a, slug);
  }

  /** Storing prunes each entry twice, whatever the order of the keys in the file. */
  lemma LookupStored(kind: Kind, items: seq<Fields>, entries: seq<Entry>, slug: string)
    requires DistinctKeys(entries, SlugOf)
    ensures var was := Lookup(entries, slug);
            var base := Base(items, slug);
            var once := if was.None? then None else PruneEntry(kind, base, was.value);
            Lookup(Store(kind, items, entries), slug)
            == if once.None? || once.value == Obj(map[]) then None else once
  {
    hide PruneEntry, Base, Prune, SortBy, Lookup, DistinctKeys;
    var once := Prune(kind, items, entries);
    PruneKeepsSlugs(kind, items, entries);
    SortElements(once, SlugOf);
    DistinctPermuted(once, SortBy(once, SlugOf), SlugOf);
    LookupPermuted(once, SortBy(once, SlugOf), slug);
    LookupPruned(kind, items, entries, slug);
    LookupPruned(kind, items, SortBy(once, SlugOf), slug);
    var was := Lookup(entries, slug);
    if was.Some? && PruneEntry(kind, Base(items, slug), was.value).Some? {
      PruneEntryAgain(kind, Base(items, slug), was.value);
    }
  }

  lemma {:induction false} SetEntryLooksUp(entries: seq<Entry>, slug: string, value: Json)
    requires DistinctKeys(entries, SlugOf)
    ensures var after := SetEntry(entries, slug, value);
            && DistinctKeys(after, SlugOf)
            && (forall e :: e in after <==> e == Entry(slug, value) || (e in entries && e.slug != slug))
  {
    if entries != [] {
      var head, tail := entries[0], entries[1..];
      assert entries == [head] + tail;
      forall e | e in tail ensures e.slug != head.slug {
        var i :| 0 <= i < |tail| && tail[i] == e;
        assert SlugOf(entries[0]) != SlugOf(entries[i + 1]);
      }
      if head.slug != slug {
        SetEntryLooksUp(tail, slug, value);
      }
    }
  }

  lemma LookupSet(entries: seq<Entry>, slug: string, value: Json, other: string)
    requires DistinctKeys(entries, SlugOf)
    ensures DistinctKeys(SetEntry(entries, slug, value), SlugOf)
    ensures Lookup(SetEntry(entries, slug, value), other)
            == if other == slug then Some(value) else Lookup(entries, other)
  {
    var after := SetEntry(entries, slug, value);
    SetEntryLooksUp(entries, slug, value);
    hide SetEntry;
    if other == slug {
      LookupCarries([Entry(slug, value)], after, slug);
    } else {
      LookupCarries(entries, after, other);
      LookupCarries(after, entries, other);
    }
  }
}
