/** What switching items on and off comes to, over any number of changes and reloads. */
module RegistryRuns {
  import opened Faults
  import opened Ordering
  import opened JsonTrees
  import opened RegistrySpec
  import opened RegistryMeaning
  import opened RegistryUpdates

  /** The merged item of a slug, if it has one. */
  function Resolve(items: seq<Fields>, entries: seq<Entry>, slug: string): Option<Fields> {
    ResolveEntry(Base(items, slug), slug, Lookup(entries, slug))
  }

  function ResolveEntry(base: Option<Fields>, slug: string, over: Option<Json>): Option<Fields> {
    if base.Some? then Some(MergeItem(base.value, over))
    else if over.Some? && over.value.Obj? then Some(CustomItem(slug, over.value.fields))
    else None
  }

  /** Overrides as they are kept in memory: pruned when they were loaded. */
  ghost predicate Loaded(kind: Kind, items: seq<Fields>, entries: seq<Entry>) {
    exists raw :: DistinctKeys(raw, SlugOf) && entries == Prune(kind, items, raw)
  }

  /** Pruned entries have no slug of their own. */
  predicate Bare(over: Option<Json>) {
    over.Some? ==> over.value.Obj? && "slug" !in over.value.fields
  }

  lemma LoadedLookup(kind: Kind, items: seq<Fields>, entries: seq<Entry>, slug: string)
    requires Loaded(kind, items, entries)
    ensures DistinctKeys(entries, SlugOf)
    ensures var e := Lookup(entries, slug);
            e.Some? ==> exists value :: PruneEntry(kind, Base(items, slug), value) == e
  {
    hide PruneEntry, Base;
    var raw :| DistinctKeys(raw, SlugOf) && entries == Prune(kind, items, raw);
    PruneKeepsSlugs(kind, items, raw);
    LookupPruned(kind, items, raw, slug);
  }

  // The merged list and the resolved items are the same thing

  predicate SlugIs(item: Fields, slug: string) {
    "slug" in item && item["slug"] == Str(slug)
  }

  lemma BaseResolved(kind: Kind, item: Fields, slug: string, value: Option<Json>)
    requires IsItem(kind, item) && item["slug"] == Str(slug) && Bare(value)
    ensures SlugIs(MergeItem(item, value), slug)
  {
  }

  lemma CustomResolved(slug: string, over: Fields)
    requires "slug" !in over
    ensures SlugIs(CustomItem(slug, over), slug)
  {
  }

  lemma LoadedIsBare(kind: Kind, items: seq<Fields>, entries: seq<Entry>, slug: string)
    requires Loaded(kind, items, entries)
    ensures Bare(Lookup(entries, slug))
  {
    LoadedLookup(kind, items, entries, slug);
    var e := Lookup(entries, slug);
    if e.Some? {
      var value :| PruneEntry(kind, Base(items, slug), value) == e;
      TrimLosesSlug(kind, Base(items, slug), value.fields);
      hide Trim;
    }
  }

  /** Where an item of no catalog entry comes from. */
  lemma {:induction false} CustomFrom(items: seq<Fields>, entries: seq<Entry>, i: nat) returns (j: nat)
    requires i < |Customs(items, entries)|
    ensures j < |entries| && IsCustom(items, entries[j])
            && Customs(items, entries)[i] == CustomItem(entries[j].slug, entries[j].value.fields)
  {
    hide CustomItem, Base;
    var n := |entries| - 1;
    if i < |Customs(items, entries[..n])| {
      j := CustomFrom(items, entries[..n], i);
    } else {
      j := n;
    }
  }

  lemma {:induction false} CustomAt(items: seq<Fields>, entries: seq<Entry>, j: nat)
    requires j < |entries| && IsCustom(items, entries[j])
    ensures CustomItem(entries[j].slug, entries[j].value.fields) in Customs(items, entries)
  {
    hide CustomItem, Base;
    var n := |entries| - 1;
    if j < n {
      CustomAt(items, entries[..n], j);
    }
  }

  /** Every merged item is the one its slug resolves to. */
  lemma MergedResolves(kind: Kind, items: seq<Fields>, entries: seq<Entry>, i: nat)
    requires IsCatalog(kind, items) && Loaded(kind, items, entries) && i < |Merge(items, entries)|
    ensures var item := Merge(items, entries)[i];
            "slug" in item && item["slug"].Str? && Resolve(items, entries, item["slug"].s) == Some(item)
  {
    hide MergeItem, CustomItem, Base, Loaded;
    if i < |items| {
      var slug := items[i]["slug"].s;
      BaseAt(kind, items, i);
      LoadedIsBare(kind, items, entries, slug);
      BaseResolved(kind, items[i], slug, Lookup(entries, slug));
    } else {
      var j := CustomFrom(items, entries, i - |items|);
      LoadedLookup(kind, items, entries, entries[j].slug);
      LookupAt(entries, j);
      LoadedIsBare(kind, items, entries, entries[j].slug);
      CustomResolved(entries[j].slug, entries[j].value.fields);
    }
  }

  /** Every slug that resolves does so to an item of the merged list. */
  lemma ResolvedIsMerged(kind: Kind, items: seq<Fields>, entries: seq<Entry>, slug: string)
    requires IsCatalog(kind, items) && Loaded(kind, items, entries) && Resolve(items, entries, slug).Some?
    ensures Resolve(items, entries, slug).value in Merge(items, entries)
  {
    hide MergeItem, CustomItem, Base, Loaded;
    if Base(items, slug).Some? {
      var i := BaseFound(items, slug);
      assert Merge(items, entries)[i] == MergeItem(items[i], Lookup(entries, slug));
    } else {
      LoadedLookup(kind, items, entries, slug);
      LookupNone(entries, slug);
      var j :| 0 <= j < |entries| && entries[j].slug == slug;
      LookupAt(entries, j);
      CustomAt(items, entries, j);
    }
  }

  // One change

  function BaseOn(items: seq<Fields>, slug: string): bool {
    Base(items, slug).Some? && On(Base(items, slug).value)
  }

  function Switch(item: Option<Fields>, enabled: bool): Option<Fields> {
    if item.None? then None else Some(item.value["enabled" := Bool(enabled)])
  }

  /** The fields of an entry that has been kept, as the next change finds them. */
  function CurrentFields(over: Option<Json>): Fields {
    if over.Some? && over.value.Obj? then over.value.fields else map[]
  }

  /** Fields that trimming leaves alone. */
  predicate Trimmed(kind: Kind, base: Option<Fields>, over: Fields) {
    Trim(kind, base, over) == over
  }

  lemma TrimSwitchedConfig(kind: Kind, base: Fields, t: Fields, extra: Fields)
    requires TrimConfig(kind, base, t) == t && extra.Keys <= {"enabled"}
    ensures TrimConfig(kind, base, t - {"enabled"} + extra) == t - {"enabled"} + extra
  {
    var u := t - {"enabled"} + extra;
    if kind.Presets? && "config" in u && u["config"].Obj? {
      assert u["config"] == t["config"];
      var c := PruneConfig(ConfigOf(base), u["config"].fields);
      assert c == map[] ==> "config" !in TrimConfig(kind, base, t);
      if c != map[] {
        assert TrimConfig(kind, base, t)["config"] == Obj(c);
        assert u["config" := Obj(c)] == u;
      }
    }
  }

  /** What is left of a kept entry once it is switched and trimmed again. */
  lemma TrimSwitched(kind: Kind, base: Option<Fields>, t: Fields, enabled: bool)
    requires base.Some? ==> IsItem(kind, base.value)
    requires Trimmed(kind, base, t)
    ensures Trim(kind, base, t["enabled" := Bool(enabled)])
            == if enabled && !(base.Some? && On(base.value)) then t["enabled" := Bool(true)] else t - {"enabled"}
  {
    TrimLosesSlug(kind, base, t);
    var f := t["enabled" := Bool(enabled)];
    var bare := WithoutSlug(f);
    if !enabled {
      assert bare == t - {"enabled"};
    } else {
      assert bare == f;
    }
    if base.Some? {
      var equal := EqualKeys(base.value, bare, Compared(kind));
      TrimmedHasNoEqual(kind, base.value, t);
      assert equal == if enabled && On(base.value) then {"enabled"} else {};
      if enabled && !On(base.value) {
        assert bare - equal == t - {"enabled"} + map["enabled" := Bool(true)];
        TrimSwitchedConfig(kind, base.value, t, map["enabled" := Bool(true)]);
      } else {
        assert bare - equal == t - {"enabled"} + map[];
        TrimSwitchedConfig(kind, base.value, t, map[]);
      }
    }
  }

  lemma TrimmedHasNoEqual(kind: Kind, base: Fields, t: Fields)
    requires IsItem(kind, base) && Trimmed(kind, Some(base), t)
    ensures EqualKeys(base, t, Compared(kind)) == {} && TrimConfig(kind, base, t) == t
  {
    TrimLosesSlug(kind, Some(base), t);
    assert WithoutSlug(t) == t;
    var equal := EqualKeys(base, t, Compared(kind));
    assert TrimConfig(kind, base, t - equal).Keys <= t.Keys - equal;
    assert equal <= t.Keys && t.Keys <= t.Keys - equal;
    assert t - {} == t;
  }

  lemma SwitchedMerges(kind: Kind, item: Fields, t: Fields, enabled: bool)
    requires IsItem(kind, item)
    ensures var u := if enabled && !On(item) then t["enabled" := Bool(true)] else t - {"enabled"};
            Settle(DeepMerge(item, u)) == Settle(DeepMerge(item, t))["enabled" := Bool(enabled || On(item))]
  {
    var u := if enabled && !On(item) then t["enabled" := Bool(true)] else t - {"enabled"};
    var a, b := Settle(DeepMerge(item, u)), Settle(DeepMerge(item, t))["enabled" := Bool(enabled || On(item))];
    assert a.Keys == b.Keys;
    forall k | k in a ensures a[k] == b[k] {
    }
  }

  lemma SwitchedCustom(slug: string, t: Fields, enabled: bool)
    requires "slug" !in t
    ensures CustomItem(slug, if enabled then t["enabled" := Bool(true)] else t - {"enabled"})
            == CustomItem(slug, t)["enabled" := Bool(enabled)]
  {
    var u := if enabled then t["enabled" := Bool(true)] else t - {"enabled"};
    var a, b := CustomItem(slug, u), CustomItem(slug, t)["enabled" := Bool(enabled)];
    assert a.Keys == b.Keys;
    forall k | k in a ensures a[k] == b[k] {
    }
  }

  /** An entry as it is found in memory: nothing, or fields that trimming leaves alone. */
  predicate Kept(kind: Kind, base: Option<Fields>, over: Option<Json>) {
    over.Some? ==>
      && over.value.Obj? && Trimmed(kind, base, over.value.fields)
      && (base.None? ==> Complete(kind, over.value.fields))
  }

  lemma LoadedIsKept(kind: Kind, items: seq<Fields>, entries: seq<Entry>, slug: string)
    requires Loaded(kind, items, entries)
    ensures Kept(kind, Base(items, slug), Lookup(entries, slug))
  {
    LoadedLookup(kind, items, entries, slug);
    var e, base := Lookup(entries, slug), Base(items, slug);
    if e.Some? {
      var value :| PruneEntry(kind, base, value) == e;
      TrimAgain(kind, base, value.fields);
      if base.None? {
        TrimKeepsComplete(kind, value.fields);
      }
      hide Trim, Complete;
    }
  }

  /** What an entry becomes when it is pruned and pruned again. */
  function Stored(kind: Kind, base: Option<Fields>, over: Option<Json>): Option<Json> {
    var once := if over.None? then None else PruneEntry(kind, base, over.value);
    if once.None? || once.value == Obj(map[]) then None else once
  }

  lemma StoredKept(kind: Kind, base: Option<Fields>, slug: string, over: Option<Json>)
    requires Kept(kind, base, over)
    ensures ResolveEntry(base, slug, Stored(kind, base, over)) == ResolveEntry(base, slug, over)
  {
    if over.Some? {
      if base.Some? {
        MergeNothing(base.value);
      } else {
        CustomNotEmpty(kind, over.value.fields);
      }
      hide Trim, Complete;
    }
  }

  /** What a switched entry is stored as, but for an empty one, which is not stored. */
  lemma SwitchedIsStored(kind: Kind, base: Option<Fields>, over: Option<Json>, enabled: bool)
    requires base.Some? ==> IsItem(kind, base.value)
    requires Kept(kind, base, over)
    ensures var t := CurrentFields(over);
            var u := if enabled && !(base.Some? && On(base.value)) then t["enabled" := Bool(true)] else t - {"enabled"};
            var stored := Stored(kind, base, Some(Obj(t["enabled" := Bool(enabled)])));
            && "slug" !in t
            && (base.Some? ==> stored == if u == map[] then None else Some(Obj(u)))
            && (base.None? ==> stored == if over.None? then None else Some(Obj(u)))
  {
    var t := CurrentFields(over);
    if over.None? {
      EmptyIsTrimmed(kind, base);
    }
    TrimSwitched(kind, base, t, enabled);
    TrimLosesSlug(kind, base, t);
    if base.None? && over.Some? {
      CustomNotEmpty(kind, t["enabled" := Bool(enabled)]);
    }
    hide Trim, On, IsItem;
  }

  /** Switching an entry and storing it changes `enabled` of the item it resolves to, and only that. */
  lemma StoredSwitched(kind: Kind, base: Option<Fields>, slug: string, over: Option<Json>, enabled: bool)
    requires base.Some? ==> IsItem(kind, base.value)
    requires Kept(kind, base, over)
    ensures var switched := Obj(CurrentFields(over)["enabled" := Bool(enabled)]);
            ResolveEntry(base, slug, Stored(kind, base, Some(switched)))
            == Switch(ResolveEntry(base, slug, over), enabled || (base.Some? && On(base.value)))
  {
    SwitchedIsStored(kind, base, over, enabled);
    if base.Some? {
      SwitchedMerges(kind, base.value, CurrentFields(over), enabled);
      MergeNothing(base.value);
    } else if over.Some? {
      SwitchedCustom(slug, CurrentFields(over), enabled);
    }
    hide Trimmed, On, IsItem, DeepMerge, CustomItem, Settle, Stored, Complete;
  }

  lemma EmptyIsTrimmed(kind: Kind, base: Option<Fields>)
    ensures Trimmed(kind, base, map[])
  {
  }

  /**
   * Switching one item and reloading: that item's `enabled` becomes what was asked, except that
   * an item the catalog enables stays on; an unknown slug still resolves to nothing; and no
   * other item changes.
   */
  lemma SwitchOne(kind: Kind, items: seq<Fields>, entries: seq<Entry>, slug: string, enabled: bool, other: string)
    requires IsCatalog(kind, items) && Loaded(kind, items, entries)
    ensures var after := Store(kind, items, SetEnabled(entries, slug, enabled));
            && Loaded(kind, items, after)
            && Resolve(items, after, other)
               == if other == slug then Switch(Resolve(items, entries, slug), enabled || BaseOn(items, slug))
                  else Resolve(items, entries, other)
  {
    LoadedLookup(kind, items, entries, slug);
    LoadedIsKept(kind, items, entries, other);
    var current := Lookup(entries, slug);
    var value := Obj(CurrentFields(current)["enabled" := Bool(enabled)]);
    var changed := SetEntry(entries, slug, value);
    LookupSet(entries, slug, value, other);
    StoreIsLoaded(kind, items, changed);
    LookupStored(kind, items, changed, other);
    hide ResolveEntry, Switch, Trimmed, Prune, PruneEntry, IsItem, Lookup, SetEntry, Loaded, Kept;
    var base := Base(items, other);
    if base.Some? {
      var i := BaseFound(items, other);
    }
    hide Base;
    if other == slug {
      StoredSwitched(kind, base, slug, current, enabled);
    } else {
      StoredKept(kind, base, other, Lookup(entries, other));
    }
  }

  lemma StoreIsLoaded(kind: Kind, items: seq<Fields>, entries: seq<Entry>)
    requires DistinctKeys(entries, SlugOf)
    ensures Loaded(kind, items, Store(kind, items, entries))
  {
    var once := Prune(kind, items, entries);
    PruneKeepsSlugs(kind, items, entries);
    SortElements(once, SlugOf);
    DistinctPermuted(once, SortBy(once, SlugOf), SlugOf);
  }

  /** Writing overrides back unchanged and reloading them changes no item. */
  lemma ReloadChangesNothing(kind: Kind, items: seq<Fields>, entries: seq<Entry>, slug: string)
    requires Loaded(kind, items, entries)
    ensures var after := Store(kind, items, entries);
            Loaded(kind, items, after) && Resolve(items, after, slug) == Resolve(items, entries, slug)
  {
    LoadedLookup(kind, items, entries, slug);
    LoadedIsKept(kind, items, entries, slug);
    StoreIsLoaded(kind, items, entries);
    LookupStored(kind, items, entries, slug);
    StoredKept(kind, Base(items, slug), slug, Lookup(entries, slug));
    hide ResolveEntry, Prune, PruneEntry, Lookup, Loaded, Kept, Base;
  }

  // Many changes

  /** Both kinds of item, as the catalog and as the overrides hold them. */
  datatype Catalog = Catalog(runners: seq<Fields>, presets: seq<Fields>) {
    function Items(kind: Kind): seq<Fields> {
      if kind.Runners? then runners else presets
    }
  }

  datatype Overrides = Overrides(runners: seq<Entry>, presets: seq<Entry>) {
    function Of(kind: Kind): seq<Entry> {
      if kind.Runners? then runners else presets
    }
  }

  datatype Change = Change(kind: Kind, slug: string, enabled: bool)

  ghost predicate Ready(catalog: Catalog, o: Overrides) {
    forall kind :: IsCatalog(kind, catalog.Items(kind)) && Loaded(kind, catalog.Items(kind), o.Of(kind))
  }

  /** Overrides read from a file whose keys are distinct are ready for changes. */
  lemma LoadingIsReady(catalog: Catalog, file: Overrides)
    requires forall kind :: IsCatalog(kind, catalog.Items(kind)) && DistinctKeys(file.Of(kind), SlugOf)
    ensures Ready(catalog, Overrides(Prune(Runners, catalog.runners, file.runners),
                                     Prune(Presets, catalog.presets, file.presets)))
  {
    hide Prune, IsCatalog, DistinctKeys;
    assert catalog.Items(Runners) == catalog.runners && catalog.Items(Presets) == catalog.presets;
    assert IsCatalog(Runners, catalog.Items(Runners)) && DistinctKeys(file.Of(Runners), SlugOf);
    assert IsCatalog(Presets, catalog.Items(Presets)) && DistinctKeys(file.Of(Presets), SlugOf);
  }

  /** A change sets one entry, but all overrides are written and loaded again. */
  function ApplyOne(catalog: Catalog, o: Overrides, c: Change): Overrides {
    Overrides(
      Store(Runners, catalog.runners, if c.kind.Runners? then SetEnabled(o.runners, c.slug, c.enabled) else o.runners),
      Store(Presets, catalog.presets, if c.kind.Presets? then SetEnabled(o.presets, c.slug, c.enabled) else o.presets))
  }

  function Apply(catalog: Catalog, o: Overrides, changes: seq<Change>): Overrides {
    if changes == [] then o
    else
      var n := |changes| - 1;
      ApplyOne(catalog, Apply(catalog, o, changes[..n]), changes[n])
  }

  /** The last thing asked of an item. */
  function LastAsked(changes: seq<Change>, kind: Kind, slug: string): Option<bool> {
    if changes == [] then None
    else
      var n := |changes| - 1;
      if changes[n].kind == kind && changes[n].slug == slug then Some(changes[n].enabled)
      else LastAsked(changes[..n], kind, slug)
  }

  lemma ApplyOneResolves(catalog: Catalog, o: Overrides, c: Change, kind: Kind, slug: string)
    requires Ready(catalog, o)
    ensures var items := catalog.Items(kind);
            var was := Resolve(items, o.Of(kind), slug);
            && Loaded(kind, items, ApplyOne(catalog, o, c).Of(kind))
            && Resolve(items, ApplyOne(catalog, o, c).Of(kind), slug)
               == if c.kind == kind && c.slug == slug then Switch(was, c.enabled || BaseOn(items, slug)) else was
  {
    assert IsCatalog(kind, catalog.Items(kind)) && Loaded(kind, catalog.Items(kind), o.Of(kind));
    hide Resolve, Store, SetEnabled, Loaded, IsCatalog, BaseOn, Switch;
    if c.kind == kind {
      SwitchOne(kind, catalog.Items(kind), o.Of(kind), c.slug, c.enabled, slug);
    } else {
      ReloadChangesNothing(kind, catalog.Items(kind), o.Of(kind), slug);
    }
  }

  lemma ApplyOneReady(catalog: Catalog, o: Overrides, c: Change)
    requires Ready(catalog, o)
    ensures Ready(catalog, ApplyOne(catalog, o, c))
  {
    hide ApplyOne, Loaded, IsCatalog;
    forall kind ensures Loaded(kind, catalog.Items(kind), ApplyOne(catalog, o, c).Of(kind)) {
      ApplyOneResolves(catalog, o, c, kind, "");
    }
  }

  /**
   * After any changes each item is as it was at the start, but for `enabled`, which is what was
   * asked of it last or stays on if the catalog enables it.
   */
  lemma {:induction false} ChangesResolve(
      catalog: Catalog, o: Overrides, changes: seq<Change>, kind: Kind, slug: string)
    requires Ready(catalog, o)
    ensures var items := catalog.Items(kind);
            var after := Apply(catalog, o, changes);
            var asked := LastAsked(changes, kind, slug);
            && Ready(catalog, after)
            && Resolve(items, after.Of(kind), slug)
               == if asked.None? then Resolve(items, o.Of(kind), slug)
                  else Switch(Resolve(items, o.Of(kind), slug), asked.value || BaseOn(items, slug))
  {
    hide Resolve, ApplyOne, Ready, BaseOn, Switch;
    if changes != [] {
      var n := |changes| - 1;
      var items, c := catalog.Items(kind), changes[n];
      ChangesResolve(catalog, o, changes[..n], kind, slug);
      ApplyOneResolves(catalog, Apply(catalog, o, changes[..n]), c, kind, slug);
      ApplyOneReady(catalog, Apply(catalog, o, changes[..n]), c);
      var before := LastAsked(changes[..n], kind, slug);
      if before.Some? {
        SwitchTwice(Resolve(items, o.Of(kind), slug), before.value || BaseOn(items, slug),
                    c.enabled || BaseOn(items, slug));
      }
    }
  }

  lemma SwitchTwice(item: Option<Fields>, a: bool, b: bool)
    ensures Switch(Switch(item, a), b) == Switch(item, b)
  {
    if item.Some? {
      assert item.value["enabled" := Bool(a)]["enabled" := Bool(b)] == item.value["enabled" := Bool(b)];
    }
  }
}
