/** The registry service: its overrides file, and the loops that prune, merge and demote. */
module Registry {
  import opened Faults
  import opened Ordering
  import opened JsonTrees
  import opened RegistrySpec
  import opened RegistryItems
  import opened RegistryUpdates
  import opened RegistryRuns

  /** One section of the overrides file: missing or empty, an object, or something else. */
  datatype Section = Nothing | Listed(entries: seq<Entry>) | NotAnObject

  /** The overrides file as it is found; it may not hold an object at all. */
  datatype OverridesFile = Unreadable | Sections(runners: Section, presets: Section)

  function EntriesOf(section: Section): Outcome<seq<Entry>> {
    match section
    case Nothing => Ok([])
    case Listed(entries) => Ok(entries)
    case NotAnObject => Fault("overrides_invalid", 500)
  }

  /** A file is usable unless it is no object, or a section of it is neither missing nor an object. */
  function Normalize(file: OverridesFile): (r: Outcome<Overrides>)
    ensures r.Ok? <==> file.Sections? && !file.runners.NotAnObject? && !file.presets.NotAnObject?
    ensures r.Ok? ==>
      && r.value.runners == (if file.runners.Listed? then file.runners.entries else [])
      && r.value.presets == (if file.presets.Listed? then file.presets.entries else [])
  {
    if file.Unreadable? then Fault("overrides_invalid", 500)
    else
      var runners :- EntriesOf(file.runners);
      var presets :- EntriesOf(file.presets);
      Ok(Overrides(runners, presets))
  }

  function PruneBoth(catalog: Catalog, o: Overrides): Overrides {
    Overrides(Prune(Runners, catalog.runners, o.runners), Prune(Presets, catalog.presets, o.presets))
  }

  function StoreBoth(catalog: Catalog, o: Overrides): Overrides {
    Overrides(Store(Runners, catalog.runners, o.runners), Store(Presets, catalog.presets, o.presets))
  }

  /** In a catalog of either kind, every override says what the merged item says, under every path. */
  ghost predicate OverridesArrive(items: seq<Fields>, entries: seq<Entry>, merged: seq<Fields>) {
    forall kind, i, j, path ::
      0 <= i < |items| && 0 <= j < |entries| && path != [] && Overriding(kind, items, entries, i, j) ==>
        i < |merged| && (path[0] != "enabled" ==> MergedAt(Obj(items[i]), entries[j].value, Obj(merged[i]), path))
  }

  /** Entry `j` is the override of item `i`. */
  ghost predicate Overriding(kind: Kind, items: seq<Fields>, entries: seq<Entry>, i: int, j: int)
    requires 0 <= i < |items| && 0 <= j < |entries|
  {
    && IsCatalog(kind, items) && DistinctKeys(entries, SlugOf)
    && items[i]["slug"] == Str(entries[j].slug) && entries[j].value.Obj?
  }

  lemma MergeArrives(items: seq<Fields>, entries: seq<Entry>)
    requires forall i :: 0 <= i < |items| ==> "slug" in items[i] && items[i]["slug"].Str?
    ensures OverridesArrive(items, entries, Merge(items, entries))
  {
    forall kind, i, j, path |
      0 <= i < |items| && 0 <= j < |entries| && path != [] && Overriding(kind, items, entries, i, j)
      ensures i < |Merge(items, entries)|
      ensures path[0] != "enabled" ==> MergedAt(Obj(items[i]), entries[j].value, Obj(Merge(items, entries)[i]), path)
    {
      assert |Merge(items, entries)| >= |items|;
      if path[0] != "enabled" {
        OverrideArrives(kind, items, entries, i, j, path);
      }
    }
  }

  class RegistryService {
    const catalog: Catalog
    /** Whether a merged item passes validation. */
    const valid: (Kind, Fields) -> bool
    var file: OverridesFile
    var overrides: Overrides
    var runners: seq<Fields>
    var presets: seq<Fields>

    /** A service with nothing loaded yet. */
    constructor (catalog: Catalog, valid: (Kind, Fields) -> bool, file: OverridesFile)
      requires IsCatalog(Runners, catalog.runners) && IsCatalog(Presets, catalog.presets)
      ensures this.catalog == catalog && this.valid == valid && this.file == file && Valid()
      ensures overrides == Overrides([], [])
    {
      this.catalog, this.valid, this.file := catalog, valid, file;
      overrides, runners, presets := Overrides([], []), [], [];
    }

    ghost predicate Valid() {
      IsCatalog(Runners, catalog.runners) && IsCatalog(Presets, catalog.presets)
    }

    /** Every merged item passes validation. */
    predicate Accepts(o: Overrides)
      requires Valid()
    {
      && (forall item :: item in Merge(catalog.runners, o.runners) ==> valid(Runners, item))
      && (forall item :: item in Merge(catalog.presets, o.presets) ==> valid(Presets, item))
    }

    /** The lists shown are the merge of the catalog and the overrides in memory. */
    ghost predicate Shown()
      reads this
    {
      && Valid()
      && runners == Merge(catalog.runners, overrides.runners)
      && presets == Merge(catalog.presets, overrides.presets)
    }

    method PruneConfigOverrides(base: Fields, over: Fields) returns (cleaned: Fields)
      ensures cleaned == PruneConfig(base, over)
    {
      cleaned := over;
      var keys := over.Keys;
      while keys != {}
        invariant keys <= over.Keys
        invariant cleaned == over - EqualKeys(base, over, over.Keys - keys)
        decreases keys
      {
        var key :| key in keys;
        keys := keys - {key};
        if key in base && Eq(cleaned[key], base[key]) {
          cleaned := cleaned - {key};
        }
      }
      assert over.Keys - {} == over.Keys;
    }

    method PruneFields(base: Fields, over: Fields, keys: set<string>) returns (cleaned: Fields)
      ensures cleaned == over - EqualKeys(base, over, keys)
    {
      cleaned := over;
      var rest := keys;
      while rest != {}
        invariant rest <= keys
        invariant cleaned == over - EqualKeys(base, over, keys - rest)
        decreases rest
      {
        var key :| key in rest;
        rest := rest - {key};
        if key in cleaned && key in base && Eq(cleaned[key], base[key]) {
          cleaned := cleaned - {key};
        }
      }
      assert keys - {} == keys;
    }

    method PruneOne(kind: Kind, base: Option<Fields>, value: Json) returns (kept: Option<Json>)
      ensures kept == PruneEntry(kind, base, value)
    {
      if !value.Obj? {
        return None;
      }
      var over := value.fields;
      if base.None? && !Complete(kind, over) {
        return None;
      }
      var explicitDisable := ExplicitlyOff(over);
      var entry := over - {"slug"};
      if "enabled" in entry && entry["enabled"] == Bool(false) {
        entry := entry - {"enabled"};
      }
      assert entry == WithoutSlug(over);
      if base.Some? {
        entry := PruneFields(base.value, entry, Compared(kind));
        if kind.Presets? && "config" in entry && entry["config"].Obj? {
          var config := PruneConfigOverrides(ConfigOf(base.value), entry["config"].fields);
          entry := if config == map[] then entry - {"config"} else entry["config" := Obj(config)];
        }
      }
      assert entry == Trim(kind, base, over);
      if entry == map[] && !(explicitDisable && base.Some? && On(base.value)) {
        return None;
      }
      return Some(Obj(entry));
    }

    method PruneOverrides(kind: Kind, items: seq<Fields>, entries: seq<Entry>) returns (cleaned: seq<Entry>)
      ensures cleaned == Prune(kind, items, entries)
    {
      cleaned := [];
      for n := 0 to |entries|
        invariant cleaned == Prune(kind, items, entries[..n])
      {
        var e := entries[n];
        assert entries[..n + 1][..n] == entries[..n];
        var kept := PruneOne(kind, Base(items, e.slug), e.value);
        if kept.Some? {
          cleaned := cleaned + [Entry(e.slug, kept.value)];
        }
      }
      assert entries[..|entries|] == entries;
    }

    method MergeBySlug(items: seq<Fields>, entries: seq<Entry>) returns (merged: seq<Fields>)
      requires forall i :: 0 <= i < |items| ==> "slug" in items[i] && items[i]["slug"].Str?
      ensures merged == Merge(items, entries)
      ensures OverridesArrive(items, entries, merged)
    {
      MergeArrives(items, entries);
      merged := [];
      hide MergeItem, CustomItem, Lookup, Base;
      for n := 0 to |items|
        invariant |merged| == n
        invariant forall i :: 0 <= i < n ==> merged[i] == MergeItem(items[i], Lookup(entries, items[i]["slug"].s))
      {
        merged := merged + [MergeItem(items[n], Lookup(entries, items[n]["slug"].s))];
      }
      assert merged == MergedBase(items, entries);
      var customs: seq<Fields> := [];
      for n := 0 to |entries|
        invariant customs == Customs(items, entries[..n])
      {
        var e := entries[n];
        assert entries[..n + 1][..n] == entries[..n];
        if e.value.Obj? && Base(items, e.slug).None? {
          customs := customs + [CustomItem(e.slug, e.value.fields)];
        }
      }
      assert entries[..|entries|] == entries;
      merged := merged + customs;
    }

    method Validated(kind: Kind, items: seq<Fields>) returns (ok: bool)
      ensures ok <==> forall item :: item in items ==> valid(kind, item)
    {
      for n := 0 to |items|
        invariant forall i :: 0 <= i < n ==> valid(kind, items[i])
      {
        if !valid(kind, items[n]) {
          return false;
        }
      }
      return true;
    }

    /**
     * Reads the file, prunes what it holds and merges it. A malformed file, or merged items that
     * do not pass validation, leave everything in memory as it was.
     */
    method Load() returns (r: Outcome<()>)
      requires Valid()
      modifies this`overrides, this`runners, this`presets
      ensures r.Ok? <==> Normalize(file).Ok? && Accepts(PruneBoth(catalog, Normalize(file).value))
      ensures r.Ok? ==> overrides == PruneBoth(catalog, Normalize(file).value) && Shown()
      ensures r.Fault? ==> overrides == old(overrides) && runners == old(runners) && presets == old(presets)
    {
      var read := Normalize(file);
      if read.Fault? {
        return Fault(read.code, read.status);
      }
      var keptRunners := PruneOverrides(Runners, catalog.runners, read.value.runners);
      var keptPresets := PruneOverrides(Presets, catalog.presets, read.value.presets);
      var mergedRunners := MergeBySlug(catalog.runners, keptRunners);
      var mergedPresets := MergeBySlug(catalog.presets, keptPresets);
      hide Prune, Merge;
      var runnersValid := Validated(Runners, mergedRunners);
      var presetsValid := Validated(Presets, mergedPresets);
      if !runnersValid || !presetsValid {
        return Fault("catalog_invalid", 500);
      }
      overrides, runners, presets := Overrides(keptRunners, keptPresets), mergedRunners, mergedPresets;
      return Ok(());
    }

    /**
     * Prunes, writes the file with sorted keys, and loads it again. When the merged items do not
     * pass validation the file has been written all the same.
     */
    method WriteOverrides(changed: Overrides) returns (r: Outcome<()>)
      requires Valid()
      modifies this
      ensures Normalize(file).Ok? && PruneBoth(catalog, Normalize(file).value) == StoreBoth(catalog, changed)
      ensures file.Sections? && file.runners.Listed? && file.presets.Listed?
      ensures DistinctKeys(changed.runners, SlugOf) ==> StrictlySorted(file.runners.entries, SlugOf)
      ensures DistinctKeys(changed.presets, SlugOf) ==> StrictlySorted(file.presets.entries, SlugOf)
      ensures r.Ok? <==> Accepts(StoreBoth(catalog, changed))
      ensures r.Ok? ==> overrides == StoreBoth(catalog, changed) && Shown()
      ensures r.Fault? ==> overrides == old(overrides) && runners == old(runners) && presets == old(presets)
    {
      var keptRunners := PruneOverrides(Runners, catalog.runners, changed.runners);
      var keptPresets := PruneOverrides(Presets, catalog.presets, changed.presets);
      file := Sections(Listed(SortBy(keptRunners, SlugOf)), Listed(SortBy(keptPresets, SlugOf)));
      if DistinctKeys(changed.runners, SlugOf) {
        PruneKeepsSlugs(Runners, catalog.runners, changed.runners);
        SortStrict(keptRunners, SlugOf);
      }
      if DistinctKeys(changed.presets, SlugOf) {
        PruneKeepsSlugs(Presets, catalog.presets, changed.presets);
        SortStrict(keptPresets, SlugOf);
      }
      hide Prune, Merge, DistinctKeys, StrictlySorted;
      r := Load();
    }

    method SetRunner(slug: string, enabled: bool) returns (r: Outcome<()>)
      requires Valid()
      modifies this
      ensures r.Ok? <==> Accepts(ApplyOne(catalog, old(overrides), Change(Runners, slug, enabled)))
      ensures r.Ok? ==> overrides == ApplyOne(catalog, old(overrides), Change(Runners, slug, enabled)) && Shown()
      ensures r.Fault? ==> overrides == old(overrides)
    {
      r := WriteOverrides(overrides.(runners := SetEnabled(overrides.runners, slug, enabled)));
    }

    method SetPreset(slug: string, enabled: bool) returns (r: Outcome<()>)
      requires Valid()
      modifies this
      ensures r.Ok? <==> Accepts(ApplyOne(catalog, old(overrides), Change(Presets, slug, enabled)))
      ensures r.Ok? ==> overrides == ApplyOne(catalog, old(overrides), Change(Presets, slug, enabled)) && Shown()
      ensures r.Fault? ==> overrides == old(overrides)
    {
      r := WriteOverrides(overrides.(presets := SetEnabled(overrides.presets, slug, enabled)));
    }
  }

  // Demotion

  datatype Runner = Runner(slug: string, category: Option<string>, enabled: bool)

  /** A preset as merged and validated; only `enabled` changes. */
  class PresetSetting {
    const slug: string
    const category: Option<string>
    const runner: string
    var enabled: bool

    constructor (slug: string, category: Option<string>, runner: string, enabled: bool)
      ensures this.slug == slug && this.category == category && this.runner == runner && this.enabled == enabled
    {
      this.slug, this.category, this.runner, this.enabled := slug, category, runner, enabled;
    }
  }

  /** Enabled runners by slug; a later one replaces an earlier one of the same slug. */
  function EnabledRunners(runners: seq<Runner>): map<string, Runner> {
    if runners == [] then map[]
    else
      var n := |runners| - 1;
      var before := EnabledRunners(runners[..n]);
      if runners[n].enabled then before[runners[n].slug := runners[n]] else before
  }

  predicate Named(category: Option<string>) {
    category.Some? && category.value != ""
  }

  ghost predicate Fallback(enabled: map<string, Runner>, category: Option<string>) {
    exists slug :: slug in enabled && enabled[slug].category == category
  }

  /** Whether an enabled preset stays enabled. */
  ghost predicate Stays(enabled: map<string, Runner>, category: Option<string>, runner: string) {
    if runner !in enabled then Named(category) && Fallback(enabled, category)
    else Named(category) ==> enabled[runner].category == category
  }

  method CategoriesOf(enabled: map<string, Runner>) returns (categories: set<string>)
    ensures forall c :: c in categories <==> c != "" && Fallback(enabled, Some(c))
  {
    categories := {};
    var rest := enabled.Keys;
    while rest != {}
      invariant rest <= enabled.Keys
      invariant forall c :: c in categories <==>
        c != "" && exists slug :: slug in enabled.Keys - rest && enabled[slug].category == Some(c)
      decreases rest
    {
      var slug :| slug in rest;
      rest := rest - {slug};
      if Named(enabled[slug].category) {
        categories := categories + {enabled[slug].category.value};
      }
    }
  }

  /** Switches off, in place, the presets that no enabled runner can serve. */
  method Demote(runners: seq<Runner>, presets: seq<PresetSetting>)
    requires forall i, j :: 0 <= i < j < |presets| ==> presets[i] != presets[j]
    modifies set i | 0 <= i < |presets| :: presets[i]
    ensures forall i :: 0 <= i < |presets| ==>
      (presets[i].enabled <==>
        old(presets[i].enabled) && Stays(EnabledRunners(runners), presets[i].category, presets[i].runner))
  {
    var enabled: map<string, Runner> := map[];
    for n := 0 to |runners|
      invariant enabled == EnabledRunners(runners[..n])
    {
      assert runners[..n + 1][..n] == runners[..n];
      if runners[n].enabled {
        enabled := enabled[runners[n].slug := runners[n]];
      }
    }
    assert runners[..|runners|] == runners;
    var categories := CategoriesOf(enabled);
    hide EnabledRunners, Fallback;
    for n := 0 to |presets|
      invariant forall i :: n <= i < |presets| ==> presets[i].enabled == old(presets[i].enabled)
      invariant forall i :: 0 <= i < n ==>
        (presets[i].enabled <==> old(presets[i].enabled) && Stays(enabled, presets[i].category, presets[i].runner))
    {
      var preset := presets[n];
      if preset.enabled {
        if preset.runner !in enabled {
          if !(Named(preset.category) && preset.category.value in categories) {
            preset.enabled := false;
          }
        } else if Named(preset.category) && enabled[preset.runner].category != preset.category {
          preset.enabled := false;
        }
      }
    }
  }

  lemma {:induction false} EnabledRunnersExact(runners: seq<Runner>, slug: string)
    ensures slug in EnabledRunners(runners) <==>
            exists i :: 0 <= i < |runners| && runners[i].enabled && runners[i].slug == slug
    ensures slug in EnabledRunners(runners) ==>
            EnabledRunners(runners)[slug] in runners && EnabledRunners(runners)[slug].enabled
            && EnabledRunners(runners)[slug].slug == slug
  {
    if runners != [] {
      var n := |runners| - 1;
      EnabledRunnersExact(runners[..n], slug);
      assert forall i :: 0 <= i < n ==> runners[..n][i] == runners[i];
    }
  }

  ghost predicate HasRunner(runners: seq<Runner>, slug: string) {
    exists i :: 0 <= i < |runners| && runners[i].enabled && runners[i].slug == slug
  }

  ghost predicate HasCategory(runners: seq<Runner>, category: Option<string>) {
    exists i :: 0 <= i < |runners| && runners[i].enabled && runners[i].category == category
  }

  predicate DistinctRunners(runners: seq<Runner>) {
    forall i, j :: 0 <= i < j < |runners| ==> runners[i].slug != runners[j].slug
  }

  /**
   * A preset that stays is served: one with a category has an enabled runner of that category,
   * one without has its own runner enabled.
   */
  lemma StayingIsServed(runners: seq<Runner>, category: Option<string>, runner: string)
    requires Stays(EnabledRunners(runners), category, runner)
    ensures if category.Some? && category.value != "" then HasCategory(runners, category)
            else HasRunner(runners, runner)
  {
    var enabled := EnabledRunners(runners);
    EnabledRunnersExact(runners, runner);
    if runner !in enabled {
      var slug :| slug in enabled && enabled[slug].category == category;
      EnabledRunnersExact(runners, slug);
    }
    hide EnabledRunners;
  }

  /**
   * Without a category a preset stays just when its runner is enabled. With one, it stays just
   * when some enabled runner has the category and its own, if enabled, is not of another.
   */
  lemma StaysExactly(runners: seq<Runner>, category: Option<string>, runner: string)
    requires DistinctRunners(runners)
    ensures Stays(EnabledRunners(runners), category, runner) <==>
            if category.Some? && category.value != "" then
              HasCategory(runners, category)
              && forall i :: 0 <= i < |runners| && runners[i].enabled && runners[i].slug == runner ==>
                               runners[i].category == category
            else HasRunner(runners, runner)
  {
    var enabled := EnabledRunners(runners);
    EnabledRunnersExact(runners, runner);
    if Stays(enabled, category, runner) {
      StayingIsServed(runners, category, runner);
    }
    if Named(category) && HasCategory(runners, category) {
      var i :| 0 <= i < |runners| && runners[i].enabled && runners[i].category == category;
      EnabledRunnersExact(runners, runners[i].slug);
      assert enabled[runners[i].slug] == runners[i];
    }
    hide EnabledRunners;
  }
}
