/** The runner and preset registry: a catalog, and overrides kept as small as they can be. */
module RegistrySpec {
  import opened Faults
  import opened Ordering
  import opened JsonTrees

  datatype Kind = Runners | Presets

  /** One entry of the overrides object, in the order the object lists them. */
  datatype Entry = Entry(slug: string, value: Json)

  function SlugOf(e: Entry): string {
    e.slug
  }

  /** The fields whose override is dropped when it equals the catalog's value. */
  function Compared(kind: Kind): set<string> {
    if kind.Runners? then {"name", "category", "image", "enabled"} else {"name", "category", "enabled"}
  }

  /** A catalog item as dumped: every field is there, and it is enabled, disabled or neither. */
  predicate IsItem(kind: Kind, item: Fields) {
    && "slug" in item && item["slug"].Str?
    && Compared(kind) <= item.Keys
    && (item["enabled"].Bool? || item["enabled"].Null?)
    && (kind.Presets? ==> "config" in item && item["config"].Obj?)
  }

  /** A catalog whose items have distinct slugs. */
  predicate IsCatalog(kind: Kind, items: seq<Fields>) {
    && (forall i :: 0 <= i < |items| ==> IsItem(kind, items[i]))
    && (forall i, j :: 0 <= i < j < |items| ==> items[i]["slug"] != items[j]["slug"])
  }

  predicate On(item: Fields) {
    "enabled" in item && item["enabled"] == Bool(true)
  }

  predicate ExplicitlyOff(over: Fields) {
    "enabled" in over && over["enabled"] == Bool(false)
  }

  function Lookup(entries: seq<Entry>, slug: string): Option<Json> {
    if entries == [] then None
    else
      var n := |entries| - 1;
      if entries[n].slug == slug then Some(entries[n].value) else Lookup(entries[..n], slug)
  }

  function Base(items: seq<Fields>, slug: string): Option<Fields> {
    if items == [] then None
    else
      var n := |items| - 1;
      if "slug" in items[n] && items[n]["slug"] == Str(slug) then Some(items[n]) else Base(items[..n], slug)
  }

  // Merging

  /** An item without a say on `enabled` is disabled. */
  function Settle(item: Fields): Fields {
    if "enabled" !in item || item["enabled"].Null? then item["enabled" := Bool(false)] else item
  }

  function MergeItem(item: Fields, over: Option<Json>): Fields {
    Settle(if over.Some? && over.value.Obj? then DeepMerge(item, over.value.fields) else item)
  }

  function CustomItem(slug: string, over: Fields): Fields {
    Settle(if "slug" in over then over else over["slug" := Str(slug)])
  }

  function Customs(items: seq<Fields>, entries: seq<Entry>): seq<Fields> {
    if entries == [] then []
    else
      var n := |entries| - 1;
      var e := entries[n];
      var rest := Customs(items, entries[..n]);
      if e.value.Obj? && Base(items, e.slug).None? then rest + [CustomItem(e.slug, e.value.fields)] else rest
  }

  function MergedBase(items: seq<Fields>, entries: seq<Entry>): seq<Fields>
    requires forall i :: 0 <= i < |items| ==> "slug" in items[i] && items[i]["slug"].Str?
  {
    seq(|items|, i requires 0 <= i < |items| => MergeItem(items[i], Lookup(entries, items[i]["slug"].s)))
  }

  /** Catalog items in order, each with its override, and then the entries of no catalog item. */
  function Merge(items: seq<Fields>, entries: seq<Entry>): seq<Fields>
    requires forall i :: 0 <= i < |items| ==> "slug" in items[i] && items[i]["slug"].Str?
  {
    MergedBase(items, entries) + Customs(items, entries)
  }

  // Pruning

  function RequiredConfig(): set<string> {
    {"runner", "build_command", "pre_deploy_command", "start_command", "logo"}
  }

  /** Whether an entry of no catalog item holds enough to stand on its own. */
  predicate Complete(kind: Kind, over: Fields) {
    match kind
    case Runners => {"name", "image", "category"} <= over.Keys
    case Presets => "config" in over && over["config"].Obj? && RequiredConfig() <= over["config"].fields.Keys
  }

  function PruneConfig(base: Fields, over: Fields): Fields {
    over - EqualKeys(base, over, over.Keys)
  }

  /** The keys among `keys` on which the override says what the base says. */
  function EqualKeys(base: Fields, over: Fields, keys: set<string>): set<string> {
    set k | k in keys && k in over && k in base && Eq(over[k], base[k])
  }

  function WithoutSlug(over: Fields): Fields {
    if ExplicitlyOff(over) then over - {"slug", "enabled"} else over - {"slug"}
  }

  function TrimConfig(kind: Kind, base: Fields, over: Fields): Fields {
    if kind.Presets? && "config" in over && over["config"].Obj? then
      var c := PruneConfig(ConfigOf(base), over["config"].fields);
      if c == map[] then over - {"config"} else over["config" := Obj(c)]
    else over
  }

  function ConfigOf(base: Fields): Fields {
    if "config" in base && base["config"].Obj? then base["config"].fields else map[]
  }

  function Trim(kind: Kind, base: Option<Fields>, over: Fields): Fields {
    var bare := WithoutSlug(over);
    if base.None? then bare
    else TrimConfig(kind, base.value, bare - EqualKeys(base.value, bare, Compared(kind)))
  }

  /** What is kept of an entry; an empty object only marks that an enabled item was disabled. */
  function PruneEntry(kind: Kind, base: Option<Fields>, value: Json): (kept: Option<Json>) {
    if !value.Obj? || (base.None? && !Complete(kind, value.fields)) then None
    else
      var entry := Trim(kind, base, value.fields);
      if entry == map[] && !(ExplicitlyOff(value.fields) && base.Some? && On(base.value)) then None
      else Some(Obj(entry))
  }

  function Prune(kind: Kind, items: seq<Fields>, entries: seq<Entry>): seq<Entry> {
    if entries == [] then []
    else
      var n := |entries| - 1;
      var e := entries[n];
      var kept := PruneEntry(kind, Base(items, e.slug), e.value);
      var rest := Prune(kind, items, entries[..n]);
      if kept.Some? then rest + [Entry(e.slug, kept.value)] else rest
  }

  // Changing and reloading

  /** The overrides object with one key set; a new key goes last. */
  function SetEntry(entries: seq<Entry>, slug: string, value: Json): seq<Entry> {
    if entries == [] then [Entry(slug, value)]
    else if entries[0].slug == slug then [Entry(slug, value)] + entries[1..]
    else [entries[0]] + SetEntry(entries[1..], slug, value)
  }

  function SetEnabled(entries: seq<Entry>, slug: string, enabled: bool): seq<Entry> {
    var current := Lookup(entries, slug);
    var fields := if current.Some? && current.value.Obj? then current.value.fields else map[];
    SetEntry(entries, slug, Obj(fields["enabled" := Bool(enabled)]))
  }

  /** Overrides are pruned, written with sorted keys, read back and pruned again. */
  function Store(kind: Kind, items: seq<Fields>, entries: seq<Entry>): seq<Entry> {
    Prune(kind, items, SortBy(Prune(kind, items, entries), SlugOf))
  }
}
