/** The merged items and the kept overrides, field by field, in terms of the catalog and the file. */
module RegistryItems {
  import opened Faults
  import opened Ordering
  import opened JsonTrees
  import opened RegistrySpec
  import opened RegistryMeaning

  // Catalog items

  lemma SettledAt(item: Fields, path: seq<string>)
    requires path != [] && path[0] != "enabled"
    ensures At(Obj(Settle(item)), path) == At(Obj(item), path)
  {
  }

  /**
   * Under every path but its `enabled`, a merged catalog item says what its override says where
   * that says anything, and what the catalog says elsewhere.
   */
  lemma OverrideArrives(kind: Kind, items: seq<Fields>, entries: seq<Entry>, i: nat, j: nat, path: seq<string>)
    requires IsCatalog(kind, items) && DistinctKeys(entries, SlugOf)
    requires i < |items| && j < |entries| && items[i]["slug"] == Str(entries[j].slug) && entries[j].value.Obj?
    requires path != [] && path[0] != "enabled"
    ensures i < |Merge(items, entries)|
    ensures MergedAt(Obj(items[i]), entries[j].value, Obj(Merge(items, entries)[i]), path)
  {
    LookupAt(entries, j);
    MergePaths(items[i], entries[j].value.fields, path);
    SettledAt(DeepMerge(items[i], entries[j].value.fields), path);
    hide DeepMerge, Settle, Lookup, At, Blocked, Customs;
  }

  /** Its keys are those of both, and `enabled` is the override's if it has one, else the catalog's. */
  lemma OverrideSwitches(kind: Kind, items: seq<Fields>, entries: seq<Entry>, i: nat, j: nat)
    requires IsCatalog(kind, items) && DistinctKeys(entries, SlugOf)
    requires i < |items| && j < |entries| && items[i]["slug"] == Str(entries[j].slug) && entries[j].value.Obj?
    ensures i < |Merge(items, entries)|
    ensures var item, over, merged := items[i], entries[j].value.fields, Merge(items, entries)[i];
            && merged.Keys == item.Keys + over.Keys
            && merged["enabled"] == if "enabled" in over then
                 if over["enabled"].Null? then Bool(false) else over["enabled"]
               else Bool(item["enabled"] == Bool(true))
  {
    LookupAt(entries, j);
    hide Lookup, Customs;
  }

  /** A catalog item that nothing overrides is as in the catalog, and off unless that enables it. */
  lemma NotOverridden(kind: Kind, items: seq<Fields>, entries: seq<Entry>, i: nat)
    requires IsCatalog(kind, items) && DistinctKeys(entries, SlugOf) && i < |items|
    requires forall j :: 0 <= j < |entries| && items[i]["slug"] == Str(entries[j].slug) ==> !entries[j].value.Obj?
    ensures i < |Merge(items, entries)|
    ensures Merge(items, entries)[i] == items[i]["enabled" := Bool(items[i]["enabled"] == Bool(true))]
  {
    var slug := items[i]["slug"].s;
    LookupNone(entries, slug);
    if j :| 0 <= j < |entries| && entries[j].slug == slug {
      LookupAt(entries, j);
    }
    hide Lookup, Customs;
    assert items[i]["enabled" := items[i]["enabled"]] == items[i];
  }

  // Items of no catalog entry

  predicate NoItem(items: seq<Fields>, slug: string) {
    forall i :: 0 <= i < |items| ==> !("slug" in items[i] && items[i]["slug"] == Str(slug))
  }

  lemma {:induction false} BaseNone(items: seq<Fields>, slug: string)
    ensures Base(items, slug).None? <==> NoItem(items, slug)
  {
    if items != [] {
      var n := |items| - 1;
      BaseNone(items[..n], slug);
      assert forall i :: 0 <= i < n ==> items[..n][i] == items[i];
    }
  }

  /** An override standing on its own: its fields, with a slug and an `enabled` of some kind. */
  predicate StandsFor(slug: string, over: Fields, item: Fields) {
    && item.Keys == over.Keys + {"slug", "enabled"}
    && (forall k :: k in over && k != "enabled" ==> item[k] == over[k])
    && ("slug" !in over ==> item["slug"] == Str(slug))
    && item["enabled"] == if "enabled" !in over || over["enabled"].Null? then Bool(false) else over["enabled"]
  }

  /** The positions of the flags that are set, in increasing order. */
  ghost predicate Positions(from: seq<nat>, flags: seq<bool>) {
    && (forall p :: 0 <= p < |from| ==> from[p] < |flags|)
    && (forall p, q :: 0 <= p < q < |from| ==> from[p] < from[q])
    && (forall j :: 0 <= j < |flags| ==> (j in from <==> flags[j]))
  }

  lemma PositionsStep(from: seq<nat>, flags: seq<bool>, flag: bool)
    requires Positions(from, flags)
    ensures Positions(if flag then from + [|flags|] else from, flags + [flag])
    ensures forall p :: 0 <= p < |from| ==> from[p] < |flags|
  {
    var more := if flag then from + [|flags|] else from;
    assert |flags| !in from;
    forall j | 0 <= j < |flags| ensures j in more <==> (flags + [flag])[j] {
    }
  }

  /** Which entries are objects under slugs the catalog does not have. */
  function OwnItems(items: seq<Fields>, entries: seq<Entry>): seq<bool> {
    seq(|entries|, j requires 0 <= j < |entries| => entries[j].value.Obj? && NoItem(items, entries[j].slug))
  }

  lemma OwnItemsStep(items: seq<Fields>, entries: seq<Entry>)
    requires entries != []
    ensures var n := |entries| - 1;
            OwnItems(items, entries) == OwnItems(items, entries[..n]) + [OwnItems(items, entries)[n]]
  {
    hide NoItem;
  }

  lemma CustomsStep(items: seq<Fields>, entries: seq<Entry>)
    requires entries != []
    ensures var n := |entries| - 1;
            var e, rest, all := entries[n], Customs(items, entries[..n]), Customs(items, entries);
            if OwnItems(items, entries)[n] then
              |all| == |rest| + 1 && all[..|rest|] == rest && StandsFor(e.slug, e.value.fields, all[|rest|])
            else all == rest
  {
    hide Base, NoItem, CustomItem, StandsFor;
    var e := entries[|entries| - 1];
    BaseNone(items, e.slug);
    if e.value.Obj? {
      CustomStandsFor(e.slug, e.value.fields);
    }
  }

  /** The items stand for the entries at these positions. */
  ghost predicate AllStand(entries: seq<Entry>, from: seq<nat>, customs: seq<Fields>) {
    && |customs| == |from|
    && forall p :: 0 <= p < |from| ==>
         && from[p] < |entries| && entries[from[p]].value.Obj?
         && StandsFor(entries[from[p]].slug, entries[from[p]].value.fields, customs[p])
  }

  lemma OneMoreStands(entries: seq<Entry>, from: seq<nat>, customs: seq<Fields>, more: seq<Fields>)
    requires entries != [] && AllStand(entries[..|entries| - 1], from, customs)
    ensures AllStand(entries, from, customs)
    ensures var e := entries[|entries| - 1];
            var one := |more| == |customs| + 1 && more[..|customs|] == customs && e.value.Obj?;
            one && StandsFor(e.slug, e.value.fields, more[|customs|]) ==>
              AllStand(entries, from + [|entries| - 1], more)
  {
    hide StandsFor;
    forall p | 0 <= p < |from| ensures entries[from[p]] == entries[..|entries| - 1][from[p]] {
    }
    if |more| == |customs| + 1 && more[..|customs|] == customs {
      forall p | 0 <= p < |from| ensures more[p] == customs[p] {
        assert more[p] == more[..|customs|][p];
      }
    }
  }

  /** After the catalog's items come the objects under slugs it does not have, in their order. */
  lemma {:induction false} CustomsListed(items: seq<Fields>, entries: seq<Entry>) returns (from: seq<nat>)
    ensures Positions(from, OwnItems(items, entries)) && AllStand(entries, from, Customs(items, entries))
  {
    if entries == [] {
      from := [];
    } else {
      var n := |entries| - 1;
      var before := CustomsListed(items, entries[..n]);
      var flag := OwnItems(items, entries)[n];
      assert flag ==> entries[n].value.Obj?;
      hide AllStand, StandsFor, Positions, Customs, NoItem;
      CustomsStep(items, entries);
      OwnItemsStep(items, entries);
      hide OwnItems;
      PositionsStep(before, OwnItems(items, entries[..n]), flag);
      OneMoreStands(entries, before, Customs(items, entries[..n]), Customs(items, entries));
      from := if flag then before + [n] else before;
    }
  }

  lemma CustomStandsFor(slug: string, over: Fields)
    ensures StandsFor(slug, over, CustomItem(slug, over))
  {
  }

  /** The merged list: the catalog's items in order, and then those. */
  lemma MergeListed(kind: Kind, items: seq<Fields>, entries: seq<Entry>) returns (from: seq<nat>)
    requires IsCatalog(kind, items)
    ensures Positions(from, OwnItems(items, entries)) && |Merge(items, entries)| == |items| + |from|
    ensures AllStand(entries, from, Merge(items, entries)[|items|..])
  {
    from := CustomsListed(items, entries);
    assert |Customs(items, entries)| == |from|;
    hide AllStand, Positions, Customs, MergeItem;
    assert Merge(items, entries)[|items|..] == Customs(items, entries);
  }

  // Kept overrides

  /** A field of a preset's configuration that says what the catalog's says. */
  predicate RepeatsConfig(base: Fields, theirs: Fields, c: string)
    requires c in theirs
  {
    "config" in base && base["config"].Obj? && c in base["config"].fields && Eq(theirs[c], base["config"].fields[c])
  }

  /** A field that says what the catalog says; of a preset's configuration, all of it has to. */
  predicate RepeatsItem(kind: Kind, base: Fields, over: Fields, k: string)
    requires k in over
  {
    || ((k == "name" || k == "category" || k == "enabled" || (k == "image" && kind.Runners?))
        && k in base && Eq(over[k], base[k]))
    || (kind.Presets? && k == "config" && over[k].Obj?
        && forall c :: c in over[k].fields ==> RepeatsConfig(base, over[k].fields, c))
  }

  /** A field that pruning keeps: not the slug, not an explicit false, and nothing the catalog says too. */
  predicate Survives(kind: Kind, base: Option<Fields>, over: Fields, k: string) {
    && k in over && k != "slug" && !(k == "enabled" && over[k] == Bool(false))
    && (base.Some? ==> !RepeatsItem(kind, base.value, over, k))
  }

  /** An override of no catalog item has to say enough. */
  predicate SaysEnough(kind: Kind, over: Fields) {
    if kind.Runners? then "name" in over && "image" in over && "category" in over
    else
      && "config" in over && over["config"].Obj?
      && {"runner", "build_command", "pre_deploy_command", "start_command", "logo"} <= over["config"].fields.Keys
  }

  /** What is left of a field: all of it, or of a preset's configuration what is not repeated. */
  ghost predicate LeftOf(kind: Kind, base: Option<Fields>, over: Fields, k: string, left: Json)
    requires k in over
  {
    if base.Some? && kind.Presets? && k == "config" && over[k].Obj? then
      && left.Obj?
      && (forall c :: c in left.fields <==> c in over[k].fields && !RepeatsConfig(base.value, over[k].fields, c))
      && (forall c :: c in left.fields ==> left.fields[c] == over[k].fields[c])
    else left == over[k]
  }

  lemma TrimConfigLeaves(kind: Kind, base: Fields, over: Fields, k: string)
    ensures var t := TrimConfig(kind, base, over);
            var gone := k in over && kind.Presets? && k == "config" && over[k].Obj?
                        && forall c :: c in over[k].fields ==> RepeatsConfig(base, over[k].fields, c);
            (k in t <==> k in over && !gone) && (k in t ==> LeftOf(kind, Some(base), over, k, t[k]))
  {
    if kind.Presets? && "config" in over && over["config"].Obj? {
      var theirs := over["config"].fields;
      var left := PruneConfig(ConfigOf(base), theirs);
      forall c ensures c in left <==> c in theirs && !RepeatsConfig(base, theirs, c) {
      }
      if c :| c in theirs && !RepeatsConfig(base, theirs, c) {
        assert c in left;
      } else {
        assert left == map[];
      }
    }
  }

  lemma TrimLeaves(kind: Kind, base: Option<Fields>, over: Fields, k: string)
    ensures var t := Trim(kind, base, over);
            (k in t <==> Survives(kind, base, over, k)) && (k in t ==> LeftOf(kind, base, over, k, t[k]))
  {
    if base.Some? {
      var bare := WithoutSlug(over);
      var kept := bare - EqualKeys(base.value, bare, Compared(kind));
      TrimConfigLeaves(kind, base.value, kept, k);
      hide TrimConfig, Eq;
    }
  }

  /**
   * An override is kept exactly when it is an object that says enough and has a field left, or
   * switches off what the catalog enables; and exactly those fields are left of it.
   */
  lemma KeptExactly(kind: Kind, base: Option<Fields>, value: Json)
    ensures PruneEntry(kind, base, value).Some? <==>
            && value.Obj? && (base.None? ==> SaysEnough(kind, value.fields))
            && ((exists k :: Survives(kind, base, value.fields, k))
                || (base.Some? && "enabled" in value.fields && value.fields["enabled"] == Bool(false)
                    && "enabled" in base.value && base.value["enabled"] == Bool(true)))
    ensures PruneEntry(kind, base, value).Some? ==>
      && PruneEntry(kind, base, value).value.Obj?
      && var left := PruneEntry(kind, base, value).value.fields;
         && (forall k :: k in left <==> Survives(kind, base, value.fields, k))
         && (forall k :: k in left ==> LeftOf(kind, base, value.fields, k, left[k]))
  {
    if value.Obj? {
      var t := Trim(kind, base, value.fields);
      forall k ensures (k in t <==> Survives(kind, base, value.fields, k))
                    && (k in t ==> LeftOf(kind, base, value.fields, k, t[k])) {
        TrimLeaves(kind, base, value.fields, k);
      }
      hide Trim, LeftOf, Survives;
      assert t == map[] <==> forall k :: k !in t;
    }
  }

  /** An entry of the overrides, pruned against the catalog's item under its slug if there is one. */
  predicate Prunes(kind: Kind, items: seq<Fields>, e: Entry, kept: Entry) {
    kept.slug == e.slug && PruneEntry(kind, Base(items, e.slug), e.value) == Some(kept.value)
  }

  /** Which entries pruning keeps. */
  function KeptOnes(kind: Kind, items: seq<Fields>, entries: seq<Entry>): seq<bool> {
    seq(|entries|, j requires 0 <= j < |entries| =>
      PruneEntry(kind, Base(items, entries[j].slug), entries[j].value).Some?)
  }

  lemma KeptOnesStep(kind: Kind, items: seq<Fields>, entries: seq<Entry>)
    requires entries != []
    ensures var n := |entries| - 1;
            KeptOnes(kind, items, entries) == KeptOnes(kind, items, entries[..n]) + [KeptOnes(kind, items, entries)[n]]
  {
    hide PruneEntry, Base;
  }

  lemma PruneStep(kind: Kind, items: seq<Fields>, entries: seq<Entry>)
    requires entries != []
    ensures var n := |entries| - 1;
            var rest, all := Prune(kind, items, entries[..n]), Prune(kind, items, entries);
            if KeptOnes(kind, items, entries)[n] then
              |all| == |rest| + 1 && all[..|rest|] == rest && Prunes(kind, items, entries[n], all[|rest|])
            else all == rest
  {
    hide PruneEntry, Base;
  }

  /** The kept entries are those at these positions, pruned. */
  ghost predicate AllPruned(kind: Kind, items: seq<Fields>, entries: seq<Entry>, from: seq<nat>, kept: seq<Entry>) {
    && |kept| == |from|
    && forall p :: 0 <= p < |from| ==> from[p] < |entries| && Prunes(kind, items, entries[from[p]], kept[p])
  }

  lemma OneMorePruned(
      kind: Kind, items: seq<Fields>, entries: seq<Entry>, from: seq<nat>, kept: seq<Entry>, more: seq<Entry>)
    requires entries != [] && AllPruned(kind, items, entries[..|entries| - 1], from, kept)
    ensures AllPruned(kind, items, entries, from, kept)
    ensures var one := |more| == |kept| + 1 && more[..|kept|] == kept;
            one && Prunes(kind, items, entries[|entries| - 1], more[|kept|]) ==>
              AllPruned(kind, items, entries, from + [|entries| - 1], more)
  {
    hide Prunes;
    forall p | 0 <= p < |from| ensures entries[from[p]] == entries[..|entries| - 1][from[p]] {
    }
    if |more| == |kept| + 1 && more[..|kept|] == kept {
      forall p | 0 <= p < |from| ensures more[p] == kept[p] {
        assert more[p] == more[..|kept|][p];
      }
    }
  }

  /** The kept overrides come in their order. */
  lemma {:induction false} PrunedListed(kind: Kind, items: seq<Fields>, entries: seq<Entry>) returns (from: seq<nat>)
    ensures Positions(from, KeptOnes(kind, items, entries))
    ensures AllPruned(kind, items, entries, from, Prune(kind, items, entries))
  {
    if entries == [] {
      from := [];
    } else {
      hide AllPruned, Prunes, Positions, Prune, PruneEntry, Base;
      var n := |entries| - 1;
      var before := PrunedListed(kind, items, entries[..n]);
      var flag := KeptOnes(kind, items, entries)[n];
      PruneStep(kind, items, entries);
      KeptOnesStep(kind, items, entries);
      hide KeptOnes;
      PositionsStep(before, KeptOnes(kind, items, entries[..n]), flag);
      OneMorePruned(kind, items, entries, before, Prune(kind, items, entries[..n]), Prune(kind, items, entries));
      from := if flag then before + [n] else before;
    }
  }
}
