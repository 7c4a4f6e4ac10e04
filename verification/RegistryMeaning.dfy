/** Pruning overrides keeps the meaning of the merge, and exactly when it does not. */
module RegistryMeaning {
  import opened Faults
  import opened Ordering
  import opened JsonTrees
  import opened RegistrySpec

  predicate SlugAgrees(slug: string, over: Fields) {
    "slug" in over ==> over["slug"] == Str(slug)
  }

  /**
   * An entry pruning can be trusted with: its own `slug`, if any, is its key; an entry of no
   * catalog item is complete; and no catalog item that is enabled is switched off.
   */
  predicate Sound(kind: Kind, base: Option<Fields>, slug: string, value: Json) {
    value.Obj? ==>
      && SlugAgrees(slug, value.fields)
      && (base.None? ==> Complete(kind, value.fields))
      && (base.Some? ==> !(ExplicitlyOff(value.fields) && On(base.value)))
  }

  // One catalog item

  lemma SettleEqual(a: Fields, b: Fields)
    requires EqFields(a, b)
    ensures EqFields(Settle(a), Settle(b))
  {
    EqReflexive(Bool(false));
    if "enabled" in a {
      assert Eq(a["enabled"], b["enabled"]);
    }
  }

  /** An explicit false may be left out when the item is not enabled anyway. */
  lemma WithoutOffMerges(kind: Kind, item: Fields, over: Fields)
    requires IsItem(kind, item) && ExplicitlyOff(over) && !On(item)
    ensures EqFields(Settle(DeepMerge(item, over - {"enabled"})), Settle(DeepMerge(item, over)))
  {
    var a, b := Settle(DeepMerge(item, over - {"enabled"})), Settle(DeepMerge(item, over));
    assert a["enabled"] == Bool(false) && b["enabled"] == Bool(false);
    forall k | k in a ensures Eq(a[k], b[k]) {
      EqReflexive(a[k]);
    }
  }

  /** Dropping the slug and an explicit false changes nothing for a sound entry. */
  lemma WithoutSlugMerges(kind: Kind, item: Fields, over: Fields)
    requires IsItem(kind, item) && SlugAgrees(item["slug"].s, over) && !(ExplicitlyOff(over) && On(item))
    ensures EqFields(Settle(DeepMerge(item, WithoutSlug(over))), Settle(DeepMerge(item, over)))
  {
    EqReflexive(item["slug"]);
    var some := over - {"slug"};
    MergeWithout(item, over, {"slug"});
    hide DeepMerge, EqFields, IsItem, Settle;
    SettleEqual(DeepMerge(item, some), DeepMerge(item, over));
    if ExplicitlyOff(over) {
      assert WithoutSlug(over) == some - {"enabled"};
      WithoutOffMerges(kind, item, some);
      EqFieldsTransitive(
        Settle(DeepMerge(item, WithoutSlug(over))), Settle(DeepMerge(item, some)), Settle(DeepMerge(item, over)));
    }
  }

  /** Shrinking the configuration keeps the configuration that results. */
  lemma TrimConfigMerges(kind: Kind, item: Fields, over: Fields)
    requires IsItem(kind, item)
    ensures EqFields(DeepMerge(item, TrimConfig(kind, item, over)), DeepMerge(item, over))
  {
    var trimmed := TrimConfig(kind, item, over);
    var a, b := DeepMerge(item, trimmed), DeepMerge(item, over);
    if trimmed != over {
      var mine, theirs := ConfigOf(item), over["config"].fields;
      var c := PruneConfig(mine, theirs);
      MergeWithout(mine, theirs, EqualKeys(mine, theirs, theirs.Keys));
      assert c == map[] ==> DeepMerge(mine, c) == mine;
      assert a["config"] == Obj(DeepMerge(mine, c)) && b["config"] == Obj(DeepMerge(mine, theirs));
    }
    forall k | k in a ensures k in b && Eq(a[k], b[k]) {
      if k != "config" || trimmed == over {
        EqReflexive(a[k]);
      }
    }
  }

  lemma TrimMerges(kind: Kind, item: Fields, over: Fields)
    requires IsItem(kind, item) && SlugAgrees(item["slug"].s, over) && !(ExplicitlyOff(over) && On(item))
    ensures EqFields(Settle(DeepMerge(item, Trim(kind, Some(item), over))), Settle(DeepMerge(item, over)))
  {
    hide IsItem, SlugAgrees, ExplicitlyOff, On, Settle, DeepMerge, EqFields, WithoutSlug, TrimConfig;
    var bare := WithoutSlug(over);
    var kept := bare - EqualKeys(item, bare, Compared(kind));
    var trimmed := TrimConfig(kind, item, kept);
    WithoutSlugMerges(kind, item, over);
    MergeWithout(item, bare, EqualKeys(item, bare, Compared(kind)));
    TrimConfigMerges(kind, item, kept);
    EqFieldsTransitive(DeepMerge(item, trimmed), DeepMerge(item, kept), DeepMerge(item, bare));
    SettleEqual(DeepMerge(item, trimmed), DeepMerge(item, bare));
    EqFieldsTransitive(
      Settle(DeepMerge(item, trimmed)), Settle(DeepMerge(item, bare)), Settle(DeepMerge(item, over)));
  }

  lemma MergeNothing(item: Fields)
    ensures DeepMerge(item, map[]) == item
  {
  }

  lemma TrimLosesSlug(kind: Kind, base: Option<Fields>, over: Fields)
    ensures var t := Trim(kind, base, over);
            "slug" !in t && !ExplicitlyOff(t) && t.Keys <= over.Keys
  {
  }

  /** A catalog item is merged the same after pruning exactly when its entry is sound. */
  lemma EntryKeepsMeaning(kind: Kind, item: Fields, value: Json)
    requires IsItem(kind, item)
    ensures EqFields(MergeItem(item, PruneEntry(kind, Some(item), value)), MergeItem(item, Some(value)))
            <==> Sound(kind, Some(item), item["slug"].s, value)
  {
    var kept := PruneEntry(kind, Some(item), value);
    MergeNothing(item);
    if !value.Obj? {
      EqFieldsReflexive(MergeItem(item, None));
    } else {
      var over := value.fields;
      var trimmed := Trim(kind, Some(item), over);
      assert MergeItem(item, kept) == Settle(DeepMerge(item, trimmed));
      if Sound(kind, Some(item), item["slug"].s, value) {
        TrimMerges(kind, item, over);
      } else {
        UnsoundDiffers(kind, item, over);
      }
    }
  }

  lemma UnsoundDiffers(kind: Kind, item: Fields, over: Fields)
    requires IsItem(kind, item) && !Sound(kind, Some(item), item["slug"].s, Obj(over))
    ensures !EqFields(Settle(DeepMerge(item, Trim(kind, Some(item), over))), Settle(DeepMerge(item, over)))
  {
    var trimmed := Trim(kind, Some(item), over);
    TrimLosesSlug(kind, Some(item), over);
    var a, b := Settle(DeepMerge(item, trimmed)), Settle(DeepMerge(item, over));
    if !SlugAgrees(item["slug"].s, over) {
      hide Trim;
      assert a["slug"] == item["slug"] && b["slug"] == over["slug"];
      assert !Eq(a["slug"], b["slug"]);
    } else {
      assert "enabled" !in trimmed;
      hide Trim;
      assert a["enabled"] == Bool(true) && b["enabled"] == Bool(false);
      assert !Eq(a["enabled"], b["enabled"]);
    }
  }

  // An entry of no catalog item

  /** A complete entry stays, and stands for the same item exactly when its slug agrees. */
  lemma CustomKeepsMeaning(kind: Kind, slug: string, over: Fields)
    requires Complete(kind, over)
    ensures var kept := PruneEntry(kind, None, Obj(over));
            && kept.Some? && kept.value.Obj?
            && (EqFields(CustomItem(slug, kept.value.fields), CustomItem(slug, over)) <==> SlugAgrees(slug, over))
  {
    var bare := WithoutSlug(over);
    assert bare != map[] by {
      assert (if kind.Runners? then "name" else "config") in bare;
    }
    var a, b := CustomItem(slug, bare), CustomItem(slug, over);
    assert a["slug"] == Str(slug);
    if SlugAgrees(slug, over) {
      assert a == b;
      EqFieldsReflexive(a);
    } else {
      assert b["slug"] == over["slug"];
      assert !Eq(a["slug"], b["slug"]);
    }
  }

  // The whole registry

  predicate EqItems(a: seq<Fields>, b: seq<Fields>) {
    |a| == |b| && forall i :: 0 <= i < |a| ==> EqFields(a[i], b[i])
  }

  ghost predicate AllSound(kind: Kind, items: seq<Fields>, entries: seq<Entry>) {
    forall i :: 0 <= i < |entries| ==> Sound(kind, Base(items, entries[i].slug), entries[i].slug, entries[i].value)
  }

  lemma {:induction false} LookupNone(entries: seq<Entry>, slug: string)
    ensures Lookup(entries, slug).None? <==> forall i :: 0 <= i < |entries| ==> entries[i].slug != slug
  {
    if entries != [] {
      LookupNone(entries[..|entries| - 1], slug);
    }
  }

  lemma {:induction false} LookupAt(entries: seq<Entry>, i: nat)
    requires i < |entries| && DistinctKeys(entries, SlugOf)
    ensures Lookup(entries, entries[i].slug) == Some(entries[i].value)
  {
    var n := |entries| - 1;
    if i < n {
      assert SlugOf(entries[i]) != SlugOf(entries[n]);
      LookupAt(entries[..n], i);
    }
  }

  lemma {:induction false} BaseAt(kind: Kind, items: seq<Fields>, i: nat)
    requires i < |items| && IsCatalog(kind, items)
    ensures Base(items, items[i]["slug"].s) == Some(items[i])
  {
    var n := |items| - 1;
    if i < n {
      BaseAt(kind, items[..n], i);
    }
  }

  lemma {:induction false} BaseFound(items: seq<Fields>, slug: string) returns (i: nat)
    requires Base(items, slug).Some?
    ensures i < |items| && "slug" in items[i] && items[i]["slug"] == Str(slug) && Base(items, slug) == Some(items[i])
  {
    i := |items| - 1;
    if !("slug" in items[i] && items[i]["slug"] == Str(slug)) {
      i := BaseFound(items[..i], slug);
    }
  }

  /** Pruning works on each entry by itself. */
  lemma {:induction false} LookupPruned(kind: Kind, items: seq<Fields>, entries: seq<Entry>, slug: string)
    requires DistinctKeys(entries, SlugOf)
    ensures var was := Lookup(entries, slug);
            Lookup(Prune(kind, items, entries), slug)
            == if was.None? then None else PruneEntry(kind, Base(items, slug), was.value)
  {
    hide PruneEntry, Base;
    if entries != [] {
      var n := |entries| - 1;
      var e, rest := entries[n], Prune(kind, items, entries[..n]);
      LookupPruned(kind, items, entries[..n], slug);
      var kept := PruneEntry(kind, Base(items, e.slug), e.value);
      var all := Prune(kind, items, entries);
      if kept.Some? {
        assert all[..|all| - 1] == rest;
      } else {
        assert all == rest;
      }
      if e.slug == slug {
        forall i | 0 <= i < n ensures entries[..n][i].slug != slug {
          assert SlugOf(entries[i]) != SlugOf(entries[n]);
        }
        LookupNone(entries[..n], slug);
      }
    }
  }

  /** Each merged catalog item is the same after pruning exactly when its entry, if any, is sound. */
  lemma BaseItemKeepsMeaning(kind: Kind, items: seq<Fields>, entries: seq<Entry>, i: nat)
    requires IsCatalog(kind, items) && DistinctKeys(entries, SlugOf) && i < |items|
    ensures var was := Lookup(entries, items[i]["slug"].s);
            EqFields(MergedBase(items, Prune(kind, items, entries))[i], MergedBase(items, entries)[i])
            <==> (was.Some? ==> Sound(kind, Some(items[i]), items[i]["slug"].s, was.value))
  {
    hide MergeItem, PruneEntry, Sound, Base;
    var slug := items[i]["slug"].s;
    LookupPruned(kind, items, entries, slug);
    BaseAt(kind, items, i);
    var was := Lookup(entries, slug);
    if was.Some? {
      EntryKeepsMeaning(kind, items[i], was.value);
    } else {
      EqFieldsReflexive(MergeItem(items[i], None));
    }
  }

  predicate IsCustom(items: seq<Fields>, e: Entry) {
    e.value.Obj? && Base(items, e.slug).None?
  }

  ghost predicate CustomsSound(kind: Kind, items: seq<Fields>, entries: seq<Entry>) {
    forall i :: 0 <= i < |entries| && IsCustom(items, entries[i]) ==>
      Sound(kind, None, entries[i].slug, entries[i].value)
  }

  lemma CustomsSoundStep(kind: Kind, items: seq<Fields>, entries: seq<Entry>)
    requires entries != []
    ensures var n := |entries| - 1;
            CustomsSound(kind, items, entries) <==>
              CustomsSound(kind, items, entries[..n])
              && (IsCustom(items, entries[n]) ==> Sound(kind, None, entries[n].slug, entries[n].value))
  {
    hide IsCustom, Sound;
    var n := |entries| - 1;
    assert forall i :: 0 <= i < n ==> entries[..n][i] == entries[i];
  }

  /** What one more entry adds to the items before and after pruning. */
  lemma CustomStep(kind: Kind, items: seq<Fields>, entries: seq<Entry>)
    requires entries != []
    ensures var n := |entries| - 1;
            var e := entries[n];
            var kept := PruneEntry(kind, Base(items, e.slug), e.value);
            var before := Customs(items, Prune(kind, items, entries[..n]));
            var after := Customs(items, Prune(kind, items, entries));
            && (kept.Some? ==> kept.value.Obj?)
            && after == if IsCustom(items, e) && kept.Some? then before + [CustomItem(e.slug, kept.value.fields)]
                        else before
  {
    var n := |entries| - 1;
    var e, rest, all := entries[n], Prune(kind, items, entries[..n]), Prune(kind, items, entries);
    var kept := PruneEntry(kind, Base(items, e.slug), e.value);
    hide Trim, Complete, CustomItem, Base;
    if kept.Some? {
      assert all[..|all| - 1] == rest;
    } else {
      assert all == rest;
    }
  }

  /** The items of no catalog entry are the same after pruning exactly when all of them are sound. */
  lemma {:induction false} CustomsKeepMeaning(kind: Kind, items: seq<Fields>, entries: seq<Entry>)
    ensures |Customs(items, Prune(kind, items, entries))| <= |Customs(items, entries)|
    ensures EqItems(Customs(items, Prune(kind, items, entries)), Customs(items, entries))
            <==> CustomsSound(kind, items, entries)
  {
    if entries != [] {
      var n := |entries| - 1;
      var e := entries[n];
      CustomsKeepMeaning(kind, items, entries[..n]);
      CustomsSoundStep(kind, items, entries);
      CustomStep(kind, items, entries);
      var kept := PruneEntry(kind, Base(items, e.slug), e.value);
      var a, b := Customs(items, Prune(kind, items, entries[..n])), Customs(items, entries[..n]);
      if IsCustom(items, e) {
        assert Customs(items, entries) == b + [CustomItem(e.slug, e.value.fields)];
        if Complete(kind, e.value.fields) {
          CustomKeepsMeaning(kind, e.slug, e.value.fields);
          AppendedItems(a, CustomItem(e.slug, kept.value.fields), b, CustomItem(e.slug, e.value.fields));
        }
        hide CustomItem, EqFields, Complete, Base, Trim, Prune, Customs, SlugAgrees;
      } else {
        assert Customs(items, entries) == b;
        hide CustomItem, EqFields, Complete, Base, Trim, Prune, Customs, SlugAgrees;
      }
    }
  }

  lemma AppendedItems(a: seq<Fields>, x: Fields, b: seq<Fields>, y: Fields)
    ensures EqItems(a + [x], b + [y]) <==> EqItems(a, b) && EqFields(x, y)
  {
    hide EqFields;
    if EqItems(a + [x], b + [y]) {
      forall i | 0 <= i < |a| ensures EqFields(a[i], b[i]) {
        assert EqFields((a + [x])[i], (b + [y])[i]);
      }
      assert EqFields((a + [x])[|a|], (b + [y])[|a|]);
    }
  }

  lemma ConcatenatedItems(a: seq<Fields>, c: seq<Fields>, b: seq<Fields>, d: seq<Fields>)
    requires |a| == |b|
    ensures EqItems(a + c, b + d) <==> EqItems(a, b) && EqItems(c, d)
  {
    hide EqFields;
    if EqItems(a + c, b + d) {
      forall i | 0 <= i < |a| ensures EqFields(a[i], b[i]) {
        assert EqFields((a + c)[i], (b + d)[i]);
      }
      forall i | 0 <= i < |c| ensures EqFields(c[i], d[i]) {
        assert EqFields((a + c)[|a| + i], (b + d)[|a| + i]);
      }
    }
  }

  /** Every catalog item is merged the same exactly when all entries of catalog items are sound. */
  lemma BaseItemsKeepMeaning(kind: Kind, items: seq<Fields>, entries: seq<Entry>)
    requires IsCatalog(kind, items) && DistinctKeys(entries, SlugOf)
    ensures EqItems(MergedBase(items, Prune(kind, items, entries)), MergedBase(items, entries))
            <==> forall i :: 0 <= i < |entries| && Base(items, entries[i].slug).Some? ==>
                               Sound(kind, Base(items, entries[i].slug), entries[i].slug, entries[i].value)
  {
    hide EqFields, Sound, MergeItem;
    var a, b := MergedBase(items, Prune(kind, items, entries)), MergedBase(items, entries);
    if EqItems(a, b) {
      forall i | 0 <= i < |entries| && Base(items, entries[i].slug).Some?
        ensures Sound(kind, Base(items, entries[i].slug), entries[i].slug, entries[i].value)
      {
        var j := BaseFound(items, entries[i].slug);
        LookupAt(entries, i);
        assert EqFields(a[j], b[j]);
        BaseItemKeepsMeaning(kind, items, entries, j);
      }
    }
    if forall i :: 0 <= i < |entries| && Base(items, entries[i].slug).Some? ==>
                     Sound(kind, Base(items, entries[i].slug), entries[i].slug, entries[i].value) {
      forall j | 0 <= j < |items| ensures EqFields(a[j], b[j]) {
        var slug := items[j]["slug"].s;
        BaseItemKeepsMeaning(kind, items, entries, j);
        BaseAt(kind, items, j);
        LookupNone(entries, slug);
        if Lookup(entries, slug).Some? {
          var i :| 0 <= i < |entries| && entries[i].slug == slug;
          LookupAt(entries, i);
        }
      }
    }
  }

  /**
   * Pruning keeps the merged registry, up to the equality of decoded values, exactly when every
   * entry is sound.
   */
  lemma PruneKeepsMeaning(kind: Kind, items: seq<Fields>, entries: seq<Entry>)
    requires IsCatalog(kind, items) && DistinctKeys(entries, SlugOf)
    ensures EqItems(Merge(items, Prune(kind, items, entries)), Merge(items, entries))
            <==> AllSound(kind, items, entries)
  {
    var pruned := Prune(kind, items, entries);
    BaseItemsKeepMeaning(kind, items, entries);
    CustomsKeepMeaning(kind, items, entries);
    ConcatenatedItems(MergedBase(items, pruned), Customs(items, pruned),
                      MergedBase(items, entries), Customs(items, entries));
    hide EqItems, MergedBase, Customs, Prune, Base, Complete, SlugAgrees;
  }
}
