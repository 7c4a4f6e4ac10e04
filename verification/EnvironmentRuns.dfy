/** Effective variables across renames, what every run of edits keeps, and how branches are grouped. */
module EnvironmentRuns {
  import opened Faults
  import opened EnvironmentSpec
  import Text

  // Effective variables

  /** The value each key ends up with when later variables win. */
  function MapOf(vars: seq<EnvVar>): map<string, string> {
    if vars == [] then map[]
    else
      var n := |vars| - 1;
      MapOf(vars[..n])[vars[n].key := vars[n].value]
  }

  /** No key comes twice. */
  predicate UniqueKeys(vars: seq<EnvVar>) {
    vars == []
    || (UniqueKeys(vars[..|vars| - 1]) && vars[|vars| - 1].key !in MapOf(vars[..|vars| - 1]))
  }

  lemma {:induction false} MapOfKeys(vars: seq<EnvVar>)
    ensures forall k :: k in MapOf(vars) <==> exists i :: 0 <= i < |vars| && vars[i].key == k
  {
    if vars != [] {
      var n := |vars| - 1;
      MapOfKeys(vars[..n]);
      forall k ensures k in MapOf(vars) <==> exists i :: 0 <= i < |vars| && vars[i].key == k {
        if k in MapOf(vars[..n]) {
          var i :| 0 <= i < n && vars[..n][i].key == k;
          assert vars[i].key == k;
        }
        if i :| 0 <= i < n && vars[i].key == k {
          assert vars[..n][i].key == k;
        }
      }
    }
  }

  lemma {:induction false} UniqueKeysByIndex(vars: seq<EnvVar>)
    ensures UniqueKeys(vars) <==> forall i, j :: 0 <= i < j < |vars| ==> vars[i].key != vars[j].key
  {
    if vars != [] {
      var n := |vars| - 1;
      UniqueKeysByIndex(vars[..n]);
      MapOfKeys(vars[..n]);
      assert forall i :: 0 <= i < n ==> vars[..n][i] == vars[i];
    }
  }

  function TaggedMap(vars: seq<EnvVar>, slug: string): map<string, string> {
    if vars == [] then map[]
    else
      var n := |vars| - 1;
      if vars[n].tag == Some(slug) then TaggedMap(vars[..n], slug)[vars[n].key := vars[n].value]
      else TaggedMap(vars[..n], slug)
  }

  lemma Appended(vars: seq<EnvVar>, v: EnvVar)
    ensures MapOf(vars + [v]) == MapOf(vars)[v.key := v.value]
    ensures UniqueKeys(vars + [v]) <==> UniqueKeys(vars) && v.key !in MapOf(vars)
  {
    assert (vars + [v])[..|vars|] == vars;
  }

  lemma {:induction false} WithoutKeyMap(vars: seq<EnvVar>, key: string)
    ensures MapOf(WithoutKey(vars, key)) == MapOf(vars) - {key}
  {
    if vars != [] {
      var n := |vars| - 1;
      WithoutKeyMap(vars[..n], key);
      Appended(WithoutKey(vars[..n], key), vars[n]);
    }
  }

  lemma {:induction false} WithoutKeyUnique(vars: seq<EnvVar>, key: string)
    requires UniqueKeys(vars)
    ensures UniqueKeys(WithoutKey(vars, key))
  {
    if vars != [] {
      var n := |vars| - 1;
      WithoutKeyUnique(vars[..n], key);
      WithoutKeyMap(vars[..n], key);
      Appended(WithoutKey(vars[..n], key), vars[n]);
      hide MapOf;
    }
  }

  /** The effective variables are the global ones overridden by the environment's own. */
  lemma {:induction false} OverrideIsOverriding(start: seq<EnvVar>, vars: seq<EnvVar>, slug: string)
    ensures MapOf(Override(start, vars, slug)) == MapOf(start) + TaggedMap(vars, slug)
  {
    if vars != [] {
      var n := |vars| - 1;
      OverrideIsOverriding(start, vars[..n], slug);
      var before := Override(start, vars[..n], slug);
      if vars[n].tag == Some(slug) {
        WithoutKeyMap(before, vars[n].key);
        Appended(WithoutKey(before, vars[n].key), vars[n]);
        hide MapOf, UniqueKeys, WithoutKey;
      }
    }
  }

  lemma {:induction false} OverrideStaysUnique(start: seq<EnvVar>, vars: seq<EnvVar>, slug: string)
    requires UniqueKeys(start)
    ensures UniqueKeys(Override(start, vars, slug))
  {
    if vars != [] {
      var n := |vars| - 1;
      OverrideStaysUnique(start, vars[..n], slug);
      var before := Override(start, vars[..n], slug);
      WithoutKeyMap(before, vars[n].key);
      WithoutKeyUnique(before, vars[n].key);
      Appended(WithoutKey(before, vars[n].key), vars[n]);
      hide MapOf, UniqueKeys, WithoutKey;
    }
  }

  /** No two variables have the same key and the same tag; no tag and an empty tag are the same. */
  predicate UniquePairs(vars: seq<EnvVar>) {
    forall i, j :: 0 <= i < j < |vars| && vars[i].key == vars[j].key ==>
      vars[i].tag != vars[j].tag && !(vars[i].Global() && vars[j].Global())
  }

  ghost predicate HasGlobal(vars: seq<EnvVar>, k: string) {
    exists i :: 0 <= i < |vars| && vars[i].Global() && vars[i].key == k
  }

  lemma {:induction false} GlobalKeys(vars: seq<EnvVar>, k: string)
    ensures k in MapOf(Globals(vars)) <==> HasGlobal(vars, k)
  {
    if vars != [] {
      var n := |vars| - 1;
      GlobalKeys(vars[..n], k);
      Appended(Globals(vars[..n]), vars[n]);
      hide MapOf;
      assert forall i :: 0 <= i < n ==> vars[..n][i] == vars[i];
      if i :| 0 <= i < n && vars[i].Global() && vars[i].key == k {
        assert vars[..n][i].Global();
      }
    }
  }

  lemma {:induction false} GlobalsAreUnique(vars: seq<EnvVar>)
    requires UniquePairs(vars)
    ensures UniqueKeys(Globals(vars))
  {
    if vars != [] {
      var n := |vars| - 1;
      GlobalsAreUnique(vars[..n]);
      GlobalKeys(vars[..n], vars[n].key);
      Appended(Globals(vars[..n]), vars[n]);
      hide MapOf, UniqueKeys;
    }
  }

  /** Given unique pairs, each effective key appears once, with the environment's value if it has one. */
  lemma EffectiveIsOverride(vars: seq<EnvVar>, slug: string)
    requires UniquePairs(vars)
    ensures UniqueKeys(Effective(vars, slug))
    ensures MapOf(Effective(vars, slug)) == MapOf(Globals(vars)) + TaggedMap(vars, slug)
  {
    GlobalsAreUnique(vars);
    OverrideIsOverriding(Globals(vars), vars, slug);
    OverrideStaysUnique(Globals(vars), vars, slug);
  }

  // Renaming

  function KeyValue(v: EnvVar): (string, string) {
    (v.key, v.value)
  }

  function Pairs(vars: seq<EnvVar>): (r: seq<(string, string)>)
    ensures |r| == |vars|
  {
    seq(|vars|, i requires 0 <= i < |vars| => KeyValue(vars[i]))
  }

  lemma PairsPrefix(vars: seq<EnvVar>)
    requires vars != []
    ensures var n := |vars| - 1; Pairs(vars)[..n] == Pairs(vars[..n]) && Pairs(vars)[n] == KeyValue(vars[n])
  {
  }

  lemma {:induction false} WithoutKeyPairs(a: seq<EnvVar>, b: seq<EnvVar>, key: string)
    requires Pairs(a) == Pairs(b)
    ensures Pairs(WithoutKey(a, key)) == Pairs(WithoutKey(b, key))
  {
    assert |a| == |b|;
    if a != [] {
      var n := |a| - 1;
      PairsPrefix(a);
      PairsPrefix(b);
      hide Pairs;
      WithoutKeyPairs(a[..n], b[..n], key);
      PairsAppend(WithoutKey(a[..n], key), a[n], WithoutKey(b[..n], key), b[n]);
    }
  }

  lemma PairsAppend(a: seq<EnvVar>, x: EnvVar, b: seq<EnvVar>, y: EnvVar)
    requires Pairs(a) == Pairs(b) && KeyValue(x) == KeyValue(y)
    ensures Pairs(a + [x]) == Pairs(b + [y])
  {
    assert Pairs(a + [x]) == Pairs(a) + [KeyValue(x)];
    assert Pairs(b + [y]) == Pairs(b) + [KeyValue(y)];
  }

  lemma RetaggedPrefix(vars: seq<EnvVar>, was: string, slug: string)
    requires vars != []
    ensures var n := |vars| - 1;
            Retagged(vars, was, slug)[..n] == Retagged(vars[..n], was, slug)
  {
  }

  lemma {:induction false} RetaggedGlobals(vars: seq<EnvVar>, was: string, slug: string)
    requires was != "" && slug != ""
    ensures Globals(Retagged(vars, was, slug)) == Globals(vars)
  {
    if vars != [] {
      RetaggedPrefix(vars, was, slug);
      RetaggedGlobals(vars[..|vars| - 1], was, slug);
    }
  }

  lemma {:induction false} RetaggedOverride(
      a: seq<EnvVar>, b: seq<EnvVar>, vars: seq<EnvVar>, was: string, slug: string)
    requires Pairs(a) == Pairs(b)
    requires forall i :: 0 <= i < |vars| ==> vars[i].tag != Some(slug)
    ensures Pairs(Override(a, Retagged(vars, was, slug), slug)) == Pairs(Override(b, vars, was))
  {
    hide Pairs;
    if vars != [] {
      var n := |vars| - 1;
      RetaggedPrefix(vars, was, slug);
      RetaggedOverride(a, b, vars[..n], was, slug);
      var x, y := Override(a, Retagged(vars, was, slug)[..n], slug), Override(b, vars[..n], was);
      if vars[n].tag == Some(was) {
        WithoutKeyPairs(x, y, vars[n].key);
        PairsAppend(WithoutKey(x, vars[n].key), vars[n].(tag := Some(slug)), WithoutKey(y, vars[n].key), vars[n]);
      }
    }
  }

  lemma {:induction false} RetaggedElsewhere(
      start: seq<EnvVar>, vars: seq<EnvVar>, was: string, slug: string, other: string)
    requires other != was && other != slug
    ensures Override(start, Retagged(vars, was, slug), other) == Override(start, vars, other)
  {
    if vars != [] {
      RetaggedPrefix(vars, was, slug);
      RetaggedElsewhere(start, vars[..|vars| - 1], was, slug, other);
    }
  }

  /**
   * Moving variables from one slug to an unused one keeps what the environment sees, key by key
   * and in order, and leaves every other slug's variables alone.
   */
  lemma RetaggedEffective(vars: seq<EnvVar>, was: string, slug: string)
    requires was != "" && slug != "" && forall i :: 0 <= i < |vars| ==> vars[i].tag != Some(slug)
    ensures Pairs(Effective(Retagged(vars, was, slug), slug)) == Pairs(Effective(vars, was))
    ensures forall other :: other != was && other != slug ==>
              Effective(Retagged(vars, was, slug), other) == Effective(vars, other)
  {
    RetaggedGlobals(vars, was, slug);
    RetaggedOverride(Globals(vars), Globals(vars), vars, was, slug);
    forall other | other != was && other != slug
      ensures Effective(Retagged(vars, was, slug), other) == Effective(vars, other)
    {
      RetaggedElsewhere(Globals(vars), vars, was, slug, other);
    }
  }

  // What every run keeps

  /** Slugs in use are not empty and belong to one active environment each; ids are distinct. */
  ghost predicate Inv(p: Project) {
    && p.environments != [] && p.environments[0].id == "prod" && p.environments[0].active
    && (forall i, j :: 0 <= i < j < |p.environments| ==> p.environments[i].id != p.environments[j].id)
    && DistinctSlugs(p.environments)
    && (forall i :: 0 <= i < |p.environments| ==> p.environments[i].slug != "")
  }

  ghost predicate DistinctSlugs(environments: seq<Environment>) {
    forall i, j :: 0 <= i < j < |environments| && environments[i].active && environments[j].active ==>
      environments[i].slug != environments[j].slug
  }

  datatype Event =
    | Created(id: string, values: Values)
    | Updated(id: string, values: Values)
    | Deleted(id: string)
    | VariablesSaved(vars: seq<EnvVar>)

  /** A refused edit changes nothing. */
  function Apply(p: Project, e: Event): Project {
    match e
    case VariablesSaved(vars) => p.(envVars := vars)
    case _ =>
      var r := match e
        case Created(id, v) => Create(p, id, v)
        case Updated(id, v) => Update(p, id, v)
        case Deleted(id) => Delete(p, id)
        case _ => Ok(p);
      if r.Ok? then r.value else p
  }

  function Run(p: Project, events: seq<Event>): Project
    decreases |events|
  {
    if events == [] then p else Run(Apply(p, events[0]), events[1..])
  }

  /** Ids are made fresh, and the forms refuse an empty slug. */
  predicate Allowed(p: Project, e: Event) {
    match e
    case Created(id, v) => v.slug != "" && forall i :: 0 <= i < |p.environments| ==> p.environments[i].id != id
    case Updated(_, v) => v.slug != ""
    case _ => true
  }

  predicate AllowedRun(p: Project, events: seq<Event>)
    decreases |events|
  {
    events == [] || (Allowed(p, events[0]) && AllowedRun(Apply(p, events[0]), events[1..]))
  }

  lemma {:induction false} IndexOfFirst(environments: seq<Environment>, id: string)
    ensures IndexOf(environments, id).None? <==> forall i :: 0 <= i < |environments| ==> environments[i].id != id
  {
    if environments != [] && environments[0].id != id {
      IndexOfFirst(environments[1..], id);
      assert forall i :: 1 <= i < |environments| ==> environments[1..][i - 1] == environments[i];
    }
  }

  lemma ApplyKeepsInv(p: Project, e: Event)
    requires Inv(p) && Allowed(p, e)
    ensures Inv(Apply(p, e))
  {
    hide Retagged, Untagged;
  }

  lemma {:induction false} RunKeepsInv(p: Project, events: seq<Event>)
    requires Inv(p) && AllowedRun(p, events)
    ensures Inv(Run(p, events))
    decreases |events|
  {
    if events != [] {
      ApplyKeepsInv(p, events[0]);
      hide Inv, Apply, Allowed;
      RunKeepsInv(Apply(p, events[0]), events[1..]);
    }
  }

  // Edits and what each environment sees

  lemma UpdateFinds(p: Project, i: nat)
    requires Inv(p) && i < |p.environments|
    ensures IndexOf(p.environments, p.environments[i].id) == Some(i)
  {
    IndexOfFirst(p.environments, p.environments[i].id);
  }

  /**
   * Renaming an active environment to a slug no variable is tagged with keeps what it sees, and
   * what every other active environment sees.
   */
  lemma RenameKeepsVariables(p: Project, i: nat, v: Values)
    requires Inv(p) && i < |p.environments| && p.environments[i].active
    requires v.slug != "" && v.slug != p.environments[i].slug
    requires forall k :: 0 <= k < |p.envVars| ==> p.envVars[k].tag != Some(v.slug)
    requires Update(p, p.environments[i].id, v).Ok?
    ensures var after := Update(p, p.environments[i].id, v).value;
            && Pairs(Effective(after.envVars, v.slug)) == Pairs(Effective(p.envVars, p.environments[i].slug))
            && (forall j :: 0 <= j < |p.environments| && j != i && p.environments[j].active ==>
                  && after.environments[j] == p.environments[j]
                  && Effective(after.envVars, p.environments[j].slug) == Effective(p.envVars, p.environments[j].slug))
  {
    UpdateFinds(p, i);
    RetaggedEffective(p.envVars, p.environments[i].slug, v.slug);
    hide Effective, Retagged, Pairs, IndexOf;
    forall j | 0 <= j < |p.environments| && j != i && p.environments[j].active
      ensures p.environments[j].slug != v.slug && p.environments[j].slug != p.environments[i].slug
    {
      assert !SlugTaken(p.environments, v.slug, Some(p.environments[i].id));
    }
  }

  // A slug that variables are already tagged with

  /** The last variable of its key that carries one of the two tags. */
  predicate LastOfKey(vars: seq<EnvVar>, i: nat, was: string, slug: string)
    requires i < |vars|
  {
    && (vars[i].tag == Some(was) || vars[i].tag == Some(slug))
    && forall j :: i < j < |vars| && vars[j].key == vars[i].key ==>
         vars[j].tag != Some(was) && vars[j].tag != Some(slug)
  }

  lemma {:induction false} LastOfKeyCounts(vars: seq<EnvVar>, i: nat, slug: string)
    requires i < |vars| && LastOfKey(vars, i, slug, slug)
    ensures vars[i].key in TaggedMap(vars, slug) && TaggedMap(vars, slug)[vars[i].key] == vars[i].value
  {
    var n := |vars| - 1;
    if i < n {
      assert forall j :: 0 <= j < n ==> vars[..n][j] == vars[j];
      LastOfKeyCounts(vars[..n], i, slug);
    }
  }

  lemma {:induction false} TaggedKeyHasLast(vars: seq<EnvVar>, slug: string, k: string) returns (i: nat)
    requires k in TaggedMap(vars, slug)
    ensures i < |vars| && vars[i].key == k && LastOfKey(vars, i, slug, slug)
  {
    var n := |vars| - 1;
    if vars[n].tag == Some(slug) && vars[n].key == k {
      i := n;
    } else {
      i := TaggedKeyHasLast(vars[..n], slug, k);
      assert forall j :: 0 <= j < n ==> vars[..n][j] == vars[j];
    }
  }

  lemma RetaggedLast(vars: seq<EnvVar>, was: string, slug: string, i: nat)
    requires i < |vars|
    ensures LastOfKey(Retagged(vars, was, slug), i, slug, slug) <==> LastOfKey(vars, i, was, slug)
  {
    var after := Retagged(vars, was, slug);
    assert forall j :: 0 <= j < |vars| ==>
      after[j].key == vars[j].key
      && (after[j].tag == Some(slug) <==> vars[j].tag == Some(was) || vars[j].tag == Some(slug));
  }

  /** The value the environment saw under a key, if it saw one. */
  predicate Sees(vars: seq<EnvVar>, slug: string, v: EnvVar) {
    v.key in MapOf(Effective(vars, slug)) && MapOf(Effective(vars, slug))[v.key] == v.value
  }

  lemma EffectiveMap(vars: seq<EnvVar>, slug: string)
    ensures MapOf(Effective(vars, slug)) == MapOf(Globals(vars)) + TaggedMap(vars, slug)
  {
    OverrideIsOverriding(Globals(vars), vars, slug);
  }

  /**
   * Whatever is tagged already, renaming keeps the value of every key exactly when each variable
   * that comes out last of its key and carried the new tag says what was seen before.
   */
  lemma RenameKeepsValuesExactly(vars: seq<EnvVar>, was: string, slug: string)
    requires was != "" && slug != "" && was != slug
    ensures MapOf(Effective(Retagged(vars, was, slug), slug)) == MapOf(Effective(vars, was)) <==>
            forall i :: 0 <= i < |vars| && vars[i].tag == Some(slug) && LastOfKey(vars, i, was, slug) ==>
              Sees(vars, was, vars[i])
  {
    var after := Retagged(vars, was, slug);
    EffectiveMap(after, slug);
    EffectiveMap(vars, was);
    RetaggedGlobals(vars, was, slug);
    hide MapOf, Effective, Globals, TaggedMap, LastOfKey;
    var x, y := MapOf(Effective(after, slug)), MapOf(Effective(vars, was));
    forall i | 0 <= i < |vars| && LastOfKey(vars, i, was, slug)
      ensures vars[i].key in x && x[vars[i].key] == vars[i].value
    {
      RetaggedLast(vars, was, slug, i);
      LastOfKeyCounts(after, i, slug);
    }
    if forall i :: 0 <= i < |vars| && vars[i].tag == Some(slug) && LastOfKey(vars, i, was, slug) ==>
                     Sees(vars, was, vars[i]) {
      forall k ensures k in x <==> k in y
               ensures k in x && k in y ==> x[k] == y[k] {
        RenameKeepsValue(vars, was, slug, k);
      }
      assert x == y;
    }
  }

  lemma RenameKeepsValue(vars: seq<EnvVar>, was: string, slug: string, k: string)
    requires was != "" && slug != "" && was != slug
    requires forall i :: 0 <= i < |vars| && vars[i].tag == Some(slug) && LastOfKey(vars, i, was, slug) ==>
               Sees(vars, was, vars[i])
    ensures var x, y := MapOf(Effective(Retagged(vars, was, slug), slug)), MapOf(Effective(vars, was));
            (k in x <==> k in y) && (k in x ==> x[k] == y[k])
  {
    var after := Retagged(vars, was, slug);
    EffectiveMap(after, slug);
    EffectiveMap(vars, was);
    RetaggedGlobals(vars, was, slug);
    hide MapOf, Effective, Globals, TaggedMap;
    if k in TaggedMap(after, slug) {
      var i := TaggedKeyHasLast(after, slug, k);
      RetaggedLast(vars, was, slug, i);
      LastOfKeyCounts(after, i, slug);
      if vars[i].tag == Some(was) {
        assert LastOfKey(vars, i, was, was);
        LastOfKeyCounts(vars, i, was);
      }
    } else if k in TaggedMap(vars, was) {
      var i := TaggedKeyHasLast(vars, was, k);
      RetaggedKeepsKey(vars, was, slug, k);
    }
  }

  lemma {:induction false} RetaggedKeepsKey(vars: seq<EnvVar>, was: string, slug: string, k: string)
    requires k in TaggedMap(vars, was)
    ensures k in TaggedMap(Retagged(vars, was, slug), slug)
  {
    RetaggedPrefix(vars, was, slug);
    var n := |vars| - 1;
    if !(vars[n].tag == Some(was) && vars[n].key == k) {
      RetaggedKeepsKey(vars[..n], was, slug, k);
    }
  }

  /** A variable already tagged with the new slug can change what is seen. */
  lemma RenameOntoTaggedSlug(key: string, a: string, b: string)
    requires a != b
    ensures var vars := [EnvVar(key, a, Some("old")), EnvVar(key, b, Some("new"))];
            MapOf(Effective(Retagged(vars, "old", "new"), "new")) != MapOf(Effective(vars, "old"))
  {
    var x, y := EnvVar(key, a, Some("old")), EnvVar(key, b, Some("new"));
    var vars := [x, y];
    assert LastOfKey(vars, 1, "old", "new");
    EffectiveMap(vars, "old");
    assert vars[..1] == [x] && [x][..0] == [];
    assert TaggedMap([x], "old") == map[key := a];
    hide Effective, Globals, MapOf;
    RenameKeepsValuesExactly(vars, "old", "new");
    assert !Sees(vars, "old", vars[1]);
  }

  // What edits do to other environments

  lemma {:induction false} TaggedShows(start: seq<EnvVar>, vars: seq<EnvVar>, slug: string)
    ensures if exists k :: 0 <= k < |vars| && vars[k].tag == Some(slug)
            then exists x :: x in Override(start, vars, slug) && x.tag == Some(slug)
            else Override(start, vars, slug) == start
  {
    if vars != [] {
      var n := |vars| - 1;
      TaggedShows(start, vars[..n], slug);
      assert forall k :: 0 <= k < n ==> vars[..n][k] == vars[k];
      if vars[n].tag == Some(slug) {
        assert vars[n] in Override(start, vars, slug);
      } else if k :| 0 <= k < n && vars[k].tag == Some(slug) {
        assert vars[..n][k].tag == Some(slug);
      }
    }
  }

  lemma {:induction false} GlobalsAreGlobal(vars: seq<EnvVar>)
    ensures forall x :: x in Globals(vars) ==> x.Global()
  {
    if vars != [] {
      GlobalsAreGlobal(vars[..|vars| - 1]);
    }
  }

  predicate IsTagged(vars: seq<EnvVar>, slug: string) {
    exists k :: 0 <= k < |vars| && vars[k].tag == Some(slug)
  }

  /** An environment sees just the global variables exactly when none is tagged with its slug. */
  lemma EffectiveIsGlobalExactly(vars: seq<EnvVar>, slug: string)
    requires slug != ""
    ensures Effective(vars, slug) == Globals(vars) <==> !IsTagged(vars, slug)
  {
    TaggedShows(Globals(vars), vars, slug);
    GlobalsAreGlobal(vars);
  }

  /**
   * Renaming any environment, active or deleted, changes what another active one sees exactly when
   * the two share a slug and some variable is tagged with it.
   */
  lemma RenameChangesOthersExactly(p: Project, i: nat, j: nat, v: Values)
    requires Inv(p) && i < |p.environments| && j < |p.environments| && i != j && p.environments[j].active
    requires v.slug != "" && v.slug != p.environments[i].slug && Update(p, p.environments[i].id, v).Ok?
    ensures var slug := p.environments[j].slug;
            Effective(Update(p, p.environments[i].id, v).value.envVars, slug) != Effective(p.envVars, slug) <==>
            slug == p.environments[i].slug && IsTagged(p.envVars, slug)
  {
    UpdateFinds(p, i);
    var was, slug := p.environments[i].slug, p.environments[j].slug;
    var after := Retagged(p.envVars, was, v.slug);
    assert slug != v.slug by {
      assert !SlugTaken(p.environments, v.slug, Some(p.environments[i].id));
    }
    RetaggedGlobals(p.envVars, was, v.slug);
    hide IndexOf;
    if slug == was {
      EffectiveIsGlobalExactly(p.envVars, slug);
      EffectiveIsGlobalExactly(after, slug);
    } else {
      RetaggedElsewhere(Globals(p.envVars), p.envVars, was, v.slug, slug);
    }
  }

  /**
   * Environments are found by id whether active or not: renaming a deleted one whose slug an
   * active one has taken over carries off the active one's variables.
   */
  lemma RenamingDeletedTakesVariables(
    prod: Environment, gone: Environment, live: Environment, v: Values, x: EnvVar)
    requires prod.id == "prod" && prod.active && !gone.active && live.active
    requires gone.id != "prod" && live.id != "prod" && gone.id != live.id
    requires gone.slug == live.slug && prod.slug != live.slug && v.slug != live.slug && v.slug != prod.slug
    requires prod.slug != "" && live.slug != "" && v.slug != "" && x.tag == Some(live.slug)
    ensures var p := Project([prod, live, gone], [x]);
            && Inv(p) && Update(p, gone.id, v).Ok?
            && Effective(Update(p, gone.id, v).value.envVars, live.slug) != Effective(p.envVars, live.slug)
  {
    var p := Project([prod, live, gone], [x]);
    UpdateFinds(p, 2);
    assert !SlugTaken(p.environments, v.slug, Some(gone.id));
    assert p.envVars[0].tag == Some(live.slug) && p.environments[2] == gone && p.environments[1] == live;
    hide IndexOf, Effective, Retagged;
    RenameChangesOthersExactly(p, 2, 1, v);
  }

  lemma {:induction false} UntaggedEffect(start: seq<EnvVar>, vars: seq<EnvVar>, slug: string)
    requires slug != ""
    ensures Globals(Untagged(vars, slug)) == Globals(vars)
    ensures Override(start, Untagged(vars, slug), slug) == start
    ensures forall other :: other != slug ==>
              Override(start, Untagged(vars, slug), other) == Override(start, vars, other)
  {
    if vars != [] {
      var n := |vars| - 1;
      UntaggedEffect(start, vars[..n], slug);
      var rest := Untagged(vars[..n], slug);
      if vars[n].tag != Some(slug) {
        assert Untagged(vars, slug)[..|rest|] == rest;
      }
    }
  }

  /** Deleting an environment leaves its slug with the global variables; other slugs keep theirs. */
  lemma DeleteKeepsOthers(p: Project, i: nat)
    requires Inv(p) && i < |p.environments| && p.environments[i].id != "prod" && p.environments[i].id != ""
    ensures var r := Delete(p, p.environments[i].id);
            && r.Ok?
            && Effective(r.value.envVars, p.environments[i].slug) == Globals(p.envVars)
            && (forall other :: other != p.environments[i].slug ==>
                  Effective(r.value.envVars, other) == Effective(p.envVars, other))
  {
    UpdateFinds(p, i);
    UntaggedEffect(Globals(p.envVars), p.envVars, p.environments[i].slug);
  }

  /**
   * Deleting any environment, even one already deleted, changes what another active one sees
   * exactly when the two share a slug and some variable is tagged with it.
   */
  lemma DeleteChangesOthersExactly(p: Project, i: nat, j: nat)
    requires Inv(p) && i < |p.environments| && j < |p.environments| && i != j && p.environments[j].active
    requires Delete(p, p.environments[i].id).Ok? && p.environments[i].id != ""
    ensures var slug := p.environments[j].slug;
            Effective(Delete(p, p.environments[i].id).value.envVars, slug) != Effective(p.envVars, slug) <==>
            slug == p.environments[i].slug && IsTagged(p.envVars, slug)
  {
    DeleteKeepsOthers(p, i);
    EffectiveIsGlobalExactly(p.envVars, p.environments[i].slug);
    hide Effective, IsTagged;
  }

  // Active environments

  /** Production is always the first of the active environments. */
  lemma {:induction false} ProductionLeads(environments: seq<Environment>)
    requires environments != [] && environments[0].active
    ensures Actives(environments) != [] && Actives(environments)[0] == environments[0]
  {
    var n := |environments| - 1;
    if n > 0 {
      ProductionLeads(environments[..n]);
    }
  }

  lemma {:induction false} ActivesAreActive(environments: seq<Environment>)
    ensures forall e :: e in Actives(environments) <==> e in environments && e.active
  {
    if environments != [] {
      var n := |environments| - 1;
      ActivesAreActive(environments[..n]);
      assert environments == environments[..n] + [environments[n]];
    }
  }

  predicate UniqueSlugs(environments: seq<Environment>) {
    forall i, j :: 0 <= i < j < |environments| ==> environments[i].slug != environments[j].slug
  }

  lemma {:induction false} ActivesUnique(environments: seq<Environment>)
    requires DistinctSlugs(environments)
    ensures UniqueSlugs(Actives(environments))
  {
    if environments != [] {
      var n := |environments| - 1;
      ActivesUnique(environments[..n]);
      ActivesAreActive(environments[..n]);
      var rest := Actives(environments[..n]);
      if environments[n].active {
        forall i | 0 <= i < |rest| ensures rest[i].slug != environments[n].slug {
          assert rest[i] in rest;
          var j :| 0 <= j < n && environments[..n][j] == rest[i];
          assert environments[j] == rest[i];
        }
      }
    }
  }

  /** In every reachable project branch matching has production first and one slug per environment. */
  lemma ActivesOverRuns(p: Project, events: seq<Event>)
    requires Inv(p) && AllowedRun(p, events)
    ensures var active := Actives(Run(p, events).environments);
            active != [] && active[0].id == "prod" && UniqueSlugs(active)
  {
    RunKeepsInv(p, events);
    var environments := Run(p, events).environments;
    hide Run, AllowedRun;
    ProductionLeads(environments);
    ActivesUnique(environments);
  }

  /**
   * An update keeps the slugs of active environments distinct exactly when it does not give an
   * active environment the empty slug that another one has: the empty slug alone is not checked.
   */
  lemma UpdateKeepsSlugsExactly(p: Project, i: nat, v: Values)
    requires i < |p.environments| && IndexOf(p.environments, p.environments[i].id) == Some(i)
    requires DistinctSlugs(p.environments)
    requires forall j, k :: 0 <= j < k < |p.environments| ==> p.environments[j].id != p.environments[k].id
    requires Update(p, p.environments[i].id, v).Ok?
    ensures DistinctSlugs(Update(p, p.environments[i].id, v).value.environments) <==>
            !(v.slug == "" && p.environments[i].active
              && SlugTaken(p.environments, "", Some(p.environments[i].id)))
  {
    var env, after := p.environments[i], Update(p, p.environments[i].id, v).value.environments;
    hide IndexOf, Retagged;
    assert forall j :: 0 <= j < |after| && j != i ==> after[j] == p.environments[j];
    assert after[i].slug == v.slug && after[i].active == env.active;
    if v.slug == "" && env.active && SlugTaken(p.environments, "", Some(env.id)) {
      var j :| 0 <= j < |p.environments| && p.environments[j].active && p.environments[j].slug == ""
               && p.environments[j].id != env.id;
      assert after[j].active && after[j].slug == after[i].slug;
    } else {
      forall j | 0 <= j < |after| && j != i && after[j].active && env.active ensures after[j].slug != v.slug {
        assert p.environments[j].id != env.id;
        assert after[j].slug == v.slug ==> SlugTaken(p.environments, v.slug, Some(env.id));
      }
    }
  }

  // Branches

  predicate FitsBetween(prefix: string, suffix: string, branch: string) {
    |prefix| + |suffix| <= |branch| && Text.StartsWith(branch, prefix) && Text.EndsWith(branch, suffix)
  }

  /** The prefix and the suffix may share characters of a branch that is too short for both. */
  predicate Overlaps(prefix: string, suffix: string, branch: string) {
    |branch| < |prefix| + |suffix| && Text.StartsWith(branch, prefix) && Text.EndsWith(branch, suffix)
  }

  lemma PartsSplit(pattern: string)
    requires '*' in pattern
    ensures var (prefix, suffix) := Parts(pattern); pattern == prefix + "*" + suffix
  {
  }

  ghost predicate StandsFor(prefix: string, suffix: string, branch: string) {
    exists middle :: branch == prefix + middle + suffix
  }

  lemma BetweenIsFit(prefix: string, suffix: string, branch: string)
    ensures StandsFor(prefix, suffix, branch) <==> FitsBetween(prefix, suffix, branch)
  {
    if FitsBetween(prefix, suffix, branch) {
      var middle := branch[|prefix|..|branch| - |suffix|];
      assert branch == prefix + middle + suffix;
    }
    if StandsFor(prefix, suffix, branch) {
      var middle :| branch == prefix + middle + suffix;
      assert branch[..|prefix|] == prefix && branch[|branch| - |suffix|..] == suffix;
    }
  }

  /**
   * A pattern with a `*` takes exactly the branches with some text, possibly none, in its place,
   * and those too short in which the two ends overlap.
   */
  lemma WildcardExactly(pattern: string, branch: string)
    requires '*' in pattern
    ensures var (prefix, suffix) := Parts(pattern);
            Matches(pattern, branch) <==> StandsFor(prefix, suffix, branch) || Overlaps(prefix, suffix, branch)
  {
    var (prefix, suffix) := Parts(pattern);
    PartsSplit(pattern);
    BetweenIsFit(prefix, suffix, branch);
    if pattern == branch {
      assert branch == prefix + "*" + suffix;
    }
    hide Parts, StandsFor;
  }

  /** At an end of the pattern a `*` has no such surprise; inside it does. */
  lemma OverlapOnlyInside(pattern: string, branch: string)
    requires '*' in pattern && (pattern[0] == '*' || pattern[|pattern| - 1] == '*')
    ensures var (prefix, suffix) := Parts(pattern); !Overlaps(prefix, suffix, branch)
  {
  }

  /** With the same text on both sides, one copy of it is enough: `a*a` takes `a`. */
  lemma OverlapExample(c: char)
    requires c != '*'
    ensures Matches([c, '*', c], [c]) && !StandsFor([c], [c], [c])
  {
    var pattern := [c, '*', c];
    assert pattern[1..][0] == '*';
    assert BeforeStar(pattern) == [c] + BeforeStar(pattern[1..]);
    assert BeforeStar(pattern) == [c];
    assert pattern[2..] == [c];
    assert Parts(pattern) == ([c], [c]);
    BetweenIsFit([c], [c], [c]);
  }

  predicate Takes(environments: seq<Environment>, i: nat, branch: string)
    requires i < |environments|
  {
    if i == 0 then environments[0].branch == branch else Matches(environments[i].branch, branch)
  }

  lemma {:induction false} MatchFromFirst(environments: seq<Environment>, branch: string, i: nat)
    requires 0 < i <= |environments|
    ensures var found := MatchFrom(environments, branch, i);
            && (found.Some? ==> Takes(environments, found.value, branch))
            && (forall j :: i <= j < (if found.Some? then found.value else |environments|) ==>
                  !Takes(environments, j, branch))
    decreases |environments| - i
  {
    hide Matches;
    if i < |environments| && !Matches(environments[i].branch, branch) {
      MatchFromFirst(environments, branch, i + 1);
    }
  }

  /** A branch goes to the first environment that takes it, or to none if none does. */
  lemma FirstMatchIsFirst(environments: seq<Environment>, branch: string)
    requires environments != []
    ensures var found := FirstMatch(environments, branch);
            && (found.Some? ==> Takes(environments, found.value, branch))
            && (forall j :: 0 <= j < (if found.Some? then found.value else |environments|) ==>
                  !Takes(environments, j, branch))
  {
    MatchFromFirst(environments, branch, 1);
    hide Matches;
  }

  lemma {:induction false} GroupCount(environments: seq<Environment>, branches: seq<string>, group: string, b: string)
    requires environments != []
    ensures multiset(BranchesOf(environments, branches, group))[b]
            == if Home(environments, b) == group then multiset(branches)[b] else 0
  {
    hide Home;
    if branches != [] {
      var n := |branches| - 1;
      GroupCount(environments, branches[..n], group, b);
      assert branches == branches[..n] + [branches[n]];
    }
  }

  /** Every branch is in its home group as often as it is listed, and in no other group. */
  lemma GroupsPartition(environments: seq<Environment>, branches: seq<string>, b: string)
    requires environments != []
    ensures var groups := Groups(environments, branches);
            && Home(environments, b) in groups
            && forall g :: g in groups ==>
                 multiset(groups[g])[b] == if Home(environments, b) == g then multiset(branches)[b] else 0
  {
    var groups := Groups(environments, branches);
    var i := FirstMatch(environments, b);
    if i.Some? {
      assert environments[i.value] in environments;
    }
    hide FirstMatch;
    forall g | g in groups
      ensures multiset(groups[g])[b] == if Home(environments, b) == g then multiset(branches)[b] else 0
    {
      GroupCount(environments, branches, g, b);
    }
  }

  /** Unless an environment is called `unmatched`, a branch's home says which environment took it. */
  lemma HomeIsFirstMatch(environments: seq<Environment>, branch: string, i: nat)
    requires i < |environments| && UniqueSlugs(environments)
    requires forall j :: 0 <= j < |environments| ==> environments[j].slug != "unmatched"
    ensures Home(environments, branch) == environments[i].slug <==> FirstMatch(environments, branch) == Some(i)
    ensures Home(environments, branch) == "unmatched" <==> FirstMatch(environments, branch).None?
  {
    hide FirstMatch;
  }
}
