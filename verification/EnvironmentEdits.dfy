/** What each edit of a project does, field by field, and what an environment sees of the variables. */
module EnvironmentEdits {
  import opened Faults
  import opened EnvironmentSpec
  import opened EnvironmentRuns

  // Edits

  /** The position is that of the first environment with the id. */
  predicate FirstWith(environments: seq<Environment>, id: string, i: nat) {
    i < |environments| && environments[i].id == id && forall j :: 0 <= j < i ==> environments[j].id != id
  }

  lemma {:induction false} IndexIsFirst(environments: seq<Environment>, id: string, i: nat)
    requires FirstWith(environments, id, i)
    ensures IndexOf(environments, id) == Some(i)
  {
    if i > 0 {
      forall j | 0 <= j < i - 1 ensures environments[1..][j].id != id {
        assert environments[1..][j] == environments[j + 1];
      }
      IndexIsFirst(environments[1..], id, i - 1);
    }
  }

  /** An active environment has the slug, and it is not the one with this id. */
  predicate InUse(environments: seq<Environment>, slug: string, id: Option<string>) {
    exists i :: 0 <= i < |environments| && environments[i].active && environments[i].slug == slug
                && id != Some(environments[i].id)
  }

  /** A new environment comes last and is active, unless an active one has its slug. */
  lemma CreatesExactly(p: Project, id: string, v: Values)
    ensures Create(p, id, v) ==
            if InUse(p.environments, v.slug, None) then Fault("slug_taken", 400)
            else Ok(Project(p.environments + [Environment(id, v.name, v.slug, v.color, v.branch, true)], p.envVars))
  {
  }

  /** Why an update is refused: production keeps its name and slug, and active slugs stay apart. */
  lemma UpdateRefusedExactly(p: Project, id: string, v: Values, i: nat)
    requires FirstWith(p.environments, id, i)
    ensures var env := p.environments[i];
            Update(p, id, v).Fault? <==>
              || (id == "prod" && (v.name != env.name || v.slug != env.slug))
              || (v.slug != "" && v.slug != env.slug && InUse(p.environments, v.slug, Some(id)))
  {
    IndexIsFirst(p.environments, id, i);
    hide IndexOf, Retagged;
  }

  /**
   * An update that is not refused replaces the four values of the environment and nothing else of
   * the list; variables move along with a slug that changes to another one, and stay otherwise.
   */
  lemma UpdatesExactly(p: Project, id: string, v: Values, i: nat)
    requires FirstWith(p.environments, id, i) && Update(p, id, v).Ok?
    ensures var env, q := p.environments[i], Update(p, id, v).value;
            && |q.environments| == |p.environments|
            && q.environments[i] == Environment(id, v.name, v.slug, v.color, v.branch, env.active)
            && (forall j :: 0 <= j < |p.environments| && j != i ==> q.environments[j] == p.environments[j])
            && |q.envVars| == |p.envVars|
            && forall k :: 0 <= k < |p.envVars| ==>
                 && q.envVars[k].key == p.envVars[k].key && q.envVars[k].value == p.envVars[k].value
                 && q.envVars[k].tag == if p.envVars[k].tag == Some(env.slug) && v.slug != "" then Some(v.slug)
                                        else p.envVars[k].tag
  {
    IndexIsFirst(p.environments, id, i);
    hide IndexOf, SlugTaken;
  }

  /** Deleting switches the environment off and drops the variables tagged with its slug, in order. */
  lemma DeletesExactly(p: Project, id: string, i: nat)
    requires FirstWith(p.environments, id, i) && id != ""
    ensures Delete(p, id).Fault? <==> id == "prod"
    ensures id != "prod" ==>
      var env, q := p.environments[i], Delete(p, id).value;
      && q.environments == p.environments[i := Environment(id, env.name, env.slug, env.color, env.branch, false)]
      && Drops(p.envVars, q.envVars, env.slug)
  {
    IndexIsFirst(p.environments, id, i);
    UntaggedDrops(p.envVars, p.environments[i].slug);
    hide IndexOf, Drops;
  }

  /** No environment with the id, no change and no error, except for production's. */
  lemma MissingIsNoError(p: Project, id: string, v: Values)
    requires forall i :: 0 <= i < |p.environments| ==> p.environments[i].id != id
    ensures Update(p, id, v) == Ok(p)
    ensures Delete(p, id) == if id == "prod" then Fault("production_fixed", 400) else Ok(p)
  {
    IndexOfFirst(p.environments, id);
    hide IndexOf;
  }

  /** `kept` are the variables without the tag: as many of each, and in their order. */
  ghost predicate Drops(vars: seq<EnvVar>, kept: seq<EnvVar>, slug: string) {
    exists from: seq<nat> :: Selects(vars, kept, slug, from)
  }

  ghost predicate Selects(vars: seq<EnvVar>, kept: seq<EnvVar>, slug: string, from: seq<nat>) {
    && |from| == |kept|
    && (forall q :: 0 <= q < |from| ==> from[q] < |vars| && kept[q] == vars[from[q]])
    && (forall q, r :: 0 <= q < r < |from| ==> from[q] < from[r])
    && (forall k :: 0 <= k < |vars| ==> (k in from <==> vars[k].tag != Some(slug)))
  }

  lemma {:induction false} UntaggedDrops(vars: seq<EnvVar>, slug: string)
    ensures Drops(vars, Untagged(vars, slug), slug)
  {
    if vars == [] {
      assert Selects(vars, [], slug, []);
    } else {
      var n := |vars| - 1;
      UntaggedDrops(vars[..n], slug);
      var from :| Selects(vars[..n], Untagged(vars[..n], slug), slug, from);
      SelectsStep(vars, slug, Untagged(vars[..n], slug), from);
      hide Selects;
    }
  }

  lemma SelectsStep(vars: seq<EnvVar>, slug: string, kept: seq<EnvVar>, from: seq<nat>)
    requires vars != [] && Selects(vars[..|vars| - 1], kept, slug, from)
    ensures var n := |vars| - 1;
            if vars[n].tag != Some(slug) then Selects(vars, kept + [vars[n]], slug, from + [n])
            else Selects(vars, kept, slug, from)
  {
    var n := |vars| - 1;
    assert n !in from;
    forall k | 0 <= k < n ensures vars[k] == vars[..n][k] {
    }
    forall q | 0 <= q < |from| ensures kept[q] == vars[from[q]] {
      assert vars[..n][from[q]] == vars[from[q]];
    }
    forall k | 0 <= k < n ensures k in from + [n] <==> k in from {
    }
  }

  // What an environment sees

  /** The variable applies everywhere. */
  predicate Everywhere(v: EnvVar) {
    v.tag == None || v.tag == Some("")
  }

  /** The last variable of a key that the environment has of its own decides the value. */
  lemma OwnValueShows(vars: seq<EnvVar>, slug: string, i: nat)
    requires i < |vars| && vars[i].tag == Some(slug)
    requires forall j :: i < j < |vars| && vars[j].key == vars[i].key ==> vars[j].tag != Some(slug)
    ensures vars[i].key in MapOf(Effective(vars, slug))
    ensures MapOf(Effective(vars, slug))[vars[i].key] == vars[i].value
  {
    OverrideIsOverriding(Globals(vars), vars, slug);
    LastTagged(vars, slug, i);
    hide MapOf, Override, Globals, TaggedMap;
  }

  lemma {:induction false} LastTagged(vars: seq<EnvVar>, slug: string, i: nat)
    requires i < |vars| && vars[i].tag == Some(slug)
    requires forall j :: i < j < |vars| && vars[j].key == vars[i].key ==> vars[j].tag != Some(slug)
    ensures vars[i].key in TaggedMap(vars, slug) && TaggedMap(vars, slug)[vars[i].key] == vars[i].value
  {
    var n := |vars| - 1;
    if i < n {
      LastTagged(vars[..n], slug, i);
    }
  }

  lemma {:induction false} NoneTagged(vars: seq<EnvVar>, slug: string, k: string)
    requires forall j :: 0 <= j < |vars| && vars[j].key == k ==> vars[j].tag != Some(slug)
    ensures k !in TaggedMap(vars, slug)
  {
    if vars != [] {
      NoneTagged(vars[..|vars| - 1], slug, k);
    }
  }

  lemma {:induction false} LastGlobal(vars: seq<EnvVar>, i: nat)
    requires i < |vars| && Everywhere(vars[i])
    requires forall j :: i < j < |vars| && vars[j].key == vars[i].key ==> !Everywhere(vars[j])
    ensures vars[i].key in MapOf(Globals(vars)) && MapOf(Globals(vars))[vars[i].key] == vars[i].value
  {
    var n := |vars| - 1;
    Appended(Globals(vars[..n]), vars[n]);
    hide MapOf;
    if i < n {
      LastGlobal(vars[..n], i);
    }
  }

  /** Without one of its own, the last variable of the key that applies everywhere does. */
  lemma GlobalValueShows(vars: seq<EnvVar>, slug: string, i: nat)
    requires i < |vars| && Everywhere(vars[i])
    requires forall j :: i < j < |vars| && vars[j].key == vars[i].key ==> !Everywhere(vars[j])
    requires forall j :: 0 <= j < |vars| && vars[j].key == vars[i].key ==> vars[j].tag != Some(slug)
    ensures vars[i].key in MapOf(Effective(vars, slug))
    ensures MapOf(Effective(vars, slug))[vars[i].key] == vars[i].value
  {
    OverrideIsOverriding(Globals(vars), vars, slug);
    NoneTagged(vars, slug, vars[i].key);
    LastGlobal(vars, i);
    hide MapOf, Override, Globals, TaggedMap;
  }

  /** A key that only other environments have is not seen at all. */
  lemma NothingElseShows(vars: seq<EnvVar>, slug: string, k: string)
    requires forall j :: 0 <= j < |vars| && vars[j].key == k ==> !Everywhere(vars[j]) && vars[j].tag != Some(slug)
    ensures k !in MapOf(Effective(vars, slug))
  {
    OverrideIsOverriding(Globals(vars), vars, slug);
    NoneTagged(vars, slug, k);
    GlobalKeys(vars, k);
    hide MapOf, Override, Globals, TaggedMap;
  }

  // Wildcards

  /** The `*` that counts: one at the start, or else one at the end, or else the first. */
  predicate StarCounts(pattern: string, prefix: string, suffix: string) {
    && pattern == prefix + "*" + suffix
    && (prefix == "" || (suffix == "" && prefix[0] != '*')
        || ('*' !in prefix && suffix != "" && suffix[|suffix| - 1] != '*'))
  }

  lemma PartsCount(pattern: string)
    requires '*' in pattern
    ensures StarCounts(pattern, Parts(pattern).0, Parts(pattern).1)
  {
    FirstStar(pattern);
    PartsSplit(pattern);
    var (prefix, suffix) := Parts(pattern);
    assert suffix != "" ==> pattern[|pattern| - 1] == suffix[|suffix| - 1];
    assert prefix != "" ==> pattern[0] == prefix[0];
    hide BeforeStar;
  }

  lemma BeforeFirstStar(prefix: string, suffix: string)
    requires '*' !in prefix
    ensures '*' in prefix + "*" + suffix && BeforeStar(prefix + "*" + suffix) == prefix
  {
    var pattern, n := prefix + "*" + suffix, |prefix|;
    assert pattern[n] == '*' && pattern[..n] == prefix;
    FirstStar(pattern);
    var before := BeforeStar(pattern);
    hide BeforeStar;
    assert pattern[|before|] == '*' && pattern[..|before|] == before;
    assert forall i :: 0 <= i < n ==> pattern[i] == prefix[i] && prefix[i] in prefix;
    assert |before| == n;
  }

  lemma AroundStar(prefix: string, suffix: string)
    ensures var pattern := prefix + "*" + suffix;
            && '*' in pattern && pattern[|prefix| + 1..] == suffix && pattern[..|prefix|] == prefix
            && pattern[0] == (if prefix == "" then '*' else prefix[0])
            && pattern[|pattern| - 1] == (if suffix == "" then '*' else suffix[|suffix| - 1])
  {
    assert (prefix + "*" + suffix)[|prefix|] == '*';
  }

  lemma CountsIsParts(pattern: string, prefix: string, suffix: string)
    requires StarCounts(pattern, prefix, suffix)
    ensures '*' in pattern && Parts(pattern) == (prefix, suffix)
  {
    AroundStar(prefix, suffix);
    if prefix != "" && suffix != "" {
      assert prefix[0] != '*';
      BeforeFirstStar(prefix, suffix);
    }
    hide BeforeStar;
  }

  lemma {:induction false} FirstStar(s: string)
    requires '*' in s
    ensures '*' !in BeforeStar(s) && forall i :: 0 <= i < |s| && s[i] == '*' ==> |BeforeStar(s)| <= i
  {
    if s[0] != '*' {
      FirstStar(s[1..]);
      assert BeforeStar(s) == [s[0]] + BeforeStar(s[1..]);
      assert forall i :: 1 <= i < |s| ==> s[i] == s[1..][i - 1];
    }
  }

  /** A pattern takes its own text, and what begins and ends as it does around the `*` that counts. */
  lemma MatchesExactly(pattern: string, branch: string)
    ensures Matches(pattern, branch) <==>
            || branch == pattern
            || exists prefix, suffix :: StarCounts(pattern, prefix, suffix)
                 && |prefix| <= |branch| && branch[..|prefix|] == prefix
                 && |suffix| <= |branch| && branch[|branch| - |suffix|..] == suffix
  {
    if '*' in pattern {
      PartsCount(pattern);
      forall prefix, suffix | StarCounts(pattern, prefix, suffix) ensures Parts(pattern) == (prefix, suffix) {
        CountsIsParts(pattern, prefix, suffix);
      }
      hide StarCounts, Parts;
      var (prefix, suffix) := Parts(pattern);
      assert StarCounts(pattern, prefix, suffix);
    } else {
      forall prefix, suffix ensures !StarCounts(pattern, prefix, suffix) {
        assert (prefix + "*" + suffix)[|prefix|] == '*';
      }
    }
  }

  // Groups

  /** A group's branches are those that belong to it, each where and as often as it is listed. */
  ghost predicate Gathers(
    environments: seq<Environment>, branches: seq<string>, group: string, list: seq<string>, from: seq<nat>)
    requires environments != []
  {
    && |from| == |list|
    && (forall q :: 0 <= q < |from| ==> from[q] < |branches| && list[q] == branches[from[q]])
    && (forall q, r :: 0 <= q < r < |from| ==> from[q] < from[r])
    && (forall k :: 0 <= k < |branches| ==> (k in from <==> Home(environments, branches[k]) == group))
  }

  lemma GathersStep(
      environments: seq<Environment>, branches: seq<string>, group: string, list: seq<string>, from: seq<nat>)
    requires environments != [] && branches != []
    requires Gathers(environments, branches[..|branches| - 1], group, list, from)
    ensures var n := |branches| - 1;
            if Home(environments, branches[n]) == group
            then Gathers(environments, branches, group, list + [branches[n]], from + [n])
            else Gathers(environments, branches, group, list, from)
  {
    hide Home;
    var n := |branches| - 1;
    assert n !in from;
    forall k | 0 <= k < n ensures branches[k] == branches[..n][k] {
    }
    forall q | 0 <= q < |from| ensures list[q] == branches[from[q]] {
      assert branches[..n][from[q]] == branches[from[q]];
    }
    forall k | 0 <= k < n ensures k in from + [n] <==> k in from {
    }
  }

  lemma {:induction false} GroupsInOrder(environments: seq<Environment>, branches: seq<string>, group: string)
    requires environments != []
    ensures exists from :: Gathers(environments, branches, group, BranchesOf(environments, branches, group), from)
  {
    if branches == [] {
      assert BranchesOf(environments, branches, group) == [];
      assert Gathers(environments, branches, group, BranchesOf(environments, branches, group), []);
    } else {
      var n := |branches| - 1;
      GroupsInOrder(environments, branches[..n], group);
      var list := BranchesOf(environments, branches[..n], group);
      var from :| Gathers(environments, branches[..n], group, list, from);
      GathersStep(environments, branches, group, list, from);
      hide Gathers, Home;
      var all := if Home(environments, branches[n]) == group then from + [n] else from;
      assert Gathers(environments, branches, group, BranchesOf(environments, branches, group), all);
    }
  }
}
