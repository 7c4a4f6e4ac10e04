/** A project whose environments and variables are edited in place, and the loops over branches. */
module Environments {
  import opened Faults
  import opened EnvironmentSpec
  import opened EnvironmentRuns
  import Text

  class ProjectRecord {
    var environments: seq<Environment>
    var envVars: seq<EnvVar>

    /** A new project has its production environment. */
    constructor (branch: string)
      ensures Inv(Seen()) && envVars == []
      ensures environments == [Environment("prod", "Production", "production", "blue", branch, true)]
    {
      environments := [Environment("prod", "Production", "production", "blue", branch, true)];
      envVars := [];
    }

    ghost function Seen(): Project
      reads this
    {
      Project(environments, envVars)
    }

    method EffectiveVars(slug: string) returns (vars: seq<EnvVar>)
      ensures vars == Effective(envVars, slug)
    {
      vars := [];
      for n := 0 to |envVars|
        invariant vars == Globals(envVars[..n])
      {
        assert envVars[..n + 1][..n] == envVars[..n];
        if envVars[n].Global() {
          vars := vars + [envVars[n]];
        }
      }
      assert envVars[..|envVars|] == envVars;
      for n := 0 to |envVars|
        invariant vars == Override(Globals(envVars), envVars[..n], slug)
      {
        assert envVars[..n + 1][..n] == envVars[..n];
        if envVars[n].tag == Some(slug) {
          vars := WithoutKey(vars, envVars[n].key) + [envVars[n]];
        }
      }
    }

    method CreateEnvironment(id: string, v: Values) returns (r: Outcome<Environment>)
      modifies this`environments
      ensures var created := Create(old(Seen()), id, v);
              && (if r.Ok? then created.Ok? else created == Fault(r.code, r.status))
              && Seen() == (if created.Ok? then created.value else old(Seen()))
      ensures r.Ok? ==> environments == old(environments) + [r.value]
    {
      if SlugTaken(environments, v.slug, None) {
        return Fault("slug_taken", 400);
      }
      var env := Environment(id, v.name, v.slug, v.color, v.branch, true);
      environments := environments + [env];
      return Ok(env);
    }

    method UpdateEnvironment(id: string, v: Values) returns (r: Outcome<Option<Environment>>)
      modifies this
      ensures var updated := Update(old(Seen()), id, v);
              && (if r.Ok? then updated.Ok? else updated == Fault(r.code, r.status))
              && Seen() == (if updated.Ok? then updated.value else old(Seen()))
      ensures r.Ok? && r.value.Some? ==> r.value.value in environments && r.value.value.id == id
    {
      var i := IndexOf(environments, id);
      if i.None? {
        return Ok(None);
      }
      var env := environments[i.value];
      if id == "prod" && (env.name != v.name || env.slug != v.slug) {
        return Fault("production_fixed", 400);
      }
      if v.slug != "" && v.slug != env.slug && SlugTaken(environments, v.slug, Some(id)) {
        return Fault("slug_taken", 400);
      }
      var updated := env.(name := v.name, slug := v.slug, color := v.color, branch := v.branch);
      environments := environments[i.value := updated];
      if v.slug != "" && v.slug != env.slug {
        Retag(env.slug, v.slug);
      }
      assert environments[i.value] == updated;
      return Ok(Some(updated));
    }

    /** Moves every variable of one slug to another, one after the other. */
    method Retag(was: string, slug: string)
      modifies this`envVars
      ensures envVars == Retagged(old(envVars), was, slug)
    {
      var vars := envVars;
      for n := 0 to |vars|
        invariant |vars| == |envVars|
        invariant forall i :: 0 <= i < n ==> vars[i] == Retagged(envVars, was, slug)[i]
        invariant forall i :: n <= i < |vars| ==> vars[i] == envVars[i]
      {
        if vars[n].tag == Some(was) {
          vars := vars[n := vars[n].(tag := Some(slug))];
        }
      }
      envVars := vars;
    }

    method DeleteEnvironment(id: string) returns (r: Outcome<bool>)
      modifies this
      ensures var deleted := Delete(old(Seen()), id);
              && (if r.Ok? then deleted.Ok? else deleted == Fault(r.code, r.status))
              && Seen() == (if deleted.Ok? then deleted.value else old(Seen()))
      ensures r.Ok? ==> (r.value <==> id != "" && IndexOf(old(environments), id).Some?)
    {
      if id == "" {
        return Ok(false);
      }
      if id == "prod" {
        return Fault("production_fixed", 400);
      }
      var i := IndexOf(environments, id);
      if i.None? {
        return Ok(false);
      }
      var env := environments[i.value];
      envVars := Untagged(envVars, env.slug);
      environments := environments[i.value := env.(active := false)];
      return Ok(true);
    }
  }

  method PatternTakes(pattern: string, branch: string) returns (ok: bool)
    ensures ok == Matches(pattern, branch)
  {
    if pattern == branch {
      return true;
    }
    if '*' in pattern {
      if pattern[0] == '*' {
        return Text.EndsWith(branch, pattern[1..]);
      }
      if pattern[|pattern| - 1] == '*' {
        return Text.StartsWith(branch, pattern[..|pattern| - 1]);
      }
      var prefix := BeforeStar(pattern);
      return Text.StartsWith(branch, prefix) && Text.EndsWith(branch, pattern[|prefix| + 1..]);
    }
    return false;
  }

  /** Scans the environments in order and stops at the first that takes the branch. */
  method EnvironmentForBranch(environments: seq<Environment>, branch: string) returns (found: Option<Environment>)
    requires environments != []
    ensures found == if FirstMatch(environments, branch).None? then None
                     else Some(environments[FirstMatch(environments, branch).value])
  {
    hide Matches;
    if environments[0].branch == branch {
      return Some(environments[0]);
    }
    for i := 1 to |environments|
      invariant MatchFrom(environments, branch, 1) == MatchFrom(environments, branch, i)
    {
      var takes := PatternTakes(environments[i].branch, branch);
      if takes {
        return Some(environments[i]);
      }
    }
    return None;
  }

  /** Appends each branch to the list of the environment it goes to. */
  method GroupBranches(environments: seq<Environment>, branches: seq<string>) returns (groups: map<string, seq<string>>)
    requires environments != []
    ensures groups == Groups(environments, branches)
  {
    groups := map g | g in GroupNames(environments) :: [];
    for n := 0 to |branches|
      invariant groups == Groups(environments, branches[..n])
    {
      assert branches[..n + 1][..n] == branches[..n];
      var matching := EnvironmentForBranch(environments, branches[n]);
      var home := if matching.Some? then matching.value.slug else "unmatched";
      assert home == Home(environments, branches[n]);
      assert home in GroupNames(environments);
      hide Home, FirstMatch;
      groups := groups[home := groups[home] + [branches[n]]];
    }
    assert branches[..|branches|] == branches;
  }
}
