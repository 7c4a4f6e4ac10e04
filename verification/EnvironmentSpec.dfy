/** A project's environments, its tagged variables, and the branches its environments deploy. */
module EnvironmentSpec {
  import opened Faults
  import Text

  /** An environment is never taken out of the list; deleting it only makes it inactive. */
  datatype Environment = Environment(
    id: string, name: string, slug: string, color: string, branch: string, active: bool)

  /** A variable applies everywhere when its tag is missing or empty. */
  datatype EnvVar = EnvVar(key: string, value: string, tag: Option<string>) {
    predicate Global() {
      tag.None? || tag.value == ""
    }
  }

  datatype Project = Project(environments: seq<Environment>, envVars: seq<EnvVar>)

  // Variables

  function Globals(vars: seq<EnvVar>): seq<EnvVar> {
    if vars == [] then []
    else
      var n := |vars| - 1;
      if vars[n].Global() then Globals(vars[..n]) + [vars[n]] else Globals(vars[..n])
  }

  function WithoutKey(vars: seq<EnvVar>, key: string): seq<EnvVar> {
    if vars == [] then []
    else
      var n := |vars| - 1;
      if vars[n].key != key then WithoutKey(vars[..n], key) + [vars[n]] else WithoutKey(vars[..n], key)
  }

  /** `start` with the environment's own variables each replacing its key, in order. */
  function Override(start: seq<EnvVar>, vars: seq<EnvVar>, slug: string): seq<EnvVar> {
    if vars == [] then start
    else
      var n := |vars| - 1;
      var before := Override(start, vars[..n], slug);
      if vars[n].tag == Some(slug) then WithoutKey(before, vars[n].key) + [vars[n]] else before
  }

  function Effective(vars: seq<EnvVar>, slug: string): seq<EnvVar> {
    Override(Globals(vars), vars, slug)
  }

  function Retagged(vars: seq<EnvVar>, was: string, slug: string): (r: seq<EnvVar>)
    ensures |r| == |vars|
  {
    seq(|vars|, i requires 0 <= i < |vars| =>
      if vars[i].tag == Some(was) then vars[i].(tag := Some(slug)) else vars[i])
  }

  function Untagged(vars: seq<EnvVar>, slug: string): seq<EnvVar> {
    if vars == [] then []
    else
      var n := |vars| - 1;
      if vars[n].tag != Some(slug) then Untagged(vars[..n], slug) + [vars[n]] else Untagged(vars[..n], slug)
  }

  // Environments

  function Actives(environments: seq<Environment>): seq<Environment> {
    if environments == [] then []
    else
      var n := |environments| - 1;
      if environments[n].active then Actives(environments[..n]) + [environments[n]] else Actives(environments[..n])
  }

  /** The first environment with the id. */
  function IndexOf(environments: seq<Environment>, id: string): (i: Option<nat>)
    ensures i.Some? ==> i.value < |environments| && environments[i.value].id == id
  {
    if environments == [] then None
    else if environments[0].id == id then Some(0)
    else
      var i := IndexOf(environments[1..], id);
      if i.None? then None else Some(i.value + 1)
  }

  /** Another active environment has the slug. */
  predicate SlugTaken(environments: seq<Environment>, slug: string, exclude: Option<string>) {
    exists i :: 0 <= i < |environments| && environments[i].active && environments[i].slug == slug
                && (exclude.None? || environments[i].id != exclude.value)
  }

  datatype Values = Values(name: string, slug: string, color: string, branch: string)

  function Create(p: Project, id: string, v: Values): Outcome<Project> {
    if SlugTaken(p.environments, v.slug, None) then Fault("slug_taken", 400)
    else Ok(p.(environments := p.environments + [Environment(id, v.name, v.slug, v.color, v.branch, true)]))
  }

  /** A missing environment is not an error: nothing is updated. */
  function Update(p: Project, id: string, v: Values): Outcome<Project> {
    var i := IndexOf(p.environments, id);
    if i.None? then Ok(p)
    else
      var env := p.environments[i.value];
      if id == "prod" && (env.name != v.name || env.slug != v.slug) then Fault("production_fixed", 400)
      else if v.slug != "" && v.slug != env.slug && SlugTaken(p.environments, v.slug, Some(id)) then
        Fault("slug_taken", 400)
      else
        Ok(Project(
             p.environments[i.value := env.(name := v.name, slug := v.slug, color := v.color, branch := v.branch)],
             if v.slug != "" && v.slug != env.slug then Retagged(p.envVars, env.slug, v.slug) else p.envVars))
  }

  function Delete(p: Project, id: string): Outcome<Project> {
    if id == "" then Ok(p)
    else if id == "prod" then Fault("production_fixed", 400)
    else
      var i := IndexOf(p.environments, id);
      if i.None? then Ok(p)
      else
        var env := p.environments[i.value];
        Ok(Project(p.environments[i.value := env.(active := false)], Untagged(p.envVars, env.slug)))
  }

  // Branches

  /** A `*` stands for any text, but only the first, last or leading one counts. */
  predicate Matches(pattern: string, branch: string) {
    || pattern == branch
    || ('*' in pattern
        && var (prefix, suffix) := Parts(pattern);
           Text.StartsWith(branch, prefix) && Text.EndsWith(branch, suffix))
  }

  /** What comes before and after the `*` that counts. */
  function Parts(pattern: string): (string, string)
    requires '*' in pattern
  {
    if pattern[0] == '*' then ("", pattern[1..])
    else if pattern[|pattern| - 1] == '*' then (pattern[..|pattern| - 1], "")
    else (BeforeStar(pattern), pattern[|BeforeStar(pattern)| + 1..])
  }

  function BeforeStar(s: string): (prefix: string)
    requires '*' in s
    ensures |prefix| < |s| && s == prefix + "*" + s[|prefix| + 1..]
  {
    if s[0] == '*' then "" else [s[0]] + BeforeStar(s[1..])
  }

  /** The first of the environments from `i` on whose pattern matches. */
  function MatchFrom(environments: seq<Environment>, branch: string, i: nat): (found: Option<nat>)
    requires i <= |environments|
    ensures found.Some? ==> i <= found.value < |environments|
    decreases |environments| - i
  {
    if i == |environments| then None
    else if Matches(environments[i].branch, branch) then Some(i)
    else MatchFrom(environments, branch, i + 1)
  }

  /** Production comes first and takes only its own branch; the others may use a wildcard. */
  function FirstMatch(environments: seq<Environment>, branch: string): (found: Option<nat>)
    requires environments != []
    ensures found.Some? ==> found.value < |environments|
  {
    if environments[0].branch == branch then Some(0) else MatchFrom(environments, branch, 1)
  }

  /** The group a branch belongs to. */
  function Home(environments: seq<Environment>, branch: string): string
    requires environments != []
  {
    var i := FirstMatch(environments, branch);
    if i.None? then "unmatched" else environments[i.value].slug
  }

  /** The branches of one group, in their order. */
  function BranchesOf(environments: seq<Environment>, branches: seq<string>, group: string): seq<string>
    requires environments != []
  {
    if branches == [] then []
    else
      var n := |branches| - 1;
      var rest := BranchesOf(environments, branches[..n], group);
      if Home(environments, branches[n]) == group then rest + [branches[n]] else rest
  }

  function GroupNames(environments: seq<Environment>): set<string> {
    (set e | e in environments :: e.slug) + {"unmatched"}
  }

  function Groups(environments: seq<Environment>, branches: seq<string>): map<string, seq<string>>
    requires environments != []
  {
    map g | g in GroupNames(environments) :: BranchesOf(environments, branches, g)
  }
}
