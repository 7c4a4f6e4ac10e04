/** The jobs themselves, each run from start to end over the deployment and alias tables. */
module Lifecycle {
  import opened Faults
  import opened LifecycleSpec

  lemma {:induction false} RunConcat(s: State, a: seq<Event>, b: seq<Event>)
    ensures Run(s, a + b) == Run(Run(s, a), b)
    decreases |a|
  {
    hide Step;
    if a == [] {
      assert a + b == b;
    } else {
      assert (a + b)[0] == a[0] && (a + b)[1..] == a[1..] + b;
      RunConcat(Step(s, a[0]), a[1..], b);
    }
  }

  lemma RunOneMore(s: State, a: seq<Event>, e: Event)
    ensures Run(s, a + [e]) == Step(Run(s, a), e)
  {
    RunConcat(s, a, [e]);
    assert [e][1..] == [];
  }

  /** How many of the listed deployments a cleanup stops. */
  function StopCount(ids: seq<string>, outcomes: map<string, StopOutcome>): nat {
    if ids == [] then 0
    else
      var n := |ids| - 1;
      StopCount(ids[..n], outcomes) + if OutcomeOf(outcomes, ids[n]).Stops() then 1 else 0
  }

  function OutcomeOf(outcomes: map<string, StopOutcome>, id: string): StopOutcome {
    if id in outcomes then outcomes[id] else StopFails
  }

  function Stops(ids: seq<string>, outcomes: map<string, StopOutcome>): seq<Event> {
    seq(|ids|, i requires 0 <= i < |ids| => Stop(0, ids[i], OutcomeOf(outcomes, ids[i])))
  }

  /** A whole cleanup: two queries, one stop after another, and a commit if anything was stopped. */
  function CleanupScript(project: string, ids: seq<string>, outcomes: map<string, StopOutcome>): seq<Event> {
    [SelectActive(0, project), SelectInactive(0)] + Stops(ids, outcomes) + [EndCleanup(0, StopCount(ids, outcomes) > 0)]
  }

  /** Where a cleanup is after the first `n` of the listed deployments. */
  ghost function Midway(s: State, project: string, ids: seq<string>, n: nat,
                        done: map<string, Option<ContainerStatus>>, swept: set<string>): State
    requires n <= |ids|
  {
    s.(cleanups := map[0 := Sweeping(project, Elements(ids[n..]), done)], swept := swept)
  }

  function Elements(ids: seq<string>): set<string> {
    set id | id in ids
  }

  function Noted(
      done: map<string, Option<ContainerStatus>>, id: string, outcome: StopOutcome)
    : map<string, Option<ContainerStatus>>
  {
    if outcome.StopFails? then done else done[id := AfterStop(outcome)]
  }

  lemma MidwayStep(s: State, project: string, ids: seq<string>, n: nat, outcome: StopOutcome,
                   done: map<string, Option<ContainerStatus>>, swept: set<string>)
    requires n < |ids| && forall i, j :: 0 <= i < j < |ids| ==> ids[i] != ids[j]
    ensures Step(Midway(s, project, ids, n, done, swept), Stop(0, ids[n], outcome))
            == Midway(s, project, ids, n + 1, Noted(done, ids[n], outcome),
                      if outcome.Stops() then swept + {ids[n]} else swept)
  {
    assert ids[n..] == [ids[n]] + ids[n + 1..];
    assert Elements(ids[n..]) - {ids[n]} == Elements(ids[n + 1..]);
  }

  lemma StopsStep(first: seq<Event>, ids: seq<string>, n: nat, outcomes: map<string, StopOutcome>)
    requires n < |ids|
    ensures first + Stops(ids[..n + 1], outcomes)
            == (first + Stops(ids[..n], outcomes)) + [Stop(0, ids[n], OutcomeOf(outcomes, ids[n]))]
    ensures StopCount(ids[..n + 1], outcomes)
            == StopCount(ids[..n], outcomes) + if OutcomeOf(outcomes, ids[n]).Stops() then 1 else 0
  {
    assert ids[..n + 1][..n] == ids[..n];
  }

  class DeploymentJobs {
    var deployments: map<string, Deployment>
    var aliases: map<string, Alias>
    var swept: set<string>

    constructor ()
      ensures Seen() == State(map[], map[], {}, {}, map[], {})
    {
      deployments, aliases, swept := map[], map[], {};
    }

    /** The tables between jobs. */
    ghost function Seen(): State
      reads this
    {
      State(deployments, aliases, {}, {}, map[], swept)
    }

    method UpdateAlias(subdomain: string, id: string, kind: string, environment: string)
      modifies this`aliases
      ensures aliases == UpdateOrCreate(old(aliases), subdomain, id, kind == "environment" && environment == "prod")
    {
      if subdomain in aliases {
        var alias := aliases[subdomain];
        if alias.current == id {
          return;
        }
        var previous := if kind == "environment" && environment == "prod" then Some(alias.current) else None;
        aliases := aliases[subdomain := Alias(id, previous)];
      } else {
        aliases := aliases[subdomain := Alias(id, None)];
      }
    }

    method SetupAll(id: string, environment: string, s: Subdomains)
      modifies this`aliases
      ensures aliases == SetupAliases(old(aliases), id, environment, s)
    {
      if s.branch.Some? {
        UpdateAlias(s.branch.value, id, "branch", "");
      }
      if s.environment.Some? {
        UpdateAlias(s.environment.value, id, "environment", environment);
      }
      if s.environmentId.Some? {
        UpdateAlias(s.environmentId.value, id, "environment_id", environment);
      }
    }

    method Finalize(id: string, s: Subdomains)
      requires id in deployments
      modifies this`deployments, this`aliases
      ensures Seen() == Run(old(Seen()), [CommitAliases(id, s), CommitStatus(id)])
      ensures if old(deployments)[id].conclusion == Some(Canceled) then
                deployments == old(deployments) && aliases == old(aliases)
              else
                && deployments == old(deployments)[id :=
                     old(deployments)[id].(status := Completed, conclusion := Some(Succeeded))]
                && aliases == SetupAliases(old(aliases), id, old(deployments)[id].environment, s)
    {
      ghost var s0, es := Seen(), [CommitAliases(id, s), CommitStatus(id)];
      RunOneMore(s0, [], es[0]);
      RunOneMore(s0, [es[0]], es[1]);
      assert [] + [es[0]] == [es[0]] && [es[0]] + [es[1]] == es;
      hide Run, SetupAliases;
      var d := deployments[id];
      if d.conclusion == Some(Canceled) {
        return;
      }
      SetupAll(id, d.environment, s);
      deployments := deployments[id := d.(status := Completed, conclusion := Some(Succeeded))];
    }

    method Fail(id: string, container: Option<ContainerStatus>)
      requires id in deployments
      modifies this`deployments
      ensures Seen() == Run(old(Seen()), [BeginFail(id), EndFail(id, container)])
      ensures if old(deployments)[id].conclusion.Some? then deployments == old(deployments)
              else deployments == old(deployments)[id := old(deployments)[id].(
                     status := Completed, conclusion := Some(Failed),
                     container := if !old(deployments)[id].hasContainer || container.None?
                                     || old(deployments)[id].container in {Some(Removed), Some(Stopped)}
                                  then old(deployments)[id].container else container)]
    {
      ghost var s0, es := Seen(), [BeginFail(id), EndFail(id, container)];
      RunOneMore(s0, [], es[0]);
      RunOneMore(s0, [es[0]], es[1]);
      assert [] + [es[0]] == [es[0]] && [es[0]] + [es[1]] == es;
      hide Run;
      var d := deployments[id];
      if d.conclusion.Some? {
        return;
      }
      d := d.(status := Failing);
      deployments := deployments[id := d];
      if d.hasContainer && d.container != Some(Removed) && d.container != Some(Stopped) && container.Some? {
        d := d.(container := container);
      }
      deployments := deployments[id := d.(status := Completed, conclusion := Some(Failed))];
    }

    method CancelDeployment(id: string, container: Option<ContainerStatus>) returns (r: Outcome<()>)
      requires id in deployments
      modifies this`deployments
      ensures Seen() == Step(old(Seen()), Cancel(id, container))
      ensures r.Ok? <==> var d := old(deployments)[id];
        d.status != Finalizing && d.status != Failing && d.status != Completed && d.conclusion.None?
      ensures r.Fault? ==> deployments == old(deployments)
      ensures r.Ok? ==> deployments == old(deployments)[id := old(deployments)[id].(
        status := Completed, conclusion := Some(Canceled),
        container := if !old(deployments)[id].hasContainer || container.None?
                        || old(deployments)[id].container in {Some(Removed), Some(Stopped)}
                     then old(deployments)[id].container else container)]
    {
      var d := deployments[id];
      if d.status.Finalizing? || d.status.Failing? || d.status.Completed? || d.conclusion.Some? {
        return Fault("not_cancelable", 409);
      }
      d := d.(status := Completed, conclusion := Some(Canceled));
      if d.hasContainer && d.container != Some(Removed) && d.container != Some(Stopped) && container.Some? {
        d := d.(container := container);
      }
      deployments := deployments[id := d];
      return Ok(());
    }

    method RollbackTo(subdomain: string) returns (r: Outcome<Alias>)
      modifies this`aliases
      ensures Seen() == Step(old(Seen()), Rollback(subdomain))
      ensures r.Ok? <==> subdomain in old(aliases) && old(aliases)[subdomain].previous.Some?
      ensures r.Ok? ==>
        && aliases[subdomain] == r.value
        && r.value == Alias(old(aliases)[subdomain].previous.value, Some(old(aliases)[subdomain].current))
    {
      if subdomain !in aliases || aliases[subdomain].previous.None? {
        return Fault("no_previous_deployment", 400);
      }
      var a := aliases[subdomain];
      var swapped := Alias(a.previous.value, Some(a.current));
      aliases := aliases[subdomain := swapped];
      return Ok(swapped);
    }

    /** The first query: what the project's aliases serve or could return to. */
    method QueryActive(project: string) returns (active: set<string>)
      ensures active == ActiveIds(Seen(), project)
    {
      active := {};
      var rest := aliases.Keys;
      while rest != {}
        invariant rest <= aliases.Keys
        invariant forall id :: id in active <==>
          && id in deployments && deployments[id].project == project
          && exists sub :: sub in aliases.Keys - rest && Points(aliases[sub], id)
        decreases rest
      {
        var sub :| sub in rest;
        var a := aliases[sub];
        ghost var was, before := active, rest;
        rest := rest - {sub};
        var found := {a.current} + if a.previous.Some? then {a.previous.value} else {};
        active := active + set id | id in found && id in deployments && deployments[id].project == project;
        forall id ensures (exists x :: x in aliases.Keys - rest && Points(aliases[x], id)) <==>
                          Points(a, id) || exists x :: x in aliases.Keys - before && Points(aliases[x], id) {
          assert sub in aliases.Keys - rest;
        }
      }
    }

    /** Stops what the queries find, in the order they list it. */
    method CleanupInactive(project: string, ids: seq<string>, outcomes: map<string, StopOutcome>) returns (stopped: nat)
      requires Lists(Seen(), project, ids)
      modifies this`deployments, this`swept
      ensures Seen() == Run(old(Seen()), CleanupScript(project, ids, outcomes))
      ensures stopped == StopCount(ids, outcomes)
    {
      CleanupRuns(Seen(), project, ids, outcomes);
      var done: map<string, Option<ContainerStatus>> := map[];
      stopped := 0;
      hide Run, ActiveIds, InactiveIds, OutcomeOf;
      for n := 0 to |ids|
        invariant deployments == old(deployments) && aliases == old(aliases)
        invariant stopped == StopCount(ids[..n], outcomes)
        invariant done == DoneAfter(ids[..n], outcomes)
        invariant swept == SweptAfter(old(swept), ids[..n], outcomes)
      {
        var id := ids[n];
        var outcome := OutcomeOf(outcomes, id);
        SweptStep(old(swept), ids, n, outcomes);
        assert ids[..n + 1][..n] == ids[..n];
        if outcome.Stops() {
          stopped := stopped + 1;
          swept := swept + {id};
        }
        if !outcome.StopFails? {
          done := done[id := AfterStop(outcome)];
        }
      }
      assert ids[..|ids|] == ids;
      if stopped > 0 {
        deployments := Recorded(deployments, done);
      }
    }
  }

  lemma EndStep(
      s: State, project: string, ids: seq<string>, done: map<string, Option<ContainerStatus>>,
      swept: set<string>, committed: bool)
    requires s.cleanups == map[]
    ensures Step(Midway(s, project, ids, |ids|, done, swept), EndCleanup(0, committed))
            == s.(swept := swept, deployments := if committed then Recorded(s.deployments, done) else s.deployments)
  {
    hide Recorded;
    var t := Midway(s, project, ids, |ids|, done, swept);
    assert t.cleanups - {0} == map[];
  }

  lemma QueriesRun(s: State, project: string)
    requires s.cleanups == map[] && s.aliased == {} && s.failing == {}
    ensures Run(s, [SelectActive(0, project), SelectInactive(0)])
            == s.(cleanups := map[0 := Sweeping(project, InactiveIds(s, project, ActiveIds(s, project)), map[])])
  {
    var es := [SelectActive(0, project), SelectInactive(0)];
    RunOneMore(s, [], es[0]);
    RunOneMore(s, [es[0]], es[1]);
    assert [] + [es[0]] == [es[0]] && [es[0]] + [es[1]] == es;
  }

  // What a cleanup leaves for the next one

  /** What the stops of the listed deployments come to. */
  function DoneAfter(ids: seq<string>, outcomes: map<string, StopOutcome>): map<string, Option<ContainerStatus>> {
    if ids == [] then map[]
    else
      var n := |ids| - 1;
      Noted(DoneAfter(ids[..n], outcomes), ids[n], OutcomeOf(outcomes, ids[n]))
  }

  function SweptAfter(swept: set<string>, ids: seq<string>, outcomes: map<string, StopOutcome>): set<string> {
    swept + set id | id in ids && OutcomeOf(outcomes, id).Stops()
  }

  lemma {:induction false} DoneExactly(ids: seq<string>, outcomes: map<string, StopOutcome>)
    ensures forall id :: id in DoneAfter(ids, outcomes) <==> id in ids && !OutcomeOf(outcomes, id).StopFails?
    ensures forall id :: id in DoneAfter(ids, outcomes) ==>
              DoneAfter(ids, outcomes)[id] == AfterStop(OutcomeOf(outcomes, id))
  {
    hide OutcomeOf;
    if ids != [] {
      var n := |ids| - 1;
      DoneExactly(ids[..n], outcomes);
      assert ids == ids[..n] + [ids[n]];
    }
  }

  lemma SweptStep(swept: set<string>, ids: seq<string>, n: nat, outcomes: map<string, StopOutcome>)
    requires n < |ids|
    ensures SweptAfter(swept, ids[..n + 1], outcomes)
            == if OutcomeOf(outcomes, ids[n]).Stops() then SweptAfter(swept, ids[..n], outcomes) + {ids[n]}
               else SweptAfter(swept, ids[..n], outcomes)
  {
    hide OutcomeOf;
    assert ids[..n + 1] == ids[..n] + [ids[n]];
  }

  /** A listing of what the two queries find. */
  ghost predicate Lists(s: State, project: string, ids: seq<string>) {
    && (forall id :: id in ids <==> id in InactiveIds(s, project, ActiveIds(s, project)))
    && (forall i, j :: 0 <= i < j < |ids| ==> ids[i] != ids[j])
  }

  ghost predicate Quiet(s: State) {
    s.cleanups == map[] && s.aliased == {} && s.failing == {}
  }

  lemma {:induction false} StopsRun(
    s: State, project: string, ids: seq<string>, n: nat, outcomes: map<string, StopOutcome>)
    requires Quiet(s) && Lists(s, project, ids) && n <= |ids|
    ensures Run(s, [SelectActive(0, project), SelectInactive(0)] + Stops(ids[..n], outcomes))
            == Midway(s, project, ids, n, DoneAfter(ids[..n], outcomes), SweptAfter(s.swept, ids[..n], outcomes))
  {
    var queries := [SelectActive(0, project), SelectInactive(0)];
    if n == 0 {
      QueriesRun(s, project);
      hide ActiveIds, InactiveIds, Step;
      assert queries + Stops(ids[..0], outcomes) == queries;
      assert Elements(ids[0..]) == InactiveIds(s, project, ActiveIds(s, project));
      assert SweptAfter(s.swept, ids[..0], outcomes) == s.swept;
    } else {
      StopsRun(s, project, ids, n - 1, outcomes);
      hide ActiveIds, InactiveIds, Step, OutcomeOf, Run;
      var sofar := queries + Stops(ids[..n - 1], outcomes);
      StopsStep(queries, ids, n - 1, outcomes);
      RunOneMore(s, sofar, Stop(0, ids[n - 1], OutcomeOf(outcomes, ids[n - 1])));
      MidwayStep(s, project, ids, n - 1, OutcomeOf(outcomes, ids[n - 1]),
                 DoneAfter(ids[..n - 1], outcomes), SweptAfter(s.swept, ids[..n - 1], outcomes));
      SweptStep(s.swept, ids, n - 1, outcomes);
      assert ids[..n][..n - 1] == ids[..n - 1];
      hide Midway, SweptAfter;
    }
  }

  /** A whole cleanup touches the listed containers only: it stops them and records what it did. */
  lemma CleanupRuns(s: State, project: string, ids: seq<string>, outcomes: map<string, StopOutcome>)
    requires Quiet(s) && Lists(s, project, ids)
    ensures Run(s, CleanupScript(project, ids, outcomes))
            == s.(swept := SweptAfter(s.swept, ids, outcomes),
                  deployments := if StopCount(ids, outcomes) > 0 then Recorded(s.deployments, DoneAfter(ids, outcomes))
                                 else s.deployments)
  {
    StopsRun(s, project, ids, |ids|, outcomes);
    assert ids[..|ids|] == ids;
    hide Run, Step, ActiveIds, InactiveIds, Recorded, SweptAfter, Stops, StopCount, DoneAfter;
    var sofar := [SelectActive(0, project), SelectInactive(0)] + Stops(ids, outcomes);
    RunOneMore(s, sofar, EndCleanup(0, StopCount(ids, outcomes) > 0));
    EndStep(s, project, ids, DoneAfter(ids, outcomes), SweptAfter(s.swept, ids, outcomes),
            StopCount(ids, outcomes) > 0);
    hide Midway;
  }

  /**
   * The next cleanup finds again exactly the deployments whose stop failed, and all of them if
   * nothing was stopped, because then nothing was committed.
   */
  lemma NextCleanupFinds(s: State, project: string, ids: seq<string>, outcomes: map<string, StopOutcome>, id: string)
    requires Quiet(s) && Lists(s, project, ids)
    ensures var t := Run(s, CleanupScript(project, ids, outcomes));
            id in InactiveIds(t, project, ActiveIds(t, project)) <==>
            id in ids && (OutcomeOf(outcomes, id).StopFails? || StopCount(ids, outcomes) == 0)
  {
    CleanupRuns(s, project, ids, outcomes);
    DoneExactly(ids, outcomes);
    var t := Run(s, CleanupScript(project, ids, outcomes));
    hide Run, Referenced, OutcomeOf, StopCount, DoneAfter, SweptAfter;
    assert ActiveIds(t, project) == ActiveIds(s, project);
  }
}
