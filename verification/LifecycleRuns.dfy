/** Cleanup never stops what an alias serves or a rollback could return to. */
module LifecycleRuns {
  import opened Faults
  import opened LifecycleSpec

  // Aliases on their own

  /** Setting up a deployment's aliases points nothing new at any other deployment. */
  lemma SetupPointsOnlyAt(aliases: map<string, Alias>, id: string, environment: string, s: Subdomains, other: string)
    requires Referenced(SetupAliases(aliases, id, environment, s), other) && other != id
    ensures Referenced(aliases, other)
  {
    hide SetupAliases;
    var a := UpdateSome(aliases, s.branch, id, false);
    var b := UpdateSome(a, s.environment, id, environment == "prod");
    assert SetupAliases(aliases, id, environment, s) == UpdateSome(b, s.environmentId, id, false) by {
      SetupIsThree(aliases, id, environment, s);
    }
    UpdatePointsOnlyAt(b, s.environmentId, id, false, other);
    UpdatePointsOnlyAt(a, s.environment, id, environment == "prod", other);
    UpdatePointsOnlyAt(aliases, s.branch, id, false, other);
  }

  lemma SetupIsThree(aliases: map<string, Alias>, id: string, environment: string, s: Subdomains)
    ensures SetupAliases(aliases, id, environment, s)
            == UpdateSome(
                 UpdateSome(UpdateSome(aliases, s.branch, id, false), s.environment, id, environment == "prod"),
                 s.environmentId, id, false)
  {
  }

  lemma UpdatePointsOnlyAt(aliases: map<string, Alias>, sub: Option<string>, id: string, keeps: bool, other: string)
    requires Referenced(UpdateSome(aliases, sub, id, keeps), other) && other != id
    ensures Referenced(aliases, other)
  {
    var after := UpdateSome(aliases, sub, id, keeps);
    var s :| s in after && Points(after[s], other);
    assert s in aliases && Points(aliases[s], other);
  }

  lemma UpdateServes(aliases: map<string, Alias>, sub: string, id: string, keeps: bool)
    ensures var after := UpdateOrCreate(aliases, sub, id, keeps);
            sub in after && after[sub].current == id && Referenced(after, id)
  {
    var after := UpdateOrCreate(aliases, sub, id, keeps);
    assert Points(after[sub], id);
  }

  /** Finalizing the same deployment again leaves its aliases, and what they remember, alone. */
  lemma SetupAgain(aliases: map<string, Alias>, id: string, environment: string, s: Subdomains)
    ensures var once := SetupAliases(aliases, id, environment, s);
            SetupAliases(once, id, environment, s) == once
  {
    var a := UpdateSome(aliases, s.branch, id, false);
    var b := UpdateSome(a, s.environment, id, environment == "prod");
    var c := UpdateSome(b, s.environmentId, id, false);
    assert s.branch.Some? ==> c[s.branch.value].current == id;
    assert s.environment.Some? ==> c[s.environment.value].current == id;
  }

  lemma SwapKeepsReferences(aliases: map<string, Alias>, sub: string, id: string)
    requires Swapped(aliases, sub).Some?
    ensures Referenced(Swapped(aliases, sub).value, id) <==> Referenced(aliases, id)
  {
    var after := Swapped(aliases, sub).value;
    if Referenced(aliases, id) {
      var s :| s in aliases && Points(aliases[s], id);
      assert Points(after[s], id);
    }
    if Referenced(after, id) {
      var s :| s in after && Points(after[s], id);
      assert Points(aliases[s], id);
    }
  }

  /**
   * A production deployment remembers the one it replaced, a rollback returns to it, and a second
   * rollback undoes the first.
   */
  lemma RollbackReturns(aliases: map<string, Alias>, sub: string, id: string)
    requires sub in aliases && aliases[sub].current != id
    ensures var deployed := UpdateOrCreate(aliases, sub, id, true);
            var back := Swapped(deployed, sub);
            && back.Some?
            && back.value == aliases[sub := Alias(aliases[sub].current, Some(id))]
            && Swapped(back.value, sub) == Some(deployed)
            && Swapped(UpdateOrCreate(aliases, sub, id, false), sub).None?
  {
    var deployed := UpdateOrCreate(aliases, sub, id, true);
    var back := Swapped(deployed, sub).value;
    assert back[sub := deployed[sub]] == deployed;
  }

  // The invariant

  /** Completed, and out of reach of every alias. */
  ghost predicate Retired(deployments: map<string, Deployment>, aliases: map<string, Alias>, id: string) {
    id in deployments && deployments[id].status.Completed? && !Referenced(aliases, id)
  }

  ghost predicate AllRetired(deployments: map<string, Deployment>, aliases: map<string, Alias>, ids: set<string>) {
    forall id :: id in ids ==> Retired(deployments, aliases, id)
  }

  /** The first query has seen every deployment that is referenced and that the second would take. */
  ghost predicate Seen(
    deployments: map<string, Deployment>, aliases: map<string, Alias>, project: string, active: set<string>)
  {
    forall id :: Stoppable(deployments, project, id) && Referenced(aliases, id) ==> id in active
  }

  ghost predicate CleanupInv(deployments: map<string, Deployment>, aliases: map<string, Alias>, j: Cleanup) {
    match j
    case Selecting(project, active) => Seen(deployments, aliases, project, active)
    case Sweeping(_, targets, done) =>
      AllRetired(deployments, aliases, targets) && forall id :: id in done ==> done[id] != Some(Running)
  }

  ghost predicate Inv(s: State) {
    && AllRetired(s.deployments, s.aliases, s.swept)
    && forall job :: job in s.cleanups ==> CleanupInv(s.deployments, s.aliases, s.cleanups[job])
  }

  // What a run must respect

  /** No job between its queries has missed this deployment while it is referenced and stoppable. */
  ghost predicate SeenByQueries(s: State, id: string) {
    forall job :: job in s.cleanups && s.cleanups[job].Selecting? ==>
      (Stoppable(s.deployments, s.cleanups[job].project, id) && Referenced(s.aliases, id) ==>
         id in s.cleanups[job].active)
  }

  predicate Completes(e: Event) {
    e.CommitStatus? || e.EndFail? || e.Cancel? || e.Abort?
  }

  /**
   * Nothing moves a completed deployment on, and none completes between the two queries of a
   * cleanup that will then take it for inactive.
   */
  ghost predicate Orderly(s: State, e: Event) {
    match e
    case Advance(id, _) => id in s.deployments ==> !s.deployments[id].status.Completed?
    case CommitAliases(id, _) => id in s.deployments ==> !s.deployments[id].status.Completed?
    case BeginFail(id) =>
      id in s.deployments ==> !s.deployments[id].status.Completed? || s.deployments[id].conclusion.Some?
    case _ => Completes(e) ==> SeenByQueries(Step(s, e), e.id)
  }

  ghost predicate OrderlyRun(s: State, events: seq<Event>)
    decreases |events|
  {
    events == [] || (Orderly(s, events[0]) && OrderlyRun(Step(s, events[0]), events[1..]))
  }

  // One step

  /** A deployment may change freely before it completes, and complete where the queries see it. */
  lemma ChangeKeepsInv(s: State, id: string, d: Deployment)
    requires Inv(s) && id in s.deployments
    requires if d.status.Completed? then SeenByQueries(s.(deployments := s.deployments[id := d]), id)
             else !s.deployments[id].status.Completed?
    ensures Inv(s.(deployments := s.deployments[id := d]))
  {
    hide Referenced;
    var t := s.(deployments := s.deployments[id := d]);
    forall job | job in t.cleanups ensures CleanupInv(t.deployments, t.aliases, t.cleanups[job]) {
      assert CleanupInv(s.deployments, s.aliases, s.cleanups[job]);
      assert forall other :: other != id ==>
        Stoppable(t.deployments, t.cleanups[job].project, other)
        == Stoppable(s.deployments, t.cleanups[job].project, other);
    }
  }

  /** Aliases may come to point at a deployment that is not completed, and at nothing else new. */
  lemma AliasesKeepInv(s: State, aliases: map<string, Alias>)
    requires Inv(s)
    requires forall id :: Referenced(aliases, id) && !Referenced(s.aliases, id) ==>
               id in s.deployments && !s.deployments[id].status.Completed?
    ensures Inv(s.(aliases := aliases))
  {
    hide Referenced;
    var t := s.(aliases := aliases);
    forall job | job in t.cleanups ensures CleanupInv(t.deployments, t.aliases, t.cleanups[job]) {
      assert CleanupInv(s.deployments, s.aliases, s.cleanups[job]);
    }
  }

  lemma DeploymentKeepsInv(s: State, e: Event)
    requires e.Advance? || e.CommitAliases? || e.BeginFail? || Completes(e)
    requires Inv(s) && Orderly(s, e) && e.id in s.deployments
    ensures Inv(StepDeployment(s, e))
  {
    hide Inv, SeenByQueries, Referenced, SetupAliases, Halted;
    var d, t := s.deployments[e.id], StepDeployment(s, e);
    if e.CommitAliases? {
      var aliases := SetupAliases(s.aliases, e.id, d.environment, e.subdomains);
      forall other | Referenced(aliases, other) && !Referenced(s.aliases, other) ensures other == e.id {
        if other != e.id {
          SetupPointsOnlyAt(s.aliases, e.id, d.environment, e.subdomains, other);
        }
      }
      AliasesKeepInv(s, aliases);
      JobsApart(s.(aliases := aliases), t.aliased, t.failing);
    } else if t != s {
      var u := s.(deployments := s.deployments[e.id := t.deployments[e.id]]);
      assert t == u.(aliased := t.aliased, failing := t.failing);
      if Completes(e) {
        SeenApart(u, t.aliased, t.failing, e.id);
      }
      ChangeKeepsInv(s, e.id, t.deployments[e.id]);
      JobsApart(u, t.aliased, t.failing);
    }
  }

  lemma SeenApart(s: State, aliased: set<string>, failing: set<string>, id: string)
    ensures SeenByQueries(s.(aliased := aliased, failing := failing), id) <==> SeenByQueries(s, id)
  {
  }

  lemma JobsApart(s: State, aliased: set<string>, failing: set<string>)
    ensures Inv(s.(aliased := aliased, failing := failing)) <==> Inv(s)
  {
    hide CleanupInv, AllRetired;
  }

  /**
   * The second query finds only deployments out of reach of every alias exactly when the first has
   * seen every referenced deployment of the project that is completed and still running.
   */
  lemma QueriesAreSafeExactly(s: State, project: string, active: set<string>)
    ensures AllRetired(s.deployments, s.aliases, InactiveIds(s, project, active)) <==>
            Seen(s.deployments, s.aliases, project, active)
  {
    hide Referenced;
    var ids := InactiveIds(s, project, active);
    if AllRetired(s.deployments, s.aliases, ids) {
      forall id | Stoppable(s.deployments, project, id) && Referenced(s.aliases, id) ensures id in active {
        assert id !in ids;
      }
    }
  }

  /**
   * A completing step is orderly exactly when every cleanup between its queries would still find
   * only unreferenced deployments, if it asked the second one next.
   */
  lemma OrderlyExactly(s: State, e: Event)
    requires Inv(s) && Completes(e)
    ensures var t := Step(s, e);
            Orderly(s, e) <==>
            forall job :: job in t.cleanups && t.cleanups[job].Selecting? ==>
              AllRetired(t.deployments, t.aliases, InactiveIds(t, t.cleanups[job].project, t.cleanups[job].active))
  {
    var t := Step(s, e);
    if Orderly(s, e) {
      StepKeepsInv(s, e);
    }
    hide Step, Referenced, InactiveIds, AllRetired, Stoppable;
    forall job | job in t.cleanups && t.cleanups[job].Selecting?
      ensures CleanupInv(t.deployments, t.aliases, t.cleanups[job]) <==>
              AllRetired(t.deployments, t.aliases, InactiveIds(t, t.cleanups[job].project, t.cleanups[job].active))
    {
      QueriesAreSafeExactly(t, t.cleanups[job].project, t.cleanups[job].active);
    }
  }

  lemma RecordedKeepsInv(s: State, done: map<string, Option<ContainerStatus>>)
    requires Inv(s) && forall id :: id in done ==> done[id] != Some(Running)
    ensures Inv(s.(deployments := Recorded(s.deployments, done)))
  {
    hide Referenced;
    var t := s.(deployments := Recorded(s.deployments, done));
    forall job | job in t.cleanups ensures CleanupInv(t.deployments, t.aliases, t.cleanups[job]) {
      assert CleanupInv(s.deployments, s.aliases, s.cleanups[job]);
    }
  }

  lemma CleanupKeepsInv(s: State, e: Event)
    requires e.SelectActive? || e.SelectInactive? || e.Stop? || e.EndCleanup?
    requires Inv(s)
    ensures Inv(StepCleanup(s, e))
  {
    hide Referenced, Retired;
    match e
    case SelectActive(job, project) =>
      assert Seen(s.deployments, s.aliases, project, ActiveIds(s, project));
    case SelectInactive(job) =>
      if job in s.cleanups && s.cleanups[job].Selecting? {
        assert CleanupInv(s.deployments, s.aliases, s.cleanups[job]);
        QueriesAreSafeExactly(s, s.cleanups[job].project, s.cleanups[job].active);
      }
    case Stop(job, id, outcome) =>
      if job in s.cleanups && s.cleanups[job].Sweeping? {
        assert CleanupInv(s.deployments, s.aliases, s.cleanups[job]);
      }
    case EndCleanup(job, committed) =>
      if job in s.cleanups {
        var t := s.(cleanups := s.cleanups - {job});
        assert Inv(t);
        if s.cleanups[job].Sweeping? {
          RecordedKeepsInv(t, s.cleanups[job].done);
        }
      }
  }

  lemma StepKeepsInv(s: State, e: Event)
    requires Inv(s) && Orderly(s, e)
    ensures Inv(Step(s, e))
  {
    hide CleanupInv, AllRetired, StepDeployment, StepCleanup, Referenced;
    match e
    case Create(id, project, environment) => CreateKeepsInv(s, e);
    case Rollback(subdomain) =>
      if Swapped(s.aliases, subdomain).Some? {
        forall id ensures Referenced(Swapped(s.aliases, subdomain).value, id) <==> Referenced(s.aliases, id) {
          SwapKeepsReferences(s.aliases, subdomain, id);
        }
        AliasesKeepInv(s, Swapped(s.aliases, subdomain).value);
      }
    case SelectActive(_, _) => CleanupKeepsInv(s, e);
    case SelectInactive(_) => CleanupKeepsInv(s, e);
    case Stop(_, _, _) => CleanupKeepsInv(s, e);
    case EndCleanup(_, _) => CleanupKeepsInv(s, e);
    case _ =>
      if e.id in s.deployments {
        DeploymentKeepsInv(s, e);
      }
  }

  lemma CreateKeepsInv(s: State, e: Event)
    requires Inv(s) && e.Create?
    ensures Inv(Step(s, e))
  {
    hide Referenced;
    var t := Step(s, e);
    forall job | job in t.cleanups ensures CleanupInv(t.deployments, t.aliases, t.cleanups[job]) {
      assert CleanupInv(s.deployments, s.aliases, s.cleanups[job]);
    }
  }

  lemma {:induction false} RunKeepsInv(s: State, events: seq<Event>)
    requires Inv(s) && OrderlyRun(s, events)
    ensures Inv(Run(s, events))
    decreases |events|
  {
    hide Inv, Step, Orderly;
    if events != [] {
      StepKeepsInv(s, events[0]);
      RunKeepsInv(Step(s, events[0]), events[1..]);
    }
  }

  // Over runs

  ghost predicate Fresh(s: State) {
    s.swept == {} && s.cleanups == map[]
  }

  /**
   * No deployment that an alias serves or could be rolled back to has been stopped by cleanup, at
   * any point of any orderly run of finalizes, failures, cancellations, rollbacks and cleanups.
   */
  lemma CleanupIsSafe(s: State, events: seq<Event>, sub: string)
    requires Fresh(s) && OrderlyRun(s, events)
    requires sub in Run(s, events).aliases
    ensures var t := Run(s, events);
            && t.aliases[sub].current !in t.swept
            && (t.aliases[sub].previous.Some? ==> t.aliases[sub].previous.value !in t.swept)
  {
    RunKeepsInv(s, events);
    var t := Run(s, events);
    hide Run, OrderlyRun;
    forall id | id in t.swept ensures !Points(t.aliases[sub], id) {
      assert Retired(t.deployments, t.aliases, id);
    }
  }

  /** So whatever a rollback then serves has not been stopped by cleanup. */
  lemma RollbackIsServed(s: State, events: seq<Event>, sub: string)
    requires Fresh(s) && OrderlyRun(s, events) && Swapped(Run(s, events).aliases, sub).Some?
    ensures var t := Run(s, events);
            Step(t, Rollback(sub)).aliases[sub].current !in Step(t, Rollback(sub)).swept
  {
    CleanupIsSafe(s, events, sub);
    hide Run, OrderlyRun;
  }

  lemma StepKeepsRetired(s: State, e: Event, id: string)
    requires Retired(s.deployments, s.aliases, id) && Orderly(s, e)
    ensures var t := Step(s, e); Retired(t.deployments, t.aliases, id)
  {
    hide Referenced, SetupAliases, Halted, Seen, SeenByQueries, InactiveIds;
    if e.CommitAliases? && e.id in s.deployments && Referenced(Step(s, e).aliases, id) {
      SetupPointsOnlyAt(s.aliases, e.id, s.deployments[e.id].environment, e.subdomains, id);
    }
    if e.Rollback? && Swapped(s.aliases, e.subdomain).Some? {
      SwapKeepsReferences(s.aliases, e.subdomain, id);
    }
  }

  /** A completed deployment that no alias points at is never pointed at again. */
  lemma {:induction false} RetiredForGood(s: State, events: seq<Event>, id: string)
    requires Retired(s.deployments, s.aliases, id) && OrderlyRun(s, events)
    ensures var t := Run(s, events); Retired(t.deployments, t.aliases, id)
    decreases |events|
  {
    hide Retired, Step, Orderly;
    if events != [] {
      StepKeepsRetired(s, events[0], id);
      RetiredForGood(Step(s, events[0]), events[1..], id);
    }
  }

  // Why a run must be orderly

  ghost predicate Unsafe(s: State, sub: string) {
    sub in s.aliases && s.aliases[sub].current in s.swept
  }

  ghost predicate Safe(s: State) {
    forall id :: id in s.swept ==> !Referenced(s.aliases, id)
  }

  predicate SetsUpSome(s: Subdomains) {
    s.branch.Some? || s.environment.Some? || s.environmentId.Some?
  }

  /** The last subdomain set up serves the deployment. */
  lemma SetupServes(aliases: map<string, Alias>, id: string, environment: string, s: Subdomains)
    requires SetsUpSome(s)
    ensures Referenced(SetupAliases(aliases, id, environment, s), id)
  {
    var a := UpdateSome(aliases, s.branch, id, false);
    var b := UpdateSome(a, s.environment, id, environment == "prod");
    var after := UpdateSome(b, s.environmentId, id, false);
    var sub := if s.environmentId.Some? then s.environmentId.value
               else if s.environment.Some? then s.environment.value else s.branch.value;
    assert Points(after[sub], id);
    assert after == SetupAliases(aliases, id, environment, s);
  }

  /**
   * Finalize only looks for a cancellation, so it keeps aliases off swept containers exactly when
   * its own deployment has not been swept, is canceled, or gets no alias.
   */
  lemma FinalizeIsSafeExactly(s: State, id: string, subdomains: Subdomains)
    requires Safe(s) && id in s.deployments
    ensures Safe(Step(s, CommitAliases(id, subdomains))) <==>
            id !in s.swept || s.deployments[id].conclusion == Some(Canceled) || !SetsUpSome(subdomains)
  {
    var aliases := SetupAliases(s.aliases, id, s.deployments[id].environment, subdomains);
    if SetsUpSome(subdomains) {
      SetupServes(s.aliases, id, s.deployments[id].environment, subdomains);
      forall other | other in s.swept && other != id ensures !Referenced(aliases, other) {
        if Referenced(aliases, other) {
          SetupPointsOnlyAt(s.aliases, id, s.deployments[id].environment, subdomains, other);
        }
      }
    } else {
      assert aliases == s.aliases;
    }
    hide Referenced, SetupAliases;
  }

  /** A failed deployment that cleanup has stopped can still be finalized, and is then served. */
  lemma FinalizeAfterFailure(s: State, job: nat, id: string, sub: string)
    requires id in s.deployments && s.deployments[id].hasContainer && s.deployments[id].container == Some(Running)
    requires s.deployments[id].status.Completed? && s.deployments[id].conclusion == Some(Failed)
    requires !Referenced(s.aliases, id) && job !in s.cleanups
    ensures var s1 := Step(s, SelectActive(job, s.deployments[id].project));
            var s2 := Step(s1, SelectInactive(job));
            var s3 := Step(s2, Stop(job, id, StopsOnly));
            Unsafe(Step(s3, CommitAliases(id, Subdomains(None, Some(sub), None))), sub)
  {
    hide Referenced;
    var s1 := Step(s, SelectActive(job, s.deployments[id].project));
    var s2 := Step(s1, SelectInactive(job));
    assert id in s2.cleanups[job].targets;
    var s3 := Step(s2, Stop(job, id, StopsOnly));
    UpdateServes(s3.aliases, sub, id, s.deployments[id].environment == "prod");
  }

  /**
   * Between the two queries a whole finalize may pass unseen: the first query misses the
   * deployment, the second finds it completed, and cleanup stops what has just gone live.
   */
  lemma FinalizeBetweenQueries(s: State, job: nat, id: string, sub: string)
    requires id in s.deployments && s.deployments[id].hasContainer && s.deployments[id].container == Some(Running)
    requires s.deployments[id].conclusion.None? && !Referenced(s.aliases, id)
    requires job !in s.cleanups
    ensures var s1 := Step(s, SelectActive(job, s.deployments[id].project));
            var s2 := Step(s1, CommitAliases(id, Subdomains(None, Some(sub), None)));
            var s3 := Step(s2, CommitStatus(id));
            var s4 := Step(s3, SelectInactive(job));
            var s5 := Step(s4, Stop(job, id, StopsAndRemoves));
            Unsafe(s5, sub) && !Orderly(s2, CommitStatus(id))
  {
    var s1 := Step(s, SelectActive(job, s.deployments[id].project));
    var s2 := Step(s1, CommitAliases(id, Subdomains(None, Some(sub), None)));
    assert id !in s1.cleanups[job].active;
    UpdateServes(s1.aliases, sub, id, s.deployments[id].environment == "prod");
    assert Points(s2.aliases[sub], id);
  }
}
