/** What the deployment and alias tables say, told by the events of a run and by what was there. */
module LifecycleHistory {
  import opened Faults
  import opened LifecycleSpec
  import opened LifecycleRuns
  import opened Lifecycle

  // Conclusions

  /** Some finalize has set up the deployment's aliases and no finalize has concluded it since. */
  ghost predicate FinalizeHalfway(s: State, events: seq<Event>, n: nat, id: string)
    requires n <= |events|
  {
    exists i :: 0 <= i < n && AliasesSetUp(s, events, i, id) && forall j :: i < j < n ==> events[j] != CommitStatus(id)
  }

  /** Event `i` sets up the aliases of a deployment that has not been canceled. */
  ghost predicate AliasesSetUp(s: State, events: seq<Event>, i: nat, id: string)
    requires i < |events|
  {
    && events[i].CommitAliases? && events[i].id == id
    && var deployments := Run(s, events[..i]).deployments;
       id in deployments && deployments[id].conclusion != Some(Canceled)
  }

  /** Some fail job has begun, and none has ended since. */
  ghost predicate FailHalfway(s: State, events: seq<Event>, n: nat, id: string)
    requires n <= |events|
  {
    exists i :: 0 <= i < n && FailBegun(s, events, i, id) && forall j :: i < j < n ==> !EndsFail(events[j], id)
  }

  /** Event `i` begins to fail a deployment without a conclusion. */
  ghost predicate FailBegun(s: State, events: seq<Event>, i: nat, id: string)
    requires i < |events|
  {
    && events[i] == BeginFail(id)
    && var deployments := Run(s, events[..i]).deployments;
       id in deployments && deployments[id].conclusion.None?
  }

  predicate EndsFail(e: Event, id: string) {
    e.EndFail? && e.id == id
  }

  /** Event `i` concludes the deployment as `c`. */
  ghost predicate Concludes(s: State, events: seq<Event>, i: nat, id: string, c: Conclusion)
    requires i < |events|
  {
    var deployments := Run(s, events[..i]).deployments;
    && id in deployments
    && match events[i]
       case CommitStatus(x) => x == id && c == Succeeded && FinalizeHalfway(s, events, i, id)
       case EndFail(x, _) => x == id && c == Failed && FailHalfway(s, events, i, id)
       case Cancel(x, _) =>
         && x == id && c == Canceled && deployments[id].conclusion.None?
         && (deployments[id].status.Prepare? || deployments[id].status.Deploying?)
       case Abort(x) => x == id && c == Canceled
       case _ => false
  }

  /** The last event that concludes the deployment, if any, concluded it as its table row says. */
  ghost predicate ConcludedBy(s: State, events: seq<Event>, id: string, conclusion: Option<Conclusion>) {
    match conclusion
    case None => forall i, c :: 0 <= i < |events| ==> !Concludes(s, events, i, id, c)
    case Some(c) =>
      exists i :: 0 <= i < |events| && Concludes(s, events, i, id, c)
                  && forall j, other :: i < j < |events| ==> !Concludes(s, events, j, id, other)
  }

  /** Nothing has concluded, or begun to conclude, the deployment. */
  predicate Unconcluded(s: State, id: string) {
    id !in s.aliased && id !in s.failing && (id in s.deployments ==> s.deployments[id].conclusion.None?)
  }

  ghost predicate Told(s: State, events: seq<Event>, id: string, t: State) {
    && (id in t.aliased <==> FinalizeHalfway(s, events, |events|, id))
    && (id in t.failing <==> FailHalfway(s, events, |events|, id))
    && (id in t.deployments ==> ConcludedBy(s, events, id, t.deployments[id].conclusion))
    && (id !in t.deployments ==> ConcludedBy(s, events, id, None))
  }

  // One more event

  lemma HalfwayAgrees(s: State, a: seq<Event>, b: seq<Event>, n: nat, id: string)
    requires n <= |a| && n <= |b| && a[..n] == b[..n]
    ensures FinalizeHalfway(s, a, n, id) <==> FinalizeHalfway(s, b, n, id)
    ensures FailHalfway(s, a, n, id) <==> FailHalfway(s, b, n, id)
  {
    hide Run;
    forall i | 0 <= i < n ensures a[..i] == b[..i] && a[i] == b[i] {
      assert a[..n][..i] == a[..i] && b[..n][..i] == b[..i];
      assert a[..n][i] == b[..n][i];
    }
    assert forall i :: 0 <= i < n ==> AliasesSetUp(s, a, i, id) == AliasesSetUp(s, b, i, id);
    assert forall i :: 0 <= i < n ==> FailBegun(s, a, i, id) == FailBegun(s, b, i, id);
  }

  lemma StillConcludes(s: State, events: seq<Event>, e: Event, i: nat, id: string, c: Conclusion)
    requires i < |events|
    ensures Concludes(s, events + [e], i, id, c) <==> Concludes(s, events, i, id, c)
  {
    var all := events + [e];
    assert all[..i] == events[..i] && all[i] == events[i];
    HalfwayAgrees(s, all, events, i, id);
    hide Run, FinalizeHalfway, FailHalfway;
  }

  /** A job is halfway after one more event if that began it, or if it was and that did not end it. */
  lemma HalfwayStep(s: State, events: seq<Event>, e: Event, id: string)
    ensures var all, n := events + [e], |events|;
            && (FinalizeHalfway(s, all, n + 1, id) <==>
                  AliasesSetUp(s, all, n, id) || (FinalizeHalfway(s, events, n, id) && e != CommitStatus(id)))
            && (FailHalfway(s, all, n + 1, id) <==>
                  FailBegun(s, all, n, id) || (FailHalfway(s, events, n, id) && !EndsFail(e, id)))
  {
    var all, n := events + [e], |events|;
    assert all[n] == e && all[..n] == events;
    HalfwayAgrees(s, all, events, n, id);
    hide Run, AliasesSetUp, FailBegun;
    if FinalizeHalfway(s, all, n, id) && e != CommitStatus(id) {
      var i :| 0 <= i < n && AliasesSetUp(s, all, i, id) && forall j :: i < j < n ==> all[j] != CommitStatus(id);
      assert forall j :: i < j < n + 1 ==> all[j] != CommitStatus(id);
    }
    if FailHalfway(s, all, n, id) && !EndsFail(e, id) {
      var i :| 0 <= i < n && FailBegun(s, all, i, id) && forall j :: i < j < n ==> !EndsFail(all[j], id);
      assert forall j :: i < j < n + 1 ==> !EndsFail(all[j], id);
    }
  }

  lemma ConcludedStep(
      s: State, events: seq<Event>, e: Event, id: string, before: Option<Conclusion>, after: Option<Conclusion>)
    requires ConcludedBy(s, events, id, before)
    requires forall c :: Concludes(s, events + [e], |events|, id, c) ==> after == Some(c)
    requires (forall c :: !Concludes(s, events + [e], |events|, id, c)) ==> after == before
    ensures ConcludedBy(s, events + [e], id, after)
  {
    var all, n := events + [e], |events|;
    hide Concludes;
    forall i, c | 0 <= i < n ensures Concludes(s, all, i, id, c) <==> Concludes(s, events, i, id, c) {
      StillConcludes(s, events, e, i, id, c);
    }
    if c :| Concludes(s, all, n, id, c) {
      assert after == Some(c);
    }
  }

  /** In state `t` the event concludes the deployment as `c`. */
  predicate Decides(t: State, e: Event, id: string, c: Conclusion) {
    && id in t.deployments
    && match e
       case CommitStatus(x) => x == id && c == Succeeded && id in t.aliased
       case EndFail(x, _) => x == id && c == Failed && id in t.failing
       case Cancel(x, _) => x == id && c == Canceled && MayCancel(t.deployments[id])
       case Abort(x) => x == id && c == Canceled
       case _ => false
  }

  function ConclusionOf(t: State, id: string): Option<Conclusion> {
    if id in t.deployments then t.deployments[id].conclusion else None
  }

  lemma DecisionStep(t: State, e: Event, id: string)
    ensures forall c :: Decides(t, e, id, c) ==> ConclusionOf(Step(t, e), id) == Some(c)
    ensures (forall c :: !Decides(t, e, id, c)) ==> ConclusionOf(Step(t, e), id) == ConclusionOf(t, id)
  {
    hide SetupAliases, Halted, ActiveIds, InactiveIds, Swapped, MayCancel;
    match e
    case CommitStatus(x) => assert x == id && id in t.deployments && id in t.aliased ==> Decides(t, e, id, Succeeded);
    case EndFail(x, _) => assert x == id && id in t.deployments && id in t.failing ==> Decides(t, e, id, Failed);
    case Cancel(x, _) =>
      assert x == id && id in t.deployments && MayCancel(t.deployments[id]) ==> Decides(t, e, id, Canceled);
    case Abort(x) => assert x == id && id in t.deployments ==> Decides(t, e, id, Canceled);
    case _ =>
  }

  lemma DecidesConcludes(s: State, events: seq<Event>, e: Event, id: string, c: Conclusion)
    requires Told(s, events, id, Run(s, events))
    ensures Concludes(s, events + [e], |events|, id, c) <==> Decides(Run(s, events), e, id, c)
  {
    var all, n := events + [e], |events|;
    assert all[n] == e && all[..n] == events;
    HalfwayAgrees(s, all, events, n, id);
    hide Run, FinalizeHalfway, FailHalfway, ConcludedBy;
  }

  /** The row's conclusion changes just when the event concludes the deployment, and then to that. */
  lemma RowStep(s: State, events: seq<Event>, e: Event, id: string)
    requires Told(s, events, id, Run(s, events))
    ensures var t, u := Run(s, events), Step(Run(s, events), e);
            && (forall c :: Concludes(s, events + [e], |events|, id, c) ==> ConclusionOf(u, id) == Some(c))
            && ((forall c :: !Concludes(s, events + [e], |events|, id, c)) ==>
                  ConclusionOf(u, id) == ConclusionOf(t, id))
  {
    hide Run, Step, Concludes, Decides, Told, ConclusionOf;
    DecisionStep(Run(s, events), e, id);
    forall c ensures Concludes(s, events + [e], |events|, id, c) <==> Decides(Run(s, events), e, id, c) {
      DecidesConcludes(s, events, e, id, c);
    }
  }

  lemma JobsStep(s: State, events: seq<Event>, e: Event, id: string)
    requires Told(s, events, id, Run(s, events))
    requires id in Run(s, events).aliased + Run(s, events).failing ==> id in Run(s, events).deployments
    ensures var u := Step(Run(s, events), e);
            && (id in u.aliased <==> FinalizeHalfway(s, events + [e], |events| + 1, id))
            && (id in u.failing <==> FailHalfway(s, events + [e], |events| + 1, id))
            && (id in u.aliased + u.failing ==> id in u.deployments)
  {
    var all, n := events + [e], |events|;
    HalfwayStep(s, events, e, id);
    assert all[n] == e && all[..n] == events;
    hide Run, FinalizeHalfway, FailHalfway, ConcludedBy, SetupAliases, Halted, ActiveIds, InactiveIds, Swapped;
  }

  lemma {:induction false} RunsAreTold(s: State, events: seq<Event>, id: string)
    requires Unconcluded(s, id)
    ensures Told(s, events, id, Run(s, events))
    ensures id in Run(s, events).aliased + Run(s, events).failing ==> id in Run(s, events).deployments
    decreases |events|
  {
    if events != [] {
      var n := |events| - 1;
      var past, e := events[..n], events[n];
      RunsAreTold(s, past, id);
      assert past + [e] == events;
      RunOneMore(s, past, e);
      RowStep(s, past, e, id);
      JobsStep(s, past, e, id);
      var t, u := Run(s, past), Run(s, events);
      hide Run, Step, Concludes, FinalizeHalfway, FailHalfway, ConcludedBy;
      ConcludedStep(s, past, e, id, ConclusionOf(t, id), ConclusionOf(u, id));
    }
  }

  /**
   * The conclusion of a deployment that starts without one is that of the last event to conclude
   * it: a status commit of a finalize that is halfway, the end of a fail job that is halfway, a
   * cancellation of what is being prepared or deployed, or an abort.
   */
  lemma LastDecisionStands(s: State, events: seq<Event>, id: string)
    requires Unconcluded(s, id) && id in Run(s, events).deployments
    ensures ConcludedBy(s, events, id, Run(s, events).deployments[id].conclusion)
  {
    RunsAreTold(s, events, id);
    hide ConcludedBy, Run;
  }

  // Rows over orderly runs

  ghost predicate CompletedMeansConcluded(s: State) {
    forall id :: id in s.deployments ==> (s.deployments[id].status.Completed? <==> s.deployments[id].conclusion.Some?)
  }

  lemma StepKeepsRows(s: State, e: Event)
    requires CompletedMeansConcluded(s) && Orderly(s, e)
    ensures CompletedMeansConcluded(Step(s, e))
  {
    hide SetupAliases, Halted, ActiveIds, InactiveIds, Swapped, SeenByQueries;
  }

  /** Over every orderly run a deployment is completed exactly when it has a conclusion. */
  lemma {:induction false} CompletedExactlyWhenConcluded(s: State, events: seq<Event>)
    requires CompletedMeansConcluded(s) && OrderlyRun(s, events)
    ensures CompletedMeansConcluded(Run(s, events))
    decreases |events|
  {
    hide Step, Orderly, CompletedMeansConcluded;
    if events != [] {
      StepKeepsRows(s, events[0]);
      CompletedExactlyWhenConcluded(Step(s, events[0]), events[1..]);
    }
  }

  predicate Deploys(e: Event, id: string) {
    e.Advance? && e.id == id && e.status.Deploying?
  }

  lemma StepKeepsContainer(s: State, e: Event, id: string)
    requires id in s.deployments
    ensures id in Step(s, e).deployments
    ensures Step(s, e).deployments[id].hasContainer <==> s.deployments[id].hasContainer || Deploys(e, id)
    ensures Step(s, e).deployments[id].project == s.deployments[id].project
    ensures Step(s, e).deployments[id].environment == s.deployments[id].environment
  {
    hide SetupAliases, Halted, ActiveIds, InactiveIds, Swapped;
  }

  /** A deployment stays in its project and environment and gets a container just when it is deployed. */
  lemma {:induction false} ContainerSinceDeployed(s: State, events: seq<Event>, id: string)
    requires id in s.deployments
    ensures id in Run(s, events).deployments
    ensures var d, e := s.deployments[id], Run(s, events).deployments[id];
            && e.project == d.project && e.environment == d.environment
            && (e.hasContainer <==> d.hasContainer || exists i :: 0 <= i < |events| && Deploys(events[i], id))
    decreases |events|
  {
    hide Step, Deploys;
    if events != [] {
      StepKeepsContainer(s, events[0], id);
      ContainerSinceDeployed(Step(s, events[0]), events[1..], id);
      assert forall i :: 1 <= i < |events| ==> events[i] == events[1..][i - 1];
    }
  }

  // Aliases

  /**
   * Each of the subdomains comes to serve the deployment, and no other alias changes. One that
   * served another remembers it just when it is the environment's own, in production, and was not
   * set up as the branch's before.
   */
  lemma SetupExactly(aliases: map<string, Alias>, id: string, environment: string, s: Subdomains, sub: string)
    ensures var after := SetupAliases(aliases, id, environment, s);
            if s.branch != Some(sub) && s.environment != Some(sub) && s.environmentId != Some(sub) then
              (sub in after <==> sub in aliases) && (sub in after ==> after[sub] == aliases[sub])
            else
              && sub in after && after[sub].current == id
              && after[sub].previous ==
                   if sub !in aliases then None
                   else if aliases[sub].current == id then aliases[sub].previous
                   else if s.branch != Some(sub) && s.environment == Some(sub) && environment == "prod" then
                     Some(aliases[sub].current)
                   else None
  {
    var a := UpdateSome(aliases, s.branch, id, false);
    var b := UpdateSome(a, s.environment, id, environment == "prod");
    UpdateExactly(aliases, s.branch, id, false, sub);
    UpdateExactly(a, s.environment, id, environment == "prod", sub);
    UpdateExactly(b, s.environmentId, id, false, sub);
    SetupIsThree(aliases, id, environment, s);
    hide SetupAliases, UpdateSome;
  }

  lemma UpdateExactly(aliases: map<string, Alias>, asked: Option<string>, id: string, keeps: bool, sub: string)
    ensures sub in UpdateSome(aliases, asked, id, keeps) <==> sub in aliases || asked == Some(sub)
    ensures sub in aliases || asked == Some(sub) ==>
      UpdateSome(aliases, asked, id, keeps)[sub]
      == (if asked != Some(sub) then aliases[sub]
          else if sub !in aliases then Alias(id, None)
          else if aliases[sub].current == id then aliases[sub]
          else Alias(id, if keeps then Some(aliases[sub].current) else None))
  {
  }

  // Cleanup

  /** What two queries in a row find: what runs, is completed, and no alias serves or remembers. */
  lemma CleanupFindsExactly(s: State, project: string, id: string)
    ensures id in InactiveIds(s, project, ActiveIds(s, project)) <==>
            && id in s.deployments && s.deployments[id].project == project
            && s.deployments[id].hasContainer && s.deployments[id].container == Some(Running)
            && s.deployments[id].status == Completed
            && forall sub :: sub in s.aliases ==> s.aliases[sub].current != id && s.aliases[sub].previous != Some(id)
  {
    assert (forall sub :: sub in s.aliases ==> !Points(s.aliases[sub], id)) <==> !Referenced(s.aliases, id);
  }

  /** The container was there and could be stopped. */
  predicate Halts(outcomes: map<string, StopOutcome>, id: string) {
    id in outcomes && outcomes[id] != StopFails && outcomes[id] != NotFound
  }

  /**
   * A cleanup that stops something records what became of each container it got to; one that
   * stops nothing records nothing, not even the containers it found gone.
   */
  lemma CleanupRecords(s: State, project: string, ids: seq<string>, outcomes: map<string, StopOutcome>, id: string)
    requires Quiet(s) && Lists(s, project, ids) && id in s.deployments
    ensures var t := Run(s, CleanupScript(project, ids, outcomes));
            && t.aliases == s.aliases && t.deployments.Keys == s.deployments.Keys
            && t.deployments[id].(container := s.deployments[id].container) == s.deployments[id]
            && (id in t.swept <==> id in s.swept || (id in ids && Halts(outcomes, id)))
    ensures Run(s, CleanupScript(project, ids, outcomes)).deployments[id].container ==
            if id !in ids || id !in outcomes || outcomes[id].StopFails? || !exists x :: x in ids && Halts(outcomes, x)
            then s.deployments[id].container
            else if outcomes[id].StopsOnly? then Some(Stopped)
            else if outcomes[id].StopsAndRemoves? then Some(Removed)
            else None
  {
    CleanupRuns(s, project, ids, outcomes);
    DoneExactly(ids, outcomes);
    CountsAny(ids, outcomes);
    hide Run, CleanupScript, DoneAfter, StopCount, Lists;
  }

  lemma {:induction false} CountsAny(ids: seq<string>, outcomes: map<string, StopOutcome>)
    ensures StopCount(ids, outcomes) > 0 <==>
            exists x :: x in ids && Halts(outcomes, x)
  {
    if ids != [] {
      var n := |ids| - 1;
      CountsAny(ids[..n], outcomes);
      assert OutcomeOf(outcomes, ids[n]).Stops() <==> Halts(outcomes, ids[n]);
      hide Halts, OutcomeOf;
      assert ids == ids[..n] + [ids[n]];
      assert ids[n] in ids;
    }
  }
}
