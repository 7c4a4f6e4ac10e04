/** Deployments, the aliases that point at them, and the jobs that move both, as a step machine. */
module LifecycleSpec {
  import opened Faults

  datatype Status = Prepare | Deploying | Finalizing | Failing | Completed
  datatype Conclusion = Succeeded | Failed | Canceled | Skipped
  datatype ContainerStatus = Running | Stopped | Removed

  datatype Deployment = Deployment(
    project: string, environment: string, status: Status, conclusion: Option<Conclusion>,
    hasContainer: bool, container: Option<ContainerStatus>)

  /** Keyed by subdomain: the deployment it serves, and the one a rollback would return to. */
  datatype Alias = Alias(current: string, previous: Option<string>)

  /** A cleanup job between its two queries, and then with the deployments it has yet to stop. */
  datatype Cleanup =
    | Selecting(project: string, active: set<string>)
    | Sweeping(project: string, targets: set<string>, done: map<string, Option<ContainerStatus>>)

  /**
   * `aliased` and `failing` are the deployments with a finalize or a fail job halfway; `swept`
   * collects every deployment whose container a cleanup job has stopped.
   */
  datatype State = State(
    deployments: map<string, Deployment>,
    aliases: map<string, Alias>,
    aliased: set<string>,
    failing: set<string>,
    cleanups: map<nat, Cleanup>,
    swept: set<string>)

  /** The subdomains a finalize sets up; one is missing when it does not apply or its write fails. */
  datatype Subdomains = Subdomains(branch: Option<string>, environment: Option<string>, environmentId: Option<string>)

  /** What stopping and removing one container comes to. */
  datatype StopOutcome = StopFails | StopsOnly | StopsAndRemoves | StopsThenGone | NotFound {
    predicate Stops() {
      StopsOnly? || StopsAndRemoves? || StopsThenGone?
    }
  }

  datatype Event =
    | Create(id: string, project: string, environment: string)
    | Advance(id: string, status: Status)
    | CommitAliases(id: string, subdomains: Subdomains)
    | CommitStatus(id: string)
    | BeginFail(id: string)
    | EndFail(id: string, container: Option<ContainerStatus>)
    | Cancel(id: string, container: Option<ContainerStatus>)
    | Abort(id: string)
    | Rollback(subdomain: string)
    | SelectActive(job: nat, project: string)
    | SelectInactive(job: nat)
    | Stop(job: nat, id: string, outcome: StopOutcome)
    | EndCleanup(job: nat, committed: bool)

  // References

  predicate Points(a: Alias, id: string) {
    a.current == id || a.previous == Some(id)
  }

  ghost predicate Referenced(aliases: map<string, Alias>, id: string) {
    exists sub :: sub in aliases && Points(aliases[sub], id)
  }

  // Aliases

  /** A deployment already served changes nothing; only production remembers what it served before. */
  function UpdateOrCreate(
      aliases: map<string, Alias>, subdomain: string, id: string, keepsPrevious: bool): map<string, Alias> {
    if subdomain !in aliases then aliases[subdomain := Alias(id, None)]
    else if aliases[subdomain].current == id then aliases
    else aliases[subdomain := Alias(id, if keepsPrevious then Some(aliases[subdomain].current) else None)]
  }

  function UpdateSome(
      aliases: map<string, Alias>, subdomain: Option<string>, id: string, keepsPrevious: bool): map<string, Alias> {
    if subdomain.None? then aliases else UpdateOrCreate(aliases, subdomain.value, id, keepsPrevious)
  }

  function SetupAliases(
      aliases: map<string, Alias>, id: string, environment: string, s: Subdomains): map<string, Alias> {
    var a := UpdateSome(aliases, s.branch, id, false);
    var b := UpdateSome(a, s.environment, id, environment == "prod");
    UpdateSome(b, s.environmentId, id, false)
  }

  function Swapped(aliases: map<string, Alias>, subdomain: string): Option<map<string, Alias>> {
    if subdomain in aliases && aliases[subdomain].previous.Some? then
      var a := aliases[subdomain];
      Some(aliases[subdomain := Alias(a.previous.value, Some(a.current))])
    else None
  }

  // Cleanup

  ghost function ActiveIds(s: State, project: string): set<string> {
    set id | id in s.deployments && s.deployments[id].project == project && Referenced(s.aliases, id)
  }

  /** What the second query asks of a deployment besides not being active. */
  predicate Stoppable(deployments: map<string, Deployment>, project: string, id: string) {
    && id in deployments && deployments[id].project == project && deployments[id].hasContainer
    && deployments[id].container == Some(Running) && deployments[id].status.Completed?
  }

  function InactiveIds(s: State, project: string, active: set<string>): set<string> {
    set id | id in s.deployments && Stoppable(s.deployments, project, id) && id !in active
  }

  function AfterStop(outcome: StopOutcome): Option<ContainerStatus> {
    match outcome
    case StopsOnly => Some(Stopped)
    case StopsAndRemoves => Some(Removed)
    case _ => None
  }

  /** Container states written when a cleanup that stopped something commits. */
  function Recorded(
      deployments: map<string, Deployment>, done: map<string, Option<ContainerStatus>>): map<string, Deployment> {
    map id | id in deployments ::
      if id in done then deployments[id].(container := done[id]) else deployments[id]
  }

  // Steps

  predicate MayCancel(d: Deployment) {
    !d.status.Finalizing? && !d.status.Failing? && !d.status.Completed? && d.conclusion.None?
  }

  /** A running container ends up stopped or removed, or as it was when that could not be done. */
  function Halted(d: Deployment, container: Option<ContainerStatus>): Option<ContainerStatus> {
    if d.hasContainer && d.container != Some(Removed) && d.container != Some(Stopped) && container.Some?
    then container else d.container
  }

  ghost function StepDeployment(s: State, e: Event): State
    requires e.Advance? || e.CommitAliases? || e.CommitStatus? || e.BeginFail? || e.EndFail? || e.Cancel? || e.Abort?
    requires e.id in s.deployments
  {
    var d := s.deployments[e.id];
    match e
    case Advance(id, status) =>
      if status.Failing? || status.Completed? then s
      else s.(deployments := s.deployments[id :=
           if status.Deploying? then d.(status := status, hasContainer := true, container := Some(Running))
           else d.(status := status)])
    case Abort(id) =>
      s.(deployments := s.deployments[id :=
           d.(status := Completed, conclusion := Some(Canceled), container := Some(Stopped))])
    case CommitAliases(id, subdomains) =>
      if d.conclusion == Some(Canceled) then s
      else s.(aliases := SetupAliases(s.aliases, id, d.environment, subdomains), aliased := s.aliased + {id})
    case CommitStatus(id) =>
      if id !in s.aliased then s
      else s.(deployments := s.deployments[id := d.(status := Completed, conclusion := Some(Succeeded))],
              aliased := s.aliased - {id})
    case BeginFail(id) =>
      if d.conclusion.Some? then s
      else s.(deployments := s.deployments[id := d.(status := Failing)], failing := s.failing + {id})
    case EndFail(id, container) =>
      if id !in s.failing then s
      else s.(deployments := s.deployments[id := d.(status := Completed, conclusion := Some(Failed),
                                                    container := Halted(d, container))],
              failing := s.failing - {id})
    case Cancel(id, container) =>
      if !MayCancel(d) then s
      else s.(deployments := s.deployments[id := d.(status := Completed, conclusion := Some(Canceled),
                                                    container := Halted(d, container))])
  }

  ghost function StepCleanup(s: State, e: Event): State
    requires e.SelectActive? || e.SelectInactive? || e.Stop? || e.EndCleanup?
  {
    match e
    case SelectActive(job, project) =>
      if job in s.cleanups then s
      else s.(cleanups := s.cleanups[job := Selecting(project, ActiveIds(s, project))])
    case SelectInactive(job) =>
      if job !in s.cleanups || !s.cleanups[job].Selecting? then s
      else
        var j := s.cleanups[job];
        s.(cleanups := s.cleanups[job := Sweeping(j.project, InactiveIds(s, j.project, j.active), map[])])
    case Stop(job, id, outcome) =>
      if job !in s.cleanups || !s.cleanups[job].Sweeping? || id !in s.cleanups[job].targets then s
      else
        var j := s.cleanups[job];
        var done := if outcome.StopFails? then j.done else j.done[id := AfterStop(outcome)];
        s.(cleanups := s.cleanups[job := Sweeping(j.project, j.targets - {id}, done)],
           swept := if outcome.Stops() then s.swept + {id} else s.swept)
    case EndCleanup(job, committed) =>
      if job !in s.cleanups then s
      else
        var j := s.cleanups[job];
        s.(cleanups := s.cleanups - {job},
           deployments := if j.Sweeping? && committed then Recorded(s.deployments, j.done) else s.deployments)
  }

  ghost function Step(s: State, e: Event): State {
    match e
    case Create(id, project, environment) =>
      if id in s.deployments then s
      else s.(deployments := s.deployments[id := Deployment(project, environment, Prepare, None, false, None)])
    case Rollback(subdomain) =>
      var swapped := Swapped(s.aliases, subdomain);
      if swapped.None? then s else s.(aliases := swapped.value)
    case SelectActive(_, _) => StepCleanup(s, e)
    case SelectInactive(_) => StepCleanup(s, e)
    case Stop(_, _, _) => StepCleanup(s, e)
    case EndCleanup(_, _) => StepCleanup(s, e)
    case _ => if e.id in s.deployments then StepDeployment(s, e) else s
  }

  ghost function Run(s: State, events: seq<Event>): State
    decreases |events|
  {
    if events == [] then s else Run(Step(s, events[0]), events[1..])
  }
}
