/** Cancelled deployments stay gone, and an interrupted cancellation converges. */
module ProviderCancellation {
  import opened Faults
  import opened Ordering
  import opened ProviderSpec
  import opened ProviderRuns
  import opened ProviderRoutes

  // Cancellation sticks

  ghost predicate NotRouted(routes: map<string, Route>, d: string) {
    forall n :: n in routes ==> routes[n].containerName != ContainerName(d)
  }

  /** No container, no revision row, no alias row and no router of the deployment. */
  ghost predicate Gone(tables: Tables, containers: map<string, Container>, d: string) {
    d !in containers && Forgotten(tables, d) && NotRouted(tables.routes, d)
  }

  /** A command that can bring the deployment back. */
  predicate Deploys(cmd: Envelope, d: string) {
    cmd.body.Deployment? && cmd.body.deployment == d
  }

  /** The deployment is gone and no command in hand deploys it. */
  ghost predicate Settled(s: State, d: string) {
    Gone(s.tables, s.containers, d) && (s.stage.Working? ==> !Deploys(s.stage.cmd, d))
  }

  /** The provider takes up a deployment command for `d` that it has not completed. */
  predicate Disturbs(s: State, e: Event, d: string) {
    && s.stage.Idle? && e.Deliver? && Deploys(e.cmd, d)
    && (e.cmd.eventId in s.receipts ==> s.receipts[e.cmd.eventId] == Receipt(e.cmd, None))
  }

  ghost predicate Undisturbed(cfg: Config, s: State, events: seq<Event>, d: string)
    decreases |events|
  {
    events == [] || (!Disturbs(s, events[0], d) && Undisturbed(cfg, Step(cfg, s, events[0]), events[1..], d))
  }

  lemma ContainerNamesDiffer(a: string, b: string)
    requires ContainerName(a) == ContainerName(b)
    ensures a == b
  {
    assert ContainerName(a)[14..] == a && ContainerName(b)[14..] == b;
  }

  /** Every rendered router stands for some alias row. */
  lemma {:induction false} RenderedRouteHasRow(ids: seq<string>, aliases: map<string, AliasRow>, n: string)
    requires forall id :: id in ids ==> id in aliases
    requires n in RenderRows(ids, aliases)
    ensures exists a :: a in aliases && RenderRows(ids, aliases)[n] == RouteOf(aliases[a])
  {
    hide ServiceName;
    var last := ids[|ids| - 1];
    if n == ServiceName(last) {
      assert last in aliases;
    } else {
      RenderedRouteHasRow(ids[..|ids| - 1], aliases, n);
    }
  }

  /** A freshly written file has no router to a forgotten deployment. */
  lemma FreshForgets(tables: Tables, d: string)
    requires Anchored(tables.aliases, tables.revisions) && Forgotten(tables, d) && Fresh(tables)
    ensures NotRouted(tables.routes, d)
  {
    hide ContainerName;
    forall n | n in tables.routes ensures tables.routes[n].containerName != ContainerName(d) {
      RenderedRouteHasRow(Listed(tables.aliases.Keys), tables.aliases, n);
      var a :| a in tables.aliases && tables.routes[n] == RouteOf(tables.aliases[a]);
      if ContainerName(tables.aliases[a].deployment) == ContainerName(d) {
        ContainerNamesDiffer(tables.aliases[a].deployment, d);
      }
    }
  }

  /** When the completing write of a cancellation comes, the deployment is gone. */
  lemma CancellationLeavesNothing(cfg: Config, s: State, at: int)
    requires Inv(s) && s.stage.Working? && s.stage.cmd.body.Cancellation? && s.stage.task.Complete?
    ensures var t := Step(cfg, s, Local(at));
            t.stage.Idle? && Settled(t, s.stage.cmd.body.deployment)
  {
    CompleteStores(cfg, s, at);
    assert Achieved(s.tables, s.containers, s.stage.cmd, s.stage.task.result);
    FreshForgets(s.tables, s.stage.cmd.body.deployment);
    hide Step, NotRouted, Fresh;
  }

  lemma WriteKeepsGone(
      cfg: Config, tables: Tables, containers: map<string, Container>, cmd: Envelope, task: Task, at: int, d: string)
    requires TablesInv(tables.aliases, tables.revisions) && Prepared(tables, containers, cmd, task)
    requires Gone(tables, containers, d) && !Deploys(cmd, d)
    ensures var written := WriteTables(cfg, tables, cmd, task, at);
            written.Some? ==> Gone(written.value.0, containers, d)
  {
    TablesWritten(cfg, tables, containers, cmd, task, at);
    hide Render, ContainerName, RevisionTaken, HostnameTaken, MakeCallback, NotRouted, Prepared;
    var written := WriteTables(cfg, tables, cmd, task, at);
    if written.Some? {
      var t := written.value.0;
      assert Forgotten(t, d);
      assert t.routes == tables.routes || Fresh(t);
      hide WriteTables, Forgotten;
      if Fresh(t) {
        assert Anchored(t.aliases, t.revisions);
        FreshForgets(t, d);
      }
    }
  }

  lemma WorkKeepsSettled(cfg: Config, s: State, cmd: Envelope, task: Task, e: Event, d: string)
    requires Inv(s) && s.stage == Working(cmd, task) && Settled(s, d)
    ensures Settled(Work(cfg, s, cmd, task, e), d)
  {
    if e.Local? && IsLocal(task) && !task.Complete? {
      WriteKeepsGone(cfg, s.tables, s.containers, cmd, task, e.at, d);
    }
    hide TablesInv, Prepared, Forgotten, NotRouted, WriteTables, LogsRead, Removed, Called, Created, Ensured, FailWith;
  }

  lemma StepKeepsSettled(cfg: Config, s: State, e: Event, d: string)
    requires Inv(s) && Settled(s, d) && !Disturbs(s, e, d)
    ensures Settled(Step(cfg, s, e), d)
  {
    if s.stage.Working? {
      WorkKeepsSettled(cfg, s, s.stage.cmd, s.stage.task, e, d);
    }
    hide Inv, Gone, Work, Start;
  }

  /** Once gone, a deployment stays gone until a command that deploys it is taken up. */
  lemma {:induction false} CancellationSticks(cfg: Config, s: State, events: seq<Event>, d: string)
    requires Inv(s) && Settled(s, d) && Undisturbed(cfg, s, events, d)
    ensures Settled(Run(cfg, s, events), d)
    decreases |events|
  {
    if events != [] {
      StepKeepsInv(cfg, s, events[0]);
      StepKeepsSettled(cfg, s, events[0], d);
      hide Step, Inv, Settled, Disturbs;
      CancellationSticks(cfg, Step(cfg, s, events[0]), events[1..], d);
    }
  }

  ghost predicate EndsCancellation(t: State) {
    t.stage.Working? && t.stage.cmd.body.Cancellation? && t.stage.task.Complete?
  }

  /** From the completing write of a cancellation on, through any run that does not redeploy it. */
  lemma CancelledStaysGone(cfg: Config, s: State, before: seq<Event>, at: int, rest: seq<Event>)
    requires Inv(s) && EndsCancellation(Run(cfg, s, before))
    requires var t := Run(cfg, s, before);
             Undisturbed(cfg, Step(cfg, t, Local(at)), rest, t.stage.cmd.body.deployment)
    ensures var t := Run(cfg, s, before);
            var end := Run(cfg, Step(cfg, t, Local(at)), rest);
            Gone(end.tables, end.containers, t.stage.cmd.body.deployment)
  {
    RunsKeepInv(cfg, s, before);
    var t := Run(cfg, s, before);
    hide Run, Inv, Undisturbed, Gone;
    CancellationLeavesNothing(cfg, t, at);
    StepKeepsInv(cfg, t, Local(at));
    hide Step;
    CancellationSticks(cfg, Step(cfg, t, Local(at)), rest, t.stage.cmd.body.deployment);
  }
}
