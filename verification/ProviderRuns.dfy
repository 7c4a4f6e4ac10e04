/** What the local provider keeps true over every run of commands, failures and crashes. */
module ProviderRuns {
  import opened Faults
  import opened ProviderSpec

  // Tables and routes agree

  ghost predicate DistinctHostnames(aliases: map<string, AliasRow>) {
    forall a, b :: a in aliases && b in aliases && a != b ==> aliases[a].hostname != aliases[b].hostname
  }

  ghost predicate DistinctRevisions(revisions: map<string, RevisionRow>) {
    forall a, b :: a in revisions && b in revisions && a != b ==> revisions[a].revision != revisions[b].revision
  }

  /** Every alias row points at a deployment that has a revision row with the same container. */
  ghost predicate Anchored(aliases: map<string, AliasRow>, revisions: map<string, RevisionRow>) {
    && (forall d :: d in revisions ==> revisions[d].containerName == ContainerName(d))
    && (forall a :: a in aliases ==>
          && aliases[a].deployment in revisions
          && aliases[a].containerName == revisions[aliases[a].deployment].containerName)
  }

  ghost predicate TablesInv(aliases: map<string, AliasRow>, revisions: map<string, RevisionRow>) {
    DistinctHostnames(aliases) && DistinctRevisions(revisions) && Anchored(aliases, revisions)
  }

  /** The deployment has no revision row and no alias row. */
  ghost predicate Forgotten(tables: Tables, d: string) {
    d !in tables.revisions && forall a :: a in tables.aliases ==> tables.aliases[a].deployment != d
  }

  ghost predicate Fresh(tables: Tables) {
    tables.routes == Render(tables.aliases)
  }

  predicate Fits(cmd: Envelope, result: Result) {
    match cmd.body
    case Deployment(d, _, source, _, _, _) =>
      (result.Ready? && result.deployment == d && source.Oci?) || (result.Failed? && result.deployment == d)
    case Cancellation(d, _) => result.Canceled? && result.deployment == d
    case Alias(_) => result.Routed?
    case Unsupported => false
  }

  /** The alias row says what its command asked for, under the host name the result reports. */
  predicate Linked(aliases: map<string, AliasRow>, cmd: Envelope, result: Result)
    requires result.Routed?
  {
    && cmd.body.Alias? && cmd.body.data.Some? && result.aliasId == cmd.body.data.value.aliasId
    && result.aliasId in aliases
    && var d, row := cmd.body.data.value, aliases[result.aliasId];
       && row.hostname == result.hostname && row.revision == d.revision == result.revision
       && row.deployment == d.deployment && row.port == d.port
  }

  /** What a result says of the tables and the containers when its command completes. */
  ghost predicate Achieved(tables: Tables, containers: map<string, Container>, cmd: Envelope, result: Result) {
    && Fits(cmd, result)
    && match result
       case Ready(d, revision, id, _) =>
         && d in containers && containers[d] == Wanted(cmd)
         && d in tables.revisions
         && tables.revisions[d].revision == revision && tables.revisions[d].containerId == id
       case Failed(_, _, _) => true
       case Canceled(d, _) => d !in containers && Forgotten(tables, d) && Fresh(tables)
       case Routed(_, _, _) => Linked(tables.aliases, cmd, result) && Fresh(tables)
  }

  /** What holds before each task beyond the tables themselves. */
  ghost predicate Prepared(tables: Tables, containers: map<string, Container>, cmd: Envelope, task: Task) {
    match task
    case Ensure => cmd.body.Deployment? && cmd.body.source.Oci?
    case Discard => cmd.body.Deployment? && cmd.body.source.Oci?
    case Fail(_, callback) => cmd.body.Deployment? && callback.deployment == cmd.body.deployment
    case Announce(_, _) => Running(containers, cmd)
    case Record(_, _, _) => Running(containers, cmd)
    case ReadLogs => cmd.body.Cancellation?
    case Remove => cmd.body.Cancellation?
    case Forget => cmd.body.Cancellation? && cmd.body.deployment !in containers
    case Reroute =>
      cmd.body.Cancellation? && cmd.body.deployment !in containers && Forgotten(tables, cmd.body.deployment)
    case Confirm(callback) =>
      && cmd.body.Cancellation? && callback.deployment == cmd.body.deployment
      && cmd.body.deployment !in containers && Forgotten(tables, cmd.body.deployment) && Fresh(tables)
    case Link => cmd.body.Alias?
    case Publish(result) =>
      result.Routed? && Linked(tables.aliases, cmd, result)
    case Complete(result) => Achieved(tables, containers, cmd, result)
  }

  ghost predicate Running(containers: map<string, Container>, cmd: Envelope) {
    && cmd.body.Deployment? && cmd.body.source.Oci?
    && cmd.body.deployment in containers && containers[cmd.body.deployment] == Wanted(cmd)
  }

  ghost predicate StageInv(s: State) {
    s.stage.Working? ==> Prepared(s.tables, s.containers, s.stage.cmd, s.stage.task)
  }

  ghost predicate Inv(s: State) {
    TablesInv(s.tables.aliases, s.tables.revisions) && StageInv(s)
  }

  lemma SaveRevisionTables(
    aliases: map<string, AliasRow>, revisions: map<string, RevisionRow>, d: string, row: RevisionRow)
    requires TablesInv(aliases, revisions) && row.containerName == ContainerName(d)
    requires !RevisionTaken(revisions, d, row.revision)
    ensures TablesInv(aliases, revisions[d := row])
  {
    hide ContainerName, DistinctHostnames;
  }

  lemma SaveAliasTables(
    aliases: map<string, AliasRow>, revisions: map<string, RevisionRow>, id: string, row: AliasRow)
    requires TablesInv(aliases, revisions) && row.deployment in revisions
    requires row.containerName == revisions[row.deployment].containerName
    requires !HostnameTaken(aliases, id, row.hostname)
    ensures TablesInv(aliases[id := row], revisions)
  {
    hide ContainerName, DistinctRevisions;
  }

  lemma ForgetTables(tables: Tables, d: string)
    requires TablesInv(tables.aliases, tables.revisions)
    ensures var t := ForgetDeployment(tables, d); TablesInv(t.aliases, t.revisions) && Forgotten(t, d)
  {
    hide ContainerName;
  }

  /** What a local write leaves: sound tables and the next task prepared. */
  ghost predicate WrittenWell(containers: map<string, Container>, cmd: Envelope, written: Option<(Tables, Task)>) {
    written.Some? ==>
      && TablesInv(written.value.0.aliases, written.value.0.revisions)
      && Prepared(written.value.0, containers, cmd, written.value.1)
  }

  lemma RecordWritten(
      cfg: Config, tables: Tables, containers: map<string, Container>, cmd: Envelope, task: Task, at: int)
    requires task.Record? && Prepared(tables, containers, cmd, task)
    requires TablesInv(tables.aliases, tables.revisions)
    ensures WrittenWell(containers, cmd, WriteTables(cfg, tables, cmd, task, at))
  {
    var d := cmd.body.deployment;
    var row := RevisionRow(task.revision, task.containerId, ContainerName(d), cfg.port);
    hide ContainerName, RevisionTaken, Render, Forgotten;
    if !RevisionTaken(tables.revisions, d, task.revision) {
      SaveRevisionTables(tables.aliases, tables.revisions, d, row);
    }
    hide TablesInv;
  }

  lemma LinkWritten(cfg: Config, tables: Tables, containers: map<string, Container>, cmd: Envelope, at: int)
    requires cmd.body.Alias? && TablesInv(tables.aliases, tables.revisions)
    ensures WrittenWell(containers, cmd, WriteTables(cfg, tables, cmd, Link, at))
  {
    hide ContainerName, HostnameTaken, Render, Forgotten;
    if cmd.body.data.Some? && cmd.body.data.value.deployment in tables.revisions {
      var d := cmd.body.data.value;
      var row := RowFor(cfg, tables, d);
      if !HostnameTaken(tables.aliases, d.aliasId, row.hostname) {
        SaveAliasTables(tables.aliases, tables.revisions, d.aliasId, row);
      }
    }
    hide TablesInv;
  }

  lemma ForgetWritten(cfg: Config, tables: Tables, containers: map<string, Container>, cmd: Envelope, at: int)
    requires Prepared(tables, containers, cmd, Forget)
    requires TablesInv(tables.aliases, tables.revisions)
    ensures WrittenWell(containers, cmd, WriteTables(cfg, tables, cmd, Forget, at))
  {
    ForgetTables(tables, cmd.body.deployment);
    hide TablesInv, Forgotten, ForgetDeployment, Render;
  }

  lemma RoutesWritten(
      cfg: Config, tables: Tables, containers: map<string, Container>, cmd: Envelope, task: Task, at: int)
    requires (task.Reroute? || task.Publish?) && Prepared(tables, containers, cmd, task)
    requires TablesInv(tables.aliases, tables.revisions)
    ensures WrittenWell(containers, cmd, WriteTables(cfg, tables, cmd, task, at))
  {
    hide TablesInv, Render;
  }

  /** A local write keeps the tables sound and prepares what follows. */
  lemma TablesWritten(
      cfg: Config, tables: Tables, containers: map<string, Container>, cmd: Envelope, task: Task, at: int)
    requires TablesInv(tables.aliases, tables.revisions) && Prepared(tables, containers, cmd, task)
    ensures WrittenWell(containers, cmd, WriteTables(cfg, tables, cmd, task, at))
  {
    hide TablesInv, Forgotten, Fresh, ForgetDeployment, WriteRoutes, SaveRevision, SaveAlias, Achieved;
    match task
    case Record(_, _, _) => RecordWritten(cfg, tables, containers, cmd, task, at);
    case Link => LinkWritten(cfg, tables, containers, cmd, at);
    case Forget => ForgetWritten(cfg, tables, containers, cmd, at);
    case Reroute => RoutesWritten(cfg, tables, containers, cmd, task, at);
    case Publish(_) => RoutesWritten(cfg, tables, containers, cmd, task, at);
    case _ =>
  }

  lemma WriteKeepsInv(cfg: Config, s: State, cmd: Envelope, task: Task, at: int)
    requires Inv(s) && s.stage == Working(cmd, task) && IsLocal(task)
    ensures Inv(Write(cfg, s, cmd, task, at))
  {
    if !task.Complete? {
      TablesWritten(cfg, s.tables, s.containers, cmd, task, at);
    }
    hide TablesInv, Prepared, WriteTables;
  }

  lemma StartReady(cfg: Config, tables: Tables, containers: map<string, Container>, cmd: Envelope, at: int)
    requires Start(cfg, tables, cmd, at).Some?
    ensures Prepared(tables, containers, cmd, Start(cfg, tables, cmd, at).value)
  {
    hide Fresh, IsDigest, Routable, MakeCallback, Forgotten;
  }

  lemma DeliverKeepsInv(cfg: Config, s: State, cmd: Envelope, at: int)
    requires Inv(s) && s.stage.Idle?
    ensures Inv(Receive(cfg, s, cmd, at))
  {
    if Start(cfg, s.tables, cmd, at).Some? {
      StartReady(cfg, s.tables, s.containers, cmd, at);
    }
    hide TablesInv, Prepared, Start;
  }

  lemma EnsuredKeepsInv(s: State, cmd: Envelope, reply: EnsureReply, at: int)
    requires Inv(s) && cmd.body.Deployment? && cmd.body.source.Oci?
    ensures Inv(Ensured(s, cmd, reply, at))
  {
    hide Fresh, TablesInv, Forgotten, Achieved;
  }

  /** A reply from outside leaves the tables alone and prepares what follows. */
  lemma ReplyKeepsInv(cfg: Config, s: State, cmd: Envelope, task: Task, e: Event)
    requires Inv(s) && s.stage == Working(cmd, task)
    requires e.ContainerCreated? || e.LogsReplied? || e.RemoveReplied? || e.CallReplied?
    ensures Inv(Work(cfg, s, cmd, task, e))
  {
    hide Fresh, TablesInv, Forgotten, MakeCallback, Created, LogsRead, Removed, Called, Write, Ensured, Foreign;
  }

  lemma StepKeepsInv(cfg: Config, s: State, e: Event)
    requires Inv(s)
    ensures Inv(Step(cfg, s, e))
  {
    hide TablesInv, Prepared, Receive, LogsRead, Removed, Called, Write, Created, Ensured;
    if s.stage.Idle? && e.Deliver? {
      DeliverKeepsInv(cfg, s, e.cmd, e.at);
    }
    if s.stage.Working? {
      var cmd, task := s.stage.cmd, s.stage.task;
      match e
      case EnsureReplied(reply, at) =>
        if task.Ensure? && cmd.body.Deployment? && cmd.body.source.Oci? {
          EnsuredKeepsInv(s, cmd, reply, at);
        }
      case Local(at) =>
        if IsLocal(task) {
          WriteKeepsInv(cfg, s, cmd, task, at);
        }
      case Deliver(_, _) =>
      case Crash =>
      case _ => ReplyKeepsInv(cfg, s, cmd, task, e);
    }
  }

  /** Over every run: distinct host names, and every alias row on a live revision row's container. */
  lemma {:induction false} RunsKeepInv(cfg: Config, s: State, events: seq<Event>)
    requires Inv(s)
    ensures Inv(Run(cfg, s, events))
    decreases |events|
  {
    if events != [] {
      StepKeepsInv(cfg, s, events[0]);
      RunsKeepInv(cfg, Step(cfg, s, events[0]), events[1..]);
    }
  }
}
