/**
 * The local provider as a step machine. A command is handled in stages; every durable effect is
 * one step, and a crash may fall between any two of them.
 */
module ProviderSpec {
  import opened Faults
  import opened Ordering
  import Text

  // Commands

  datatype Source = Oci(reference: string, digest: string) | OtherSource

  /** The fields of an alias command; the control plane's ids arrive as plain text. */
  datatype AliasData = AliasData(
    aliasId: string, hostname: string, revision: string, deployment: string, port: int)

  /**
   * `configurationAbsent` is the check that the command says no configuration is present;
   * `readinessPath` is missing when it is not text; an alias command may lack fields.
   */
  datatype Body =
    | Deployment(deployment: string, version: int, source: Source, configurationAbsent: bool,
                 workload: string, readinessPath: Option<string>)
    | Cancellation(deployment: string, version: int)
    | Alias(data: Option<AliasData>)
    | Unsupported

  /** `rest` is whatever else the command says: its time, producer, idempotency key and unused data. */
  datatype Envelope = Envelope(
    eventId: string, org: string, resource: string, correlation: string, rest: string, body: Body)

  // What is kept

  /** A callback's id is a hash of the command's id and the suffix, so it is as good as the two. */
  datatype Callback = Callback(
    command: string, suffix: string, at: int, org: string, resource: string, correlation: string,
    deployment: string, version: int, detail: string)

  datatype Result =
    | Ready(deployment: string, revision: string, containerId: string, callback: Callback)
    | Failed(deployment: string, code: string, callback: Callback)
    | Canceled(deployment: string, callback: Callback)
    | Routed(aliasId: string, hostname: string, revision: string)

  /** A receipt is processing until it has a result; payload digests are free of collisions. */
  datatype Receipt = Receipt(payload: Envelope, result: Option<Result>)

  datatype RevisionRow = RevisionRow(revision: string, containerId: string, containerName: string, port: int)
  datatype AliasRow = AliasRow(
    hostname: string, revision: string, deployment: string, containerName: string, port: int)
  datatype LogRow = LogRow(org: string, entries: seq<string>, truncated: bool)
  datatype Container = Container(org: string, digest: string)

  /** A router and its service: the host it matches and the address it sends requests to. */
  datatype Route = Route(hostname: string, containerName: string, port: int)

  /** Revisions are keyed by deployment, aliases by alias id; `routes` is the route file. */
  datatype Tables = Tables(
    revisions: map<string, RevisionRow>, aliases: map<string, AliasRow>, routes: map<string, Route>)

  /** Containers and logs are keyed by deployment. */
  datatype State = State(
    receipts: map<string, Receipt>,
    tables: Tables,
    containers: map<string, Container>,
    logs: map<string, LogRow>,
    callbacks: seq<Callback>,
    stage: Stage)

  /** What the process is about to do; this is all that a crash loses. */
  datatype Stage = Idle | Replaying(result: Result) | Working(cmd: Envelope, task: Task)

  datatype Task =
    | Ensure
    | Discard
    | Fail(code: string, callback: Callback)
    | Announce(containerId: string, callback: Callback)
    | Record(containerId: string, revision: string, callback: Callback)
    | ReadLogs
    | Remove
    | Forget
    | Reroute
    | Confirm(callback: Callback)
    | Link
    | Publish(result: Result)
    | Complete(result: Result)

  /** `validHostname` is the host name pattern, `lower` the lower-casing of text. */
  datatype Config = Config(
    image: string, domain: string, port: int, validHostname: string -> bool, lower: string -> string)

  function ContainerName(deployment: string): string {
    "lrail-runtime-" + deployment
  }

  predicate IsDigest(s: string) {
    && |s| == 71
    && Text.StartsWith(s, "sha256:")
    && forall i :: 7 <= i < 71 ==> '0' <= s[i] <= '9' || 'a' <= s[i] <= 'f'
  }

  // The route file

  function StripDashes(s: string): string {
    if s == "" then "" else (if s[0] == '-' then "" else [s[0]]) + StripDashes(s[1..])
  }

  function ServiceName(aliasId: string): string {
    "lrail-alias-" + StripDashes(aliasId)
  }

  function RouteOf(row: AliasRow): Route {
    Route(row.hostname, row.containerName, row.port)
  }

  /** One entry per row in turn; a later row with the same service name replaces an earlier one. */
  function RenderRows(ids: seq<string>, aliases: map<string, AliasRow>): map<string, Route>
    requires forall id :: id in ids ==> id in aliases
  {
    if ids == [] then map[]
    else
      var n := |ids| - 1;
      RenderRows(ids[..n], aliases)[ServiceName(ids[n]) := RouteOf(aliases[ids[n]])]
  }

  ghost function Render(aliases: map<string, AliasRow>): map<string, Route> {
    RenderRows(Listed(aliases.Keys), aliases)
  }

  // Handling a command

  function MakeCallback(
      cmd: Envelope, suffix: string, at: int, deployment: string, version: int, detail: string): Callback {
    Callback(cmd.eventId, suffix, at, cmd.org, cmd.resource, cmd.correlation, deployment, version, detail)
  }

  function FailWith(cmd: Envelope, code: string, at: int): (task: Task)
    requires cmd.body.Deployment?
    ensures task.Fail? && task.callback.deployment == cmd.body.deployment
  {
    Fail(code, MakeCallback(cmd, "failed", at, cmd.body.deployment, cmd.body.version, code))
  }

  /** Where a deployment command starts; an invalid digest or path rejects it for good. */
  function StartDeployment(cfg: Config, cmd: Envelope, at: int): (task: Option<Task>)
    requires cmd.body.Deployment?
    ensures task.Some? ==> task.value.Fail? || (task.value.Ensure? && cmd.body.source.Oci?)
  {
    var b := cmd.body;
    if !b.source.Oci? then Some(FailWith(cmd, "git_build_unavailable", at))
    else if b.source.reference != cfg.image then Some(FailWith(cmd, "oci_image_not_allowed", at))
    else if !b.configurationAbsent then Some(FailWith(cmd, "runtime_configuration_unavailable", at))
    else if b.workload != "web" then Some(FailWith(cmd, "workload_type_unsupported", at))
    else if !IsDigest(b.source.digest) then None
    else if b.readinessPath.None? || !Text.StartsWith(b.readinessPath.value, "/") then None
    else Some(Ensure)
  }

  /** An alias command goes on only when it is complete and its target is the current revision. */
  predicate Routable(cfg: Config, tables: Tables, d: AliasData) {
    var hostname := cfg.lower(d.hostname);
    && cfg.validHostname(hostname)
    && Text.EndsWith(hostname, "." + cfg.domain)
    && 1 <= d.port <= 65535
    && d.deployment in tables.revisions
    && tables.revisions[d.deployment].revision == d.revision
  }

  /** The first task of a command, or none when it is refused or put off. */
  function Start(cfg: Config, tables: Tables, cmd: Envelope, at: int): (task: Option<Task>)
    ensures task.Some? ==>
      match cmd.body
      case Deployment(_, _, source, _, _, _) => task.value.Fail? || (task.value.Ensure? && source.Oci?)
      case Cancellation(_, _) => task.value.ReadLogs?
      case Alias(data) => task.value.Link? && data.Some? && data.value.deployment in tables.revisions
      case Unsupported => false
  {
    match cmd.body
    case Deployment(_, _, _, _, _, _) => StartDeployment(cfg, cmd, at)
    case Cancellation(deployment, _) => if deployment == "" then None else Some(ReadLogs)
    case Alias(data) => if data.Some? && Routable(cfg, tables, data.value) then Some(Link) else None
    case Unsupported => None
  }

  function Begin(cfg: Config, tables: Tables, cmd: Envelope, at: int): Stage {
    var task := Start(cfg, tables, cmd, at);
    if task.None? then Idle else Working(cmd, task.value)
  }

  function Receive(cfg: Config, s: State, cmd: Envelope, at: int): State {
    if cmd.eventId in s.receipts then
      var row := s.receipts[cmd.eventId];
      if row.payload != cmd then s
      else if row.result.None? then s.(stage := Begin(cfg, s.tables, cmd, at))
      else if row.result.value.Routed? then s
      else s.(stage := Replaying(row.result.value))
    else
      s.(receipts := s.receipts[cmd.eventId := Receipt(cmd, None)], stage := Begin(cfg, s.tables, cmd, at))
  }

  // Events

  datatype EnsureReply = Up(containerId: string) | NotReady | Mismatch | EnsureDown
  /** `size` is the length of the entries once encoded. */
  datatype LogsReply = Lines(entries: seq<string>, truncated: bool, size: nat) | NoLogs
  datatype CallReply = Accepted(revision: Option<string>) | Refused

  /** What happens next: a delivery, a reply from outside, a local write, or a crash. */
  datatype Event =
    | Deliver(cmd: Envelope, at: int)
    | ContainerCreated
    | EnsureReplied(ensure: EnsureReply, at: int)
    | LogsReplied(logs: LogsReply)
    | RemoveReplied(done: bool, at: int)
    | CallReplied(call: CallReply)
    | Local(at: int)
    | Crash

  predicate Foreign(containers: map<string, Container>, deployment: string, org: string) {
    deployment in containers && containers[deployment].org != org
  }

  /** Everything but the stage, the containers, the logs and the callbacks sent is as it was. */
  ghost predicate OnlyRuntime(s: State, t: State, cmd: Envelope) {
    && t.receipts == s.receipts && t.tables == s.tables
    && (t.stage.Idle? || (t.stage.Working? && t.stage.cmd == cmd))
  }

  function Wanted(cmd: Envelope): Container
    requires cmd.body.Deployment? && cmd.body.source.Oci?
  {
    Container(cmd.org, cmd.body.source.digest)
  }

  function Created(s: State, cmd: Envelope): (t: State)
    requires cmd.body.Deployment? && cmd.body.source.Oci?
    ensures t.(containers := s.containers) == s
    ensures t.containers in {s.containers, s.containers[cmd.body.deployment := Wanted(cmd)]}
  {
    if cmd.body.deployment in s.containers then s
    else s.(containers := s.containers[cmd.body.deployment := Wanted(cmd)])
  }

  function Ensured(s: State, cmd: Envelope, reply: EnsureReply, at: int): (t: State)
    requires cmd.body.Deployment? && cmd.body.source.Oci?
    ensures OnlyRuntime(s, t, cmd) && t.logs == s.logs
    ensures t.containers in {s.containers, s.containers[cmd.body.deployment := Wanted(cmd)]}
    ensures t.stage.Working? ==> t.stage.task.Fail? || t.stage.task.Discard? || t.stage.task.Announce?
  {
    var d := cmd.body.deployment;
    if reply.EnsureDown? then s.(stage := Idle)
    else if reply.Mismatch? || (d in s.containers && s.containers[d] != Wanted(cmd)) then
      s.(stage := Working(cmd, FailWith(cmd, "runtime_failed", at)))
    else
      s.(containers := s.containers[d := Wanted(cmd)],
         stage := Working(cmd,
           if reply.NotReady? then Discard
           else Announce(reply.containerId,
                         MakeCallback(cmd, "ready", at, d, cmd.body.version, cmd.body.source.digest))))
  }

  const LOG_ENTRY_LIMIT := 200
  const LOG_SIZE_LIMIT := 1024 * 1024

  /** A snapshot that is too large, or a log row of another organization, cannot be saved. */
  predicate Savable(logs: map<string, LogRow>, d: string, org: string, entries: seq<string>, size: nat) {
    |entries| <= LOG_ENTRY_LIMIT && size <= LOG_SIZE_LIMIT && (d in logs ==> logs[d].org == org)
  }

  /** Logs were read of a container of the command's organization. */
  predicate HasLogs(containers: map<string, Container>, d: string, org: string, reply: LogsReply) {
    reply.Lines? && d in containers && !Foreign(containers, d, org)
  }

  /** Logs are kept if they can be read; a snapshot that cannot be saved stops the command. */
  function LogsRead(s: State, cmd: Envelope, reply: LogsReply): (t: State)
    requires cmd.body.Cancellation?
    ensures OnlyRuntime(s, t, cmd) && t.containers == s.containers
    ensures t.stage.Working? ==> t.stage.task.Remove?
  {
    var d := cmd.body.deployment;
    if !HasLogs(s.containers, d, cmd.org, reply) then s.(stage := Working(cmd, Remove))
    else if !Savable(s.logs, d, cmd.org, reply.entries, reply.size) then s.(stage := Idle)
    else
      s.(logs := s.logs[d := LogRow(cmd.org, reply.entries, reply.truncated)], stage := Working(cmd, Remove))
  }

  /** A container of another organization is left alone, and so is one the runtime cannot remove. */
  function Removed(s: State, cmd: Envelope, done: bool, d: string, next: Task): (t: State)
    ensures OnlyRuntime(s, t, cmd) && t.logs == s.logs
    ensures t.stage.Working? ==> t.stage.task == next && t.containers == s.containers - {d}
    ensures t.stage.Idle? ==> t.containers == s.containers
  {
    if !done || Foreign(s.containers, d, cmd.org) then s.(stage := Idle)
    else s.(containers := s.containers - {d}, stage := Working(cmd, next))
  }

  /** What follows a callback, once it has been answered. */
  function Answered(task: Task, reply: CallReply): (next: Option<Task>)
    ensures next.Some? ==>
      || (task.Fail? && next.value.Complete? && next.value.result.Failed?)
      || (task.Announce? && next.value.Record?)
      || (task.Confirm? && next.value.Complete?
          && next.value.result == Canceled(task.callback.deployment, task.callback))
  {
    if reply.Refused? then None
    else
      match task
      case Fail(code, callback) => Some(Complete(Failed(callback.deployment, code, callback)))
      case Announce(containerId, callback) =>
        if reply.revision.None? || reply.revision.value == "" then None
        else Some(Record(containerId, reply.revision.value, callback))
      case Confirm(callback) => Some(Complete(Canceled(callback.deployment, callback)))
      case _ => None
  }

  function Called(s: State, cmd: Envelope, task: Task, reply: CallReply): (t: State)
    requires task.Fail? || task.Announce? || task.Confirm?
    ensures OnlyRuntime(s, t, cmd) && t.containers == s.containers && t.logs == s.logs
    ensures t.callbacks == s.callbacks + [task.callback]
    ensures t.stage == if Answered(task, reply).Some? then Working(cmd, Answered(task, reply).value) else Idle
  {
    var next := Answered(task, reply);
    s.(callbacks := s.callbacks + [task.callback],
       stage := if next.Some? then Working(cmd, next.value) else Idle)
  }

  // Local writes

  predicate RevisionTaken(revisions: map<string, RevisionRow>, d: string, revision: string) {
    exists other :: other in revisions && other != d && revisions[other].revision == revision
  }

  predicate HostnameTaken(aliases: map<string, AliasRow>, id: string, hostname: string) {
    exists other :: other in aliases && other != id && aliases[other].hostname == hostname
  }

  /** A revision id belongs to one deployment; a clash aborts the transaction. */
  function SaveRevision(
    revisions: map<string, RevisionRow>, d: string, row: RevisionRow): Option<map<string, RevisionRow>>
  {
    if RevisionTaken(revisions, d, row.revision) then None else Some(revisions[d := row])
  }

  /** A host name belongs to one alias; a clash aborts the transaction. */
  function SaveAlias(aliases: map<string, AliasRow>, id: string, row: AliasRow): Option<map<string, AliasRow>> {
    if HostnameTaken(aliases, id, row.hostname) then None else Some(aliases[id := row])
  }

  function WithoutDeployment(aliases: map<string, AliasRow>, deployment: string): map<string, AliasRow> {
    map id | id in aliases && aliases[id].deployment != deployment :: aliases[id]
  }

  /** Alias rows and the revision row go in one transaction. */
  function ForgetDeployment(tables: Tables, d: string): Tables {
    tables.(aliases := WithoutDeployment(tables.aliases, d), revisions := tables.revisions - {d})
  }

  ghost function WriteRoutes(tables: Tables): Tables {
    tables.(routes := Render(tables.aliases))
  }

  function RowFor(cfg: Config, tables: Tables, d: AliasData): AliasRow
    requires d.deployment in tables.revisions
  {
    AliasRow(cfg.lower(d.hostname), d.revision, d.deployment,
             tables.revisions[d.deployment].containerName, d.port)
  }

  /** The tables after a local task, and what follows; none when a constraint fails. */
  ghost function WriteTables(cfg: Config, tables: Tables, cmd: Envelope, task: Task, at: int): Option<(Tables, Task)> {
    match task
    case Record(containerId, revision, callback) =>
      if !cmd.body.Deployment? then None
      else
        var d := cmd.body.deployment;
        var saved := SaveRevision(tables.revisions, d, RevisionRow(revision, containerId, ContainerName(d), cfg.port));
        if saved.None? then None
        else Some((tables.(revisions := saved.value), Complete(Ready(d, revision, containerId, callback))))
    case Forget =>
      if !cmd.body.Cancellation? then None
      else Some((ForgetDeployment(tables, cmd.body.deployment), Reroute))
    case Reroute =>
      if !cmd.body.Cancellation? then None
      else
        var callback := MakeCallback(cmd, "canceled", at, cmd.body.deployment, cmd.body.version, "");
        Some((WriteRoutes(tables), Confirm(callback)))
    case Link =>
      if !cmd.body.Alias? || cmd.body.data.None? || cmd.body.data.value.deployment !in tables.revisions then None
      else
        var d := cmd.body.data.value;
        var row := RowFor(cfg, tables, d);
        var saved := SaveAlias(tables.aliases, d.aliasId, row);
        if saved.None? then None
        else Some((tables.(aliases := saved.value), Publish(Routed(d.aliasId, row.hostname, d.revision))))
    case Publish(result) => Some((WriteRoutes(tables), Complete(result)))
    case _ => None
  }

  predicate IsLocal(task: Task) {
    task.Record? || task.Forget? || task.Reroute? || task.Link? || task.Publish? || task.Complete?
  }

  ghost function Write(cfg: Config, s: State, cmd: Envelope, task: Task, at: int): State
    requires IsLocal(task)
  {
    if task.Complete? then
      s.(receipts := s.receipts[cmd.eventId := Receipt(cmd, Some(task.result))], stage := Idle)
    else
      var written := WriteTables(cfg, s.tables, cmd, task, at);
      if written.None? then s.(stage := Idle)
      else s.(tables := written.value.0, stage := Working(cmd, written.value.1))
  }

  /** One step of a command in hand; an event that its task does not wait for changes nothing. */
  ghost function Work(cfg: Config, s: State, cmd: Envelope, task: Task, e: Event): State {
    match e
    case ContainerCreated =>
      if task.Ensure? && cmd.body.Deployment? && cmd.body.source.Oci? then Created(s, cmd) else s
    case EnsureReplied(reply, at) =>
      if task.Ensure? && cmd.body.Deployment? && cmd.body.source.Oci? then Ensured(s, cmd, reply, at) else s
    case LogsReplied(reply) =>
      if task.ReadLogs? && cmd.body.Cancellation? then LogsRead(s, cmd, reply) else s
    case RemoveReplied(done, at) =>
      if task.Discard? && cmd.body.Deployment? then
        Removed(s, cmd, done, cmd.body.deployment, FailWith(cmd, "runtime_failed", at))
      else if task.Remove? && cmd.body.Cancellation? then Removed(s, cmd, done, cmd.body.deployment, Forget)
      else s
    case CallReplied(reply) =>
      if task.Fail? || task.Announce? || task.Confirm? then Called(s, cmd, task, reply) else s
    case Local(at) => if IsLocal(task) then Write(cfg, s, cmd, task, at) else s
    case Deliver(_, _) => s
    case Crash => s.(stage := Idle)
  }

  ghost function Step(cfg: Config, s: State, e: Event): State {
    match s.stage
    case Idle => if e.Deliver? then Receive(cfg, s, e.cmd, e.at) else s
    case Replaying(result) =>
      if e.CallReplied? && !result.Routed? then s.(callbacks := s.callbacks + [result.callback], stage := Idle)
      else if e.Crash? then s.(stage := Idle)
      else s
    case Working(cmd, task) => Work(cfg, s, cmd, task, e)
  }

  ghost function Run(cfg: Config, s: State, events: seq<Event>): State
    decreases |events|
  {
    if events == [] then s else Run(cfg, Step(cfg, s, events[0]), events[1..])
  }
}
