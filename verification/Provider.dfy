/** The local provider itself: its store, its route file and the processor that drives them. */
module Provider {
  import opened Faults
  import opened Ordering
  import opened ProviderSpec
  import opened ProviderCallbacks
  import opened ProviderConvergence

  datatype Status = Conflict | Processing | Done(result: Result)

  class StateStore {
    var receipts: map<string, ProviderSpec.Receipt>
    var revisions: map<string, RevisionRow>
    var aliases: map<string, AliasRow>
    var logs: map<string, LogRow>

    constructor ()
      ensures receipts == map[] && revisions == map[] && aliases == map[] && logs == map[]
    {
      receipts, revisions, aliases, logs := map[], map[], map[], map[];
    }

    method Receive(cmd: Envelope) returns (status: Status)
      modifies this`receipts
      ensures receipts == if cmd.eventId in old(receipts) then old(receipts)
                          else old(receipts)[cmd.eventId := Receipt(cmd, None)]
      ensures status == if cmd.eventId !in old(receipts) then Processing
                        else if old(receipts)[cmd.eventId].payload != cmd then Conflict
                        else if old(receipts)[cmd.eventId].result.None? then Processing
                        else Done(old(receipts)[cmd.eventId].result.value)
    {
      if cmd.eventId in receipts {
        var row := receipts[cmd.eventId];
        if row.payload != cmd {
          return Conflict;
        }
        return if row.result.None? then Processing else Done(row.result.value);
      }
      receipts := receipts[cmd.eventId := Receipt(cmd, None)];
      return Processing;
    }

    /** An update of the row with this id, if there is one. */
    method Complete(id: string, result: Result)
      modifies this`receipts
      ensures receipts == if id in old(receipts)
                          then old(receipts)[id := Receipt(old(receipts)[id].payload, Some(result))]
                          else old(receipts)
    {
      if id in receipts {
        receipts := receipts[id := receipts[id].(result := Some(result))];
      }
    }

    method SaveRevision(d: string, row: RevisionRow) returns (saved: bool)
      modifies this`revisions
      ensures var after := ProviderSpec.SaveRevision(old(revisions), d, row);
              saved == after.Some? && revisions == if saved then after.value else old(revisions)
    {
      var rest := revisions.Keys - {d};
      while rest != {}
        invariant rest <= revisions.Keys - {d}
        invariant forall x :: x in revisions && x != d && x !in rest ==> revisions[x].revision != row.revision
        decreases rest
      {
        var x :| x in rest;
        if revisions[x].revision == row.revision {
          return false;
        }
        rest := rest - {x};
      }
      revisions := revisions[d := row];
      return true;
    }

    method SaveAlias(id: string, row: AliasRow) returns (saved: bool)
      modifies this`aliases
      ensures var after := ProviderSpec.SaveAlias(old(aliases), id, row);
              saved == after.Some? && aliases == if saved then after.value else old(aliases)
    {
      var rest := aliases.Keys - {id};
      while rest != {}
        invariant rest <= aliases.Keys - {id}
        invariant forall x :: x in aliases && x != id && x !in rest ==> aliases[x].hostname != row.hostname
        decreases rest
      {
        var x :| x in rest;
        if aliases[x].hostname == row.hostname {
          return false;
        }
        rest := rest - {x};
      }
      aliases := aliases[id := row];
      return true;
    }

    /** The alias ids in increasing order. */
    method Aliases() returns (ids: seq<string>)
      ensures ids == Listed(aliases.Keys)
    {
      ids := [];
      var rest := aliases.Keys;
      while rest != {}
        invariant rest <= aliases.Keys
        invariant StrictlySorted(ids, Same)
        invariant forall x :: x in ids <==> x in aliases.Keys - rest
        decreases rest
      {
        var x :| x in rest;
        InsertStrict(x, ids, Same);
        InsertKeeps(x, ids);
        ids := Insert(x, ids, Same);
        rest := rest - {x};
      }
      StrictUnique(ids, Listed(aliases.Keys), Same);
    }

    /** Saves a snapshot within the limits, unless the row is another organization's. */
    method SaveLogs(d: string, row: LogRow, size: nat) returns (saved: bool)
      modifies this`logs
      ensures saved == Savable(old(logs), d, row.org, row.entries, size)
      ensures logs == if saved then old(logs)[d := row] else old(logs)
    {
      if |row.entries| > LOG_ENTRY_LIMIT || size > LOG_SIZE_LIMIT {
        return false;
      }
      if d in logs && logs[d].org != row.org {
        return false;
      }
      logs := logs[d := row];
      return true;
    }

    method RemoveDeployment(d: string)
      modifies this`aliases, this`revisions
      ensures forall routes ::
        Tables(revisions, aliases, routes) == ForgetDeployment(Tables(old(revisions), old(aliases), routes), d)
    {
      aliases := WithoutDeployment(aliases, d);
      revisions := revisions - {d};
    }
  }

  lemma RenderOneMore(ids: seq<string>, aliases: map<string, AliasRow>, n: nat)
    requires n < |ids| && forall id :: id in ids ==> id in aliases
    ensures RenderRows(ids[..n + 1], aliases)
            == RenderRows(ids[..n], aliases)[ServiceName(ids[n]) := RouteOf(aliases[ids[n]])]
  {
    hide ServiceName, RouteOf;
    assert ids[..n + 1][..n] == ids[..n];
  }

  class RouteWriter {
    const cfg: Config
    const store: StateStore
    var routes: map<string, Route>

    constructor (cfg: Config, store: StateStore)
      ensures this.cfg == cfg && this.store == store && routes == map[]
    {
      this.cfg, this.store, routes := cfg, store, map[];
    }

    ghost function Seen(): Tables
      reads this, store
    {
      Tables(store.revisions, store.aliases, routes)
    }

    /** Builds the routers one alias row after another and replaces the file. */
    method WriteAll()
      modifies this`routes
      ensures Seen() == WriteRoutes(old(Seen()))
    {
      var ids := store.Aliases();
      var routers: map<string, Route> := map[];
      assert RenderRows(ids[..0], store.aliases) == routers;
      assert Render(store.aliases) == RenderRows(ids, store.aliases);
      hide Listed, RenderRows, Render, ServiceName, RouteOf;
      for n := 0 to |ids|
        invariant routers == RenderRows(ids[..n], store.aliases)
      {
        RenderOneMore(ids, store.aliases, n);
        routers := routers[ServiceName(ids[n]) := RouteOf(store.aliases[ids[n]])];
      }
      assert ids[..|ids|] == ids;
      routes := routers;
    }

    method RemoveDeployment(d: string)
      modifies this`routes, store`aliases, store`revisions
      ensures Seen() == WriteRoutes(ForgetDeployment(old(Seen()), d))
    {
      store.RemoveDeployment(d);
      WriteAll();
    }

    /** Checks the command, saves its alias row and rewrites the file. */
    method Apply(cmd: Envelope, at: int) returns (result: Option<Result>)
      requires cmd.body.Alias?
      modifies this`routes, store`aliases
      ensures Start(cfg, old(Seen()), cmd, at).None? ==> result.None? && Seen() == old(Seen())
      ensures Start(cfg, old(Seen()), cmd, at).Some? ==>
        var linked := WriteTables(cfg, old(Seen()), cmd, Link, at);
        && (linked.None? ==> result.None? && Seen() == old(Seen()))
        && (linked.Some? ==> result.Some? && linked.value.1 == Publish(result.value)
                             && Seen() == WriteRoutes(linked.value.0))
    {
      if cmd.body.data.None? || !Routable(cfg, Tables(store.revisions, store.aliases, routes), cmd.body.data.value) {
        return None;
      }
      var d := cmd.body.data.value;
      var row := RowFor(cfg, Tables(store.revisions, store.aliases, routes), d);
      var saved := store.SaveAlias(d.aliasId, row);
      if !saved {
        return None;
      }
      WriteAll();
      return Some(Routed(d.aliasId, row.hostname, d.revision));
    }
  }

  /** What the runtime and the control plane answer while one command is handled. */
  datatype World = World(ensure: EnsureReply, logs: LogsReply, removed: bool, call: CallReply, at: int)

  /** One handling as steps; a step its command does not wait for changes nothing. */
  function Script(cmd: Envelope, w: World): seq<Event> {
    [Deliver(cmd, w.at), EnsureReplied(w.ensure, w.at), LogsReplied(w.logs), RemoveReplied(w.removed, w.at),
     Local(w.at), Local(w.at), CallReplied(w.call), Local(w.at), Local(w.at)]
  }

  /** A handling whose callback is refused completes nothing but an alias command. */
  lemma Unaccepted(cfg: Config, s: State, cmd: Envelope, w: World)
    requires s.stage.Idle?
    ensures w.call.Refused? ==> OnlyAliasesCompleted(s.receipts, Run(cfg, s, Script(cmd, w)).receipts)
  {
    hide Run, OnlyAliasesCompleted;
    if w.call.Refused? {
      NothingAcceptedNothingCompleted(cfg, s, Script(cmd, w));
    }
  }

  /** The rest of a handling leads from `s` to `t`. */
  ghost predicate Leads(cfg: Config, s: State, cmd: Envelope, w: World, i: nat, t: State) {
    i <= 9 && Run(cfg, s, Script(cmd, w)[i..]) == t
  }

  lemma LeadsOn(cfg: Config, s: State, cmd: Envelope, w: World, i: nat, t: State)
    requires i < 9 && Leads(cfg, Step(cfg, s, Script(cmd, w)[i]), cmd, w, i + 1, t)
    ensures Leads(cfg, s, cmd, w, i, t)
  {
    RunFrom(cfg, s, Script(cmd, w), i);
  }

  lemma DeliverLeads(cfg: Config, s: State, cmd: Envelope, w: World, end: State)
    requires s.stage.Idle? && Leads(cfg, Receive(cfg, s, cmd, w.at), cmd, w, 1, end)
    ensures Run(cfg, s, Script(cmd, w)) == end
  {
    hide Run, Receive;
    LeadsOn(cfg, s, cmd, w, 0, end);
    assert Script(cmd, w)[0..] == Script(cmd, w);
  }

  /** After the delivery an idle provider stays as it is. */
  lemma {:induction false} IdleRests(cfg: Config, s: State, cmd: Envelope, w: World, i: nat)
    requires 1 <= i <= 9 && s.stage.Idle?
    ensures Leads(cfg, s, cmd, w, i, s)
    decreases 9 - i
  {
    if i < 9 {
      IdleRests(cfg, s, cmd, w, i + 1);
      LeadsOn(cfg, s, cmd, w, i, s);
    }
  }

  /** The same state with the command's result stored. */
  function Stored(s: State, cmd: Envelope, result: Result): State {
    s.(receipts := s.receipts[cmd.eventId := Receipt(cmd, Some(result))], stage := Idle)
  }

  lemma CompleteLeads(cfg: Config, s: State, cmd: Envelope, w: World, i: nat, result: Result)
    requires s.stage == Working(cmd, Complete(result)) && 6 <= i <= 8
    ensures Leads(cfg, s, cmd, w, i, Stored(s, cmd, result))
  {
    IdleRests(cfg, Stored(s, cmd, result), cmd, w, 8);
    IdleRests(cfg, Stored(s, cmd, result), cmd, w, 9);
    if i == 8 {
      LeadsOn(cfg, s, cmd, w, 8, Stored(s, cmd, result));
    } else {
      LeadsOn(cfg, s, cmd, w, 7, Stored(s, cmd, result));
      if i == 6 {
        LeadsOn(cfg, s, cmd, w, 6, Stored(s, cmd, result));
      }
    }
  }

  /** A callback is the only step of a failure or an announcement up to the seventh. */
  lemma CallLeads(cfg: Config, s: State, cmd: Envelope, task: Task, w: World, end: State)
    requires s.stage == Working(cmd, task) && (task.Fail? || task.Announce?)
    requires Leads(cfg, Called(s, cmd, task, w.call), cmd, w, 7, end)
    ensures Leads(cfg, s, cmd, w, 4, end)
  {
    hide Run, Called;
    LeadsOn(cfg, s, cmd, w, 6, end);
    LeadsOn(cfg, s, cmd, w, 5, end);
    LeadsOn(cfg, s, cmd, w, 4, end);
  }

  /** Between the delivery and the logs a cancellation waits for nothing. */
  lemma LogsLead(cfg: Config, s: State, cmd: Envelope, w: World, end: State)
    requires cmd.body.Cancellation? && s.stage == Working(cmd, ReadLogs)
    requires Leads(cfg, LogsRead(s, cmd, w.logs), cmd, w, 3, end)
    ensures Leads(cfg, s, cmd, w, 1, end)
  {
    hide Run, LogsRead;
    LeadsOn(cfg, s, cmd, w, 2, end);
    LeadsOn(cfg, s, cmd, w, 1, end);
  }

  lemma RemoveLeads(cfg: Config, s: State, cmd: Envelope, w: World, end: State)
    requires cmd.body.Cancellation? && s.stage == Working(cmd, Remove)
    requires Leads(cfg, Removed(s, cmd, w.removed, cmd.body.deployment, Forget), cmd, w, 4, end)
    ensures Leads(cfg, s, cmd, w, 3, end)
  {
    hide Run, Removed;
    LeadsOn(cfg, s, cmd, w, 3, end);
  }

  /** The state once the result, if any, has been stored. */
  function Ended(s: State, cmd: Envelope, result: Option<Result>): State {
    if result.Some? then Stored(s, cmd, result.value) else s
  }

  /** The steps from `i` on lead from `s` to where the caller stores the result, if there is one. */
  ghost predicate Handled(cfg: Config, s: State, cmd: Envelope, w: World, i: nat, t: State, result: Option<Result>) {
    Leads(cfg, s, cmd, w, i, Ended(t, cmd, result))
  }

  lemma AsHandled(cfg: Config, s: State, cmd: Envelope, w: World, i: nat)
    requires Leads(cfg, s, cmd, w, i, s)
    ensures Handled(cfg, s, cmd, w, i, s, None)
  {
  }

  /** From an accepted announcement a revision row is written, or a clash stops the command. */
  lemma RecordLeads(cfg: Config, t: State, u: State, cmd: Envelope, w: World, result: Option<Result>)
    requires t.stage.Working? && t.stage.cmd == cmd && t.stage.task.Record?
    requires Write(cfg, t, cmd, t.stage.task, w.at)
             == u.(stage := if result.Some? then Working(cmd, Complete(result.value)) else Idle)
    requires u.stage.Idle?
    ensures Leads(cfg, t, cmd, w, 7, Ended(u, cmd, result))
  {
    hide Run, Write;
    if result.Some? {
      CompleteLeads(cfg, u.(stage := Working(cmd, Complete(result.value))), cmd, w, 8, result.value);
    } else {
      IdleRests(cfg, u, cmd, w, 8);
    }
    LeadsOn(cfg, t, cmd, w, 7, Ended(u, cmd, result));
  }

  /** From a removed container the rows go, the file is rewritten and the callback is sent. */
  lemma ConfirmLeads(cfg: Config, s: State, cmd: Envelope, w: World, end: State)
    requires cmd.body.Cancellation? && s.stage == Working(cmd, Forget)
    requires var callback := MakeCallback(cmd, "canceled", w.at, cmd.body.deployment, cmd.body.version, "");
             var t := s.(tables := WriteRoutes(ForgetDeployment(s.tables, cmd.body.deployment)),
                         stage := Working(cmd, Confirm(callback)));
             Leads(cfg, Called(t, cmd, Confirm(callback), w.call), cmd, w, 7, end)
    ensures Leads(cfg, s, cmd, w, 4, end)
  {
    var callback := MakeCallback(cmd, "canceled", w.at, cmd.body.deployment, cmd.body.version, "");
    var erased := s.(tables := ForgetDeployment(s.tables, cmd.body.deployment), stage := Working(cmd, Reroute));
    var t := erased.(tables := WriteRoutes(erased.tables), stage := Working(cmd, Confirm(callback)));
    hide Run, ForgetDeployment, WriteRoutes, Called, MakeCallback;
    LeadsOn(cfg, t, cmd, w, 6, end);
    LeadsOn(cfg, erased, cmd, w, 5, end);
    LeadsOn(cfg, s, cmd, w, 4, end);
  }

  lemma PublishLeads(cfg: Config, s: State, t: State, cmd: Envelope, w: World, result: Result)
    requires s.stage == Working(cmd, Publish(result))
    requires t == s.(tables := WriteRoutes(s.tables), stage := Idle)
    ensures Leads(cfg, s, cmd, w, 5, Stored(t, cmd, result))
  {
    var written := t.(stage := Working(cmd, Complete(result)));
    hide Run, WriteRoutes;
    assert Step(cfg, s, Local(w.at)) == written;
    CompleteLeads(cfg, written, cmd, w, 6, result);
    hide Step;
    LeadsOn(cfg, s, cmd, w, 5, Stored(t, cmd, result));
  }

  /** From a routable command its alias row is written, or a clash stops the command. */
  lemma LinkLeads(cfg: Config, s: State, t: State, cmd: Envelope, w: World, result: Option<Result>)
    requires s.stage == Working(cmd, Link) && t.stage.Idle?
    requires var linked := WriteTables(cfg, s.tables, cmd, Link, w.at);
             if linked.None? then result.None? && t == s.(stage := Idle)
             else result.Some? && linked.value.1 == Publish(result.value)
                  && t == s.(tables := WriteRoutes(linked.value.0), stage := Idle)
    ensures Leads(cfg, s, cmd, w, 1, Ended(t, cmd, result))
  {
    var linked := WriteTables(cfg, s.tables, cmd, Link, w.at);
    hide Run, WriteTables, WriteRoutes;
    if linked.None? {
      IdleRests(cfg, t, cmd, w, 5);
    } else {
      var saved := s.(tables := linked.value.0, stage := Working(cmd, Publish(result.value)));
      PublishLeads(cfg, saved, t, cmd, w, result.value);
    }
    var end := Ended(t, cmd, result);
    hide Ended;
    LeadsOn(cfg, s, cmd, w, 4, end);
    LeadsOn(cfg, s, cmd, w, 3, end);
    LeadsOn(cfg, s, cmd, w, 2, end);
    LeadsOn(cfg, s, cmd, w, 1, end);
  }

  class Processor {
    const cfg: Config
    const store: StateStore
    const routes: RouteWriter
    var containers: map<string, Container>
    var callbacks: seq<Callback>

    constructor (cfg: Config, store: StateStore, routes: RouteWriter, containers: map<string, Container>)
      requires routes.store == store && routes.cfg == cfg
      ensures this.cfg == cfg && this.store == store && this.routes == routes
      ensures this.containers == containers && callbacks == []
    {
      this.cfg, this.store, this.routes := cfg, store, routes;
      this.containers, callbacks := containers, [];
    }

    ghost predicate Valid() {
      routes.store == store && routes.cfg == cfg
    }

    /** Everything kept outside the process, seen at a stage of the command in hand. */
    ghost function Seen(stage: Stage): State
      reads this, store, routes
    {
      State(store.receipts, Tables(store.revisions, store.aliases, routes.routes),
            containers, store.logs, callbacks, stage)
    }

    /** Brings the container up, or says which failure to report; none when the runtime is away. */
    method Ensure(cmd: Envelope, reply: EnsureReply, at: int) returns (next: Option<Task>)
      requires cmd.body.Deployment? && cmd.body.source.Oci?
      modifies this`containers
      ensures Seen(if next.Some? then Working(cmd, next.value) else Idle)
              == Ensured(old(Seen(Working(cmd, ProviderSpec.Ensure))), cmd, reply, at)
    {
      var d := cmd.body.deployment;
      if reply.EnsureDown? {
        return None;
      }
      if reply.Mismatch? || (d in containers && containers[d] != Wanted(cmd)) {
        return Some(FailWith(cmd, "runtime_failed", at));
      }
      containers := containers[d := Wanted(cmd)];
      if reply.NotReady? {
        return Some(Discard);
      }
      return Some(Announce(reply.containerId,
                           MakeCallback(cmd, "ready", at, d, cmd.body.version, cmd.body.source.digest)));
    }

    method RemoveContainer(
        cmd: Envelope, done: bool, d: string, ghost task: Task, ghost next: Task)
      returns (removed: bool)
      modifies this`containers
      ensures Seen(if removed then Working(cmd, next) else Idle)
              == Removed(old(Seen(Working(cmd, task))), cmd, done, d, next)
    {
      if !done || Foreign(containers, d, cmd.org) {
        return false;
      }
      containers := containers - {d};
      return true;
    }

    method Call(cmd: Envelope, task: Task, reply: CallReply) returns (next: Option<Task>)
      requires task.Fail? || task.Announce? || task.Confirm?
      modifies this`callbacks
      ensures next == Answered(task, reply)
      ensures Seen(if next.Some? then Working(cmd, next.value) else Idle)
              == Called(old(Seen(Working(cmd, task))), cmd, task, reply)
    {
      callbacks := callbacks + [task.callback];
      return Answered(task, reply);
    }

    method SaveLogs(cmd: Envelope, reply: LogsReply) returns (ok: bool)
      requires cmd.body.Cancellation?
      modifies store`logs
      ensures Seen(if ok then Working(cmd, Remove) else Idle)
              == LogsRead(old(Seen(Working(cmd, ReadLogs))), cmd, reply)
    {
      var d := cmd.body.deployment;
      if reply.NoLogs? || d !in containers || Foreign(containers, d, cmd.org) {
        return true;
      }
      ok := store.SaveLogs(d, LogRow(cmd.org, reply.entries, reply.truncated), reply.size);
    }

    /** The callback of a failure, and the result it ends with. */
    method Report(cmd: Envelope, task: Task, w: World) returns (result: Option<Result>)
      requires task.Fail?
      modifies this`callbacks
      ensures Handled(cfg, old(Seen(Working(cmd, task))), cmd, w, 4, Seen(Idle), result)
      ensures result == if w.call.Refused? then None
                        else Some(Failed(task.callback.deployment, task.code, task.callback))
    {
      ghost var s := Seen(Working(cmd, task));
      var next := Call(cmd, task, w.call);
      ghost var t := Seen(if next.Some? then Working(cmd, next.value) else Idle);
      result := if next.Some? then Some(next.value.result) else None;
      hide Run, Called, Script;
      if next.Some? {
        CompleteLeads(cfg, t, cmd, w, 7, result.value);
      } else {
        IdleRests(cfg, t, cmd, w, 7);
      }
      CallLeads(cfg, s, cmd, task, w, Ended(Seen(Idle), cmd, result));
    }

    /** A container that is up is announced, and its revision is recorded. */
    method Record(cmd: Envelope, task: Task, w: World) returns (result: Option<Result>)
      requires Valid() && task.Announce? && cmd.body.Deployment?
      modifies this`callbacks, store`revisions
      ensures Handled(cfg, old(Seen(Working(cmd, task))), cmd, w, 4, Seen(Idle), result)
      ensures result.Some? ==>
        && result.value.Ready? && result.value.callback == task.callback
        && w.call == Accepted(Some(result.value.revision)) && result.value.revision != ""
    {
      ghost var s := Seen(Working(cmd, task));
      var next := Call(cmd, task, w.call);
      ghost var t := Seen(if next.Some? then Working(cmd, next.value) else Idle);
      hide Run, Called, Script, RevisionTaken, ContainerName;
      if next.Some? {
        var d := cmd.body.deployment;
        var row := RevisionRow(next.value.revision, next.value.containerId, ContainerName(d), cfg.port);
        var saved := store.SaveRevision(d, row);
        result := if saved then Some(Ready(d, row.revision, row.containerId, task.callback)) else None;
        RecordLeads(cfg, t, Seen(Idle), cmd, w, result);
      } else {
        result := None;
        IdleRests(cfg, t, cmd, w, 7);
      }
      CallLeads(cfg, s, cmd, task, w, Ended(Seen(Idle), cmd, result));
    }

    method Deployment(cmd: Envelope, task: Task, w: World) returns (result: Option<Result>)
      requires Valid() && cmd.body.Deployment? && (task.Fail? || (task.Ensure? && cmd.body.source.Oci?))
      modifies this`containers, this`callbacks, store`revisions
      ensures Handled(cfg, old(Seen(Working(cmd, task))), cmd, w, 1, Seen(Idle), result)
      ensures result.Some? ==> w.call.Accepted? && (result.value.Ready? || result.value.Failed?)
    {
      ghost var s := Seen(Working(cmd, task));
      hide Run, FailWith, Ensured, Removed;
      var after := task;
      if task.Ensure? {
        var next := Ensure(cmd, w.ensure, w.at);
        if next.None? {
          IdleRests(cfg, Seen(Idle), cmd, w, 2);
          LeadsOn(cfg, s, cmd, w, 1, Seen(Idle));
          return None;
        }
        after := next.value;
      }
      ghost var t := Seen(Working(cmd, after));
      ghost var u := t;
      if after.Discard? {
        var fail := FailWith(cmd, "runtime_failed", w.at);
        var removed := RemoveContainer(cmd, w.removed, cmd.body.deployment, after, fail);
        u := Seen(if removed then Working(cmd, fail) else Idle);
        after := fail;
        if !removed {
          IdleRests(cfg, u, cmd, w, 4);
          result := None;
        } else {
          result := Report(cmd, fail, w);
        }
      } else if after.Fail? {
        result := Report(cmd, after, w);
      } else {
        result := Record(cmd, after, w);
      }
      ghost var end := Ended(Seen(Idle), cmd, result);
      assert Leads(cfg, u, cmd, w, 4, end);
      LeadsOn(cfg, t, cmd, w, 3, end);
      LeadsOn(cfg, t, cmd, w, 2, end);
      LeadsOn(cfg, s, cmd, w, 1, end);
    }

    method Cancellation(cmd: Envelope, w: World) returns (result: Option<Result>)
      requires Valid() && cmd.body.Cancellation?
      modifies this`containers, this`callbacks, store`logs, store`aliases, store`revisions, routes`routes
      ensures Handled(cfg, old(Seen(Working(cmd, ReadLogs))), cmd, w, 1, Seen(Idle), result)
      ensures result.Some? ==> w.call.Accepted? && result.value.Canceled?
    {
      ghost var s := Seen(Working(cmd, ReadLogs));
      hide Run, LogsRead, Removed, Leads;
      var ok := SaveLogs(cmd, w.logs);
      ghost var t := Seen(if ok then Working(cmd, Remove) else Idle);
      if ok {
        var removed := RemoveContainer(cmd, w.removed, cmd.body.deployment, Remove, Forget);
        ghost var u := Seen(if removed then Working(cmd, Forget) else Idle);
        if removed {
          result := Confirmed(cmd, w);
        } else {
          result := None;
          IdleRests(cfg, u, cmd, w, 4);
        }
        RemoveLeads(cfg, t, cmd, w, Ended(Seen(Idle), cmd, result));
      } else {
        result := None;
        IdleRests(cfg, t, cmd, w, 3);
      }
      LogsLead(cfg, s, cmd, w, Ended(Seen(Idle), cmd, result));
    }

    method Confirmed(cmd: Envelope, w: World) returns (result: Option<Result>)
      requires Valid() && cmd.body.Cancellation?
      modifies this`callbacks, store`aliases, store`revisions, routes`routes
      ensures Handled(cfg, old(Seen(Working(cmd, Forget))), cmd, w, 4, Seen(Idle), result)
      ensures result == if w.call.Refused? then None
                        else Some(Canceled(cmd.body.deployment, MakeCallback(
                                    cmd, "canceled", w.at, cmd.body.deployment, cmd.body.version, "")))
    {
      ghost var s := Seen(Working(cmd, Forget));
      routes.RemoveDeployment(cmd.body.deployment);
      var callback := MakeCallback(cmd, "canceled", w.at, cmd.body.deployment, cmd.body.version, "");
      var next := Call(cmd, Confirm(callback), w.call);
      ghost var t := Seen(if next.Some? then Working(cmd, next.value) else Idle);
      result := if next.Some? then Some(next.value.result) else None;
      hide Run, Called, WriteRoutes, ForgetDeployment, MakeCallback;
      if next.Some? {
        CompleteLeads(cfg, t, cmd, w, 7, result.value);
      } else {
        IdleRests(cfg, t, cmd, w, 7);
      }
      ConfirmLeads(cfg, s, cmd, w, Ended(Seen(Idle), cmd, result));
    }

    method AliasRouting(cmd: Envelope, w: World) returns (result: Option<Result>)
      requires Valid() && cmd.body.Alias?
      modifies store`aliases, routes`routes
      ensures var start := Start(cfg, old(Seen(Idle)).tables, cmd, w.at);
              Handled(cfg, old(Seen(if start.None? then Idle else Working(cmd, Link))), cmd, w, 1, Seen(Idle), result)
    {
      ghost var start := Start(cfg, Seen(Idle).tables, cmd, w.at);
      ghost var s := Seen(if start.None? then Idle else Working(cmd, Link));
      hide Run, WriteTables, WriteRoutes;
      result := routes.Apply(cmd, w.at);
      if start.None? {
        IdleRests(cfg, s, cmd, w, 1);
      } else {
        LinkLeads(cfg, s, Seen(Idle), cmd, w, result);
      }
    }

    /** Sends the stored callback again; an alias result has none. */
    method Replay(cmd: Envelope, result: Result, w: World) returns (outcome: Outcome<Result>)
      modifies this`callbacks
      ensures Leads(cfg, old(Seen(if result.Routed? then Idle else Replaying(result))), cmd, w, 1, Seen(Idle))
      ensures outcome == if w.call.Refused? && !result.Routed? then Fault("callback_unavailable", 503) else Ok(result)
    {
      ghost var s := Seen(if result.Routed? then Idle else Replaying(result));
      hide Run;
      if result.Routed? {
        IdleRests(cfg, s, cmd, w, 1);
        return Ok(result);
      }
      callbacks := callbacks + [result.callback];
      IdleRests(cfg, Seen(Idle), cmd, w, 7);
      LeadsOn(cfg, s, cmd, w, 6, Seen(Idle));
      LeadsOn(cfg, s, cmd, w, 5, Seen(Idle));
      LeadsOn(cfg, s, cmd, w, 4, Seen(Idle));
      LeadsOn(cfg, s, cmd, w, 3, Seen(Idle));
      LeadsOn(cfg, s, cmd, w, 2, Seen(Idle));
      LeadsOn(cfg, s, cmd, w, 1, Seen(Idle));
      return if w.call.Refused? then Fault("callback_unavailable", 503) else Ok(result);
    }

    method Handle(cmd: Envelope, w: World) returns (result: Option<Result>)
      requires Valid()
      modifies this`containers, this`callbacks, store`logs, store`aliases, store`revisions, routes`routes
      ensures var start := Start(cfg, old(Seen(Idle)).tables, cmd, w.at);
              Handled(cfg, old(Seen(if start.None? then Idle else Working(cmd, start.value))),
                      cmd, w, 1, Seen(Idle), result)
    {
      ghost var start := Start(cfg, Seen(Idle).tables, cmd, w.at);
      ghost var s := Seen(if start.None? then Idle else Working(cmd, start.value));
      hide Run, Handled, StartDeployment, Routable;
      assert start.None? ==> Handled(cfg, s, cmd, w, 1, s, None) by {
        if start.None? {
          IdleRests(cfg, s, cmd, w, 1);
          AsHandled(cfg, s, cmd, w, 1);
        }
      }
      match cmd.body {
        case Deployment(_, _, _, _, _, _) =>
          var task := StartDeployment(cfg, cmd, w.at);
          if task.None? {
            return None;
          }
          result := Deployment(cmd, task.value, w);
        case Cancellation(deployment, _) =>
          if deployment == "" {
            return None;
          }
          result := Cancellation(cmd, w);
        case Alias(_) => result := AliasRouting(cmd, w);
        case Unsupported => return None;
      }
    }

    /** Handles one delivery of a command, with everything the outside answers on the way. */
    method Process(cmd: Envelope, w: World) returns (outcome: Outcome<Result>)
      requires Valid()
      modifies this`containers, this`callbacks, store, routes`routes
      ensures Seen(Idle) == Run(cfg, old(Seen(Idle)), Script(cmd, w))
      ensures cmd.eventId in store.receipts
      ensures outcome ==
        if store.receipts[cmd.eventId].payload != cmd then Fault("command_conflict", 409)
        else if store.receipts[cmd.eventId].result.None? then Fault("command_incomplete", 503)
        else if w.call.Refused? && Completed(old(Seen(Idle)), cmd) && !store.receipts[cmd.eventId].result.value.Routed?
        then Fault("callback_unavailable", 503)
        else Ok(store.receipts[cmd.eventId].result.value)
      ensures w.call.Refused? && Pending(old(Seen(Idle)), cmd) && (cmd.body.Deployment? || cmd.body.Cancellation?) ==>
        outcome == Fault("command_incomplete", 503) && store.receipts[cmd.eventId] == Receipt(cmd, None)
    {
      ghost var s := Seen(Idle);
      Unaccepted(cfg, s, cmd, w);
      hide Run, Start, Script, Leads;
      var status := store.Receive(cmd);
      match status {
        case Conflict =>
          IdleRests(cfg, s, cmd, w, 1);
          DeliverLeads(cfg, s, cmd, w, s);
          return Fault("command_conflict", 409);
        case Done(result) =>
          outcome := Replay(cmd, result, w);
          DeliverLeads(cfg, s, cmd, w, Seen(Idle));
        case Processing =>
          var result := Handle(cmd, w);
          DeliverLeads(cfg, s, cmd, w, Ended(Seen(Idle), cmd, result));
          if result.None? {
            return Fault("command_incomplete", 503);
          }
          store.Complete(cmd.eventId, result.value);
          return Ok(result.value);
      }
    }
  }
}
