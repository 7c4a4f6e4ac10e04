/** However often a cancellation is interrupted, completing it leaves what one clean run leaves. */
module ProviderConvergence {
  import opened Faults
  import opened ProviderSpec
  import opened ProviderReceipts

  /** The tables once the deployment's rows are deleted and the file is rewritten. */
  ghost function Final(tables: Tables, d: string): Tables {
    WriteRoutes(ForgetDeployment(tables, d))
  }

  lemma ForgetTwice(aliases: map<string, AliasRow>, d: string)
    ensures WithoutDeployment(WithoutDeployment(aliases, d), d) == WithoutDeployment(aliases, d)
  {
  }

  /** Deleting and rewriting again changes nothing more. */
  lemma EraseAgain(tables: Tables, d: string)
    ensures ForgetDeployment(ForgetDeployment(tables, d), d) == ForgetDeployment(tables, d)
    ensures ForgetDeployment(Final(tables, d), d) == Final(tables, d)
    ensures WriteRoutes(Final(tables, d)) == Final(tables, d)
  {
    ForgetTwice(tables.aliases, d);
    assert tables.revisions - {d} - {d} == tables.revisions - {d};
    hide Render, WithoutDeployment;
  }

  /** How far the tables and the containers have come from where the cancellation began. */
  ghost predicate Partway(s0: State, tables: Tables, containers: map<string, Container>, d: string) {
    && tables in {s0.tables, ForgetDeployment(s0.tables, d), Final(s0.tables, d)}
    && containers in {s0.containers, s0.containers - {d}}
  }

  /** What is done before each task of the cancellation. */
  ghost predicate TaskReached(s0: State, s: State, task: Task, d: string) {
    match task
    case ReadLogs => true
    case Remove => true
    case Forget => s.containers == s0.containers - {d}
    case Reroute =>
      s.containers == s0.containers - {d} && s.tables in {ForgetDeployment(s0.tables, d), Final(s0.tables, d)}
    case Confirm(_) => s.containers == s0.containers - {d} && s.tables == Final(s0.tables, d)
    case Complete(_) => s.containers == s0.containers - {d} && s.tables == Final(s0.tables, d)
    case _ => false
  }

  ghost predicate ReceiptReached(s0: State, s: State, cmd: Envelope)
    requires cmd.body.Cancellation?
  {
    && s.receipts - {cmd.eventId} == s0.receipts
    && (cmd.eventId in s.receipts ==>
          && s.receipts[cmd.eventId].payload == cmd
          && (s.receipts[cmd.eventId].result.Some? ==>
                s.containers == s0.containers - {cmd.body.deployment}
                && s.tables == Final(s0.tables, cmd.body.deployment)))
  }

  /** No other organization has gained the deployment's log row. */
  predicate LogsOwned(logs0: map<string, LogRow>, logs: map<string, LogRow>, d: string, org: string) {
    d in logs && logs[d].org != org ==> d in logs0 && logs0[d].org != org
  }

  ghost predicate Converging(s0: State, s: State, cmd: Envelope)
    requires cmd.body.Cancellation?
  {
    && LogsOwned(s0.logs, s.logs, cmd.body.deployment, cmd.org)
    && Partway(s0, s.tables, s.containers, cmd.body.deployment) && ReceiptReached(s0, s, cmd) && InHand(s)
    && (s.stage.Working? ==> s.stage.cmd == cmd && TaskReached(s0, s, s.stage.task, cmd.body.deployment))
  }

  predicate Begins(s0: State, cmd: Envelope) {
    cmd.body.Cancellation? && s0.stage.Idle? && cmd.eventId !in s0.receipts
  }

  lemma WriteConverges(cfg: Config, s0: State, s: State, cmd: Envelope, at: int)
    requires Begins(s0, cmd) && Converging(s0, s, cmd)
    requires s.stage.Working? && IsLocal(s.stage.task)
    ensures Converging(s0, Write(cfg, s, cmd, s.stage.task, at), cmd)
  {
    EraseAgain(s0.tables, cmd.body.deployment);
    hide ForgetDeployment, WriteRoutes, Final;
  }

  lemma ReplyConverges(cfg: Config, s0: State, s: State, cmd: Envelope, e: Event)
    requires Begins(s0, cmd) && Converging(s0, s, cmd)
    requires s.stage.Working? && !e.Local?
    ensures Converging(s0, Work(cfg, s, cmd, s.stage.task, e), cmd)
  {
    hide ForgetDeployment, WriteRoutes, Final, Write, Called, Savable, Created, Ensured, FailWith;
    assert s.containers - {cmd.body.deployment} == s0.containers - {cmd.body.deployment};
  }

  lemma WorkConverges(cfg: Config, s0: State, s: State, cmd: Envelope, e: Event)
    requires Begins(s0, cmd) && Converging(s0, s, cmd) && s.stage.Working?
    ensures Converging(s0, Work(cfg, s, cmd, s.stage.task, e), cmd)
  {
    hide Converging, Write;
    if !e.Local? {
      ReplyConverges(cfg, s0, s, cmd, e);
    } else if IsLocal(s.stage.task) {
      WriteConverges(cfg, s0, s, cmd, e.at);
    }
  }

  lemma DeliverConverges(cfg: Config, s0: State, s: State, cmd: Envelope, at: int)
    requires Begins(s0, cmd) && Converging(s0, s, cmd) && s.stage.Idle?
    ensures Converging(s0, Receive(cfg, s, cmd, at), cmd)
  {
    hide ForgetDeployment, Final, Partway;
    var t := Receive(cfg, s, cmd, at);
    assert t.receipts - {cmd.eventId} == s.receipts - {cmd.eventId};
  }

  lemma StepConverges(cfg: Config, s0: State, s: State, cmd: Envelope, e: Event)
    requires Begins(s0, cmd) && Converging(s0, s, cmd)
    requires e.Deliver? ==> e.cmd == cmd
    ensures Converging(s0, Step(cfg, s, e), cmd)
  {
    hide Partway, ForgetDeployment, Final, Receive, Work, TaskReached;
    if s.stage.Idle? && e.Deliver? {
      DeliverConverges(cfg, s0, s, cmd, e.at);
    }
    if s.stage.Working? {
      WorkConverges(cfg, s0, s, cmd, e);
    }
  }

  lemma {:induction false} RunConverges(cfg: Config, s0: State, s: State, cmd: Envelope, events: seq<Event>)
    requires Begins(s0, cmd) && Converging(s0, s, cmd)
    requires forall i :: 0 <= i < |events| ==> events[i].Deliver? ==> events[i].cmd == cmd
    ensures Converging(s0, Run(cfg, s, events), cmd)
    decreases |events|
  {
    if events != [] {
      StepConverges(cfg, s0, s, cmd, events[0]);
      hide Step, Converging;
      RunConverges(cfg, s0, Step(cfg, s, events[0]), cmd, events[1..]);
    }
  }

  /** The result of the command is stored. */
  predicate Completed(s: State, cmd: Envelope) {
    cmd.eventId in s.receipts && s.receipts[cmd.eventId].result.Some?
  }

  /**
   * Any run that only delivers one cancellation, with any crashes and failed calls: once it
   * completes, the rows are deleted, the file is written from what is left and the container
   * is gone; nothing else has changed.
   */
  lemma CancellationConverges(cfg: Config, s0: State, cmd: Envelope, events: seq<Event>)
    requires Begins(s0, cmd)
    requires forall i :: 0 <= i < |events| ==> events[i].Deliver? ==> events[i].cmd == cmd
    ensures var s := Run(cfg, s0, events);
            Completed(s, cmd) ==>
              && s.tables == Final(s0.tables, cmd.body.deployment)
              && s.containers == s0.containers - {cmd.body.deployment}
              && s.receipts - {cmd.eventId} == s0.receipts
  {
    assert s0.receipts - {cmd.eventId} == s0.receipts;
    RunConverges(cfg, s0, s0, cmd, events);
    hide Run, Final;
  }

  /** One uninterrupted handling, whatever is read of the logs: container removed, callback accepted. */
  function CleanHandling(cmd: Envelope, logs: LogsReply, at: int): seq<Event> {
    [Deliver(cmd, at), LogsReplied(logs), RemoveReplied(true, at), Local(at), Local(at),
     CallReplied(Accepted(None)), Local(at)]
  }

  lemma RunFrom(cfg: Config, s: State, events: seq<Event>, i: nat)
    requires i < |events|
    ensures Run(cfg, s, events[i..]) == Run(cfg, Step(cfg, s, events[i]), events[i + 1..])
  {
    assert events[i..][1..] == events[i + 1..] && events[i..][0] == events[i];
  }

  /** The command has not been completed, and nothing else has taken its id. */
  predicate Pending(s: State, cmd: Envelope) {
    s.stage.Idle? && (cmd.eventId in s.receipts ==> s.receipts[cmd.eventId] == Receipt(cmd, None))
  }

  /** Nothing stands in the way of the cancellation. */
  predicate Cancellable(s: State, cmd: Envelope, logs: LogsReply)
    requires cmd.body.Cancellation?
  {
    var d := cmd.body.deployment;
    && d != "" && (d in s.containers ==> s.containers[d].org == cmd.org)
    && (logs.Lines? && d in s.containers ==>
          |logs.entries| <= 200 && logs.size <= 1_048_576 && (d in s.logs ==> s.logs[d].org == cmd.org))
  }

  /**
   * An uninterrupted handling completes just when there is an id, the container is not another
   * organization's, and the logs read of it, if any, can be saved.
   */
  lemma CleanHandlingCompletes(cfg: Config, s: State, cmd: Envelope, logs: LogsReply, at: int)
    requires cmd.body.Cancellation? && Pending(s, cmd)
    ensures Completed(Run(cfg, s, CleanHandling(cmd, logs, at)), cmd) <==> Cancellable(s, cmd, logs)
  {
    var es := CleanHandling(cmd, logs, at);
    var s1 := Step(cfg, s, es[0]);
    var s2 := Step(cfg, s1, es[1]);
    var s3 := Step(cfg, s2, es[2]);
    BeginHandling(cfg, s, cmd, logs, at);
    var s4 := Step(cfg, s3, es[3]);
    var s5 := Step(cfg, s4, es[4]);
    var s6 := Step(cfg, s5, es[5]);
    var s7 := Step(cfg, s6, es[6]);
    FinishHandling(cfg, s3, cmd, at);
    hide Step, Cancellable, Completed;
    RunFrom(cfg, s, es, 0);
    RunFrom(cfg, s1, es, 1);
    RunFrom(cfg, s2, es, 2);
    RunFrom(cfg, s3, es, 3);
    RunFrom(cfg, s4, es, 4);
    RunFrom(cfg, s5, es, 5);
    RunFrom(cfg, s6, es, 6);
    assert es[0..] == es && es[7..] == [];
  }

  /** Up to the removed container nothing is completed. */
  lemma BeginHandling(cfg: Config, s: State, cmd: Envelope, logs: LogsReply, at: int)
    requires cmd.body.Cancellation? && Pending(s, cmd)
    ensures var s1 := Step(cfg, s, Deliver(cmd, at));
            var s2 := Step(cfg, s1, LogsReplied(logs));
            var s3 := Step(cfg, s2, RemoveReplied(true, at));
            && !Completed(s3, cmd)
            && s3.stage == if Cancellable(s, cmd, logs) then Working(cmd, Forget) else Idle
  {
    hide FailWith, Write, Called;
  }

  /** From the removed container on, only local writes and one callback remain. */
  lemma FinishHandling(cfg: Config, s3: State, cmd: Envelope, at: int)
    requires cmd.body.Cancellation? && !Completed(s3, cmd)
    requires s3.stage in {Idle, Working(cmd, Forget)}
    ensures var s4 := Step(cfg, s3, Local(at));
            var s5 := Step(cfg, s4, Local(at));
            var s6 := Step(cfg, s5, CallReplied(Accepted(None)));
            Completed(Step(cfg, s6, Local(at)), cmd) <==> s3.stage.Working?
  {
    hide ForgetDeployment, WriteRoutes, LogsRead, Removed, Created, Ensured, FailWith;
  }

  lemma CrashIdles(cfg: Config, s: State, events: seq<Event>)
    ensures Run(cfg, s, events + [Crash]).stage.Idle?
  {
    RunConcat(cfg, s, events, [Crash]);
    RunOfOne(cfg, Run(cfg, s, events), Crash);
  }

  /** Interruptions put nothing in the way of a cancellation. */
  lemma StillCancellable(s0: State, s: State, cmd: Envelope, logs: LogsReply)
    requires Begins(s0, cmd) && Converging(s0, s, cmd) && Cancellable(s0, cmd, logs)
    ensures Cancellable(s, cmd, logs)
  {
    hide ForgetDeployment, Final, TaskReached, ReceiptReached, InHand;
    assert s.containers in {s0.containers, s0.containers - {cmd.body.deployment}};
  }

  /** Where interruptions leave a cancellation that is about to be handled again. */
  lemma InterruptedState(cfg: Config, s0: State, cmd: Envelope, events: seq<Event>)
    requires Begins(s0, cmd)
    requires forall i :: 0 <= i < |events| ==> events[i].Deliver? ==> events[i].cmd == cmd
    ensures var t := Run(cfg, s0, events + [Crash]);
            Converging(s0, t, cmd) && (Pending(t, cmd) || Completed(t, cmd))
  {
    assert s0.receipts - {cmd.eventId} == s0.receipts;
    RunConverges(cfg, s0, s0, cmd, events + [Crash]);
    CrashIdles(cfg, s0, events);
    hide Run, Final, ForgetDeployment, TaskReached;
  }

  lemma RetryCompletes(cfg: Config, s0: State, cmd: Envelope, events: seq<Event>, logs: LogsReply, at: int)
    requires Begins(s0, cmd) && Cancellable(s0, cmd, logs)
    requires forall i :: 0 <= i < |events| ==> events[i].Deliver? ==> events[i].cmd == cmd
    ensures Completed(Run(cfg, s0, events + [Crash] + CleanHandling(cmd, logs, at)), cmd)
  {
    var again := CleanHandling(cmd, logs, at);
    var t := Run(cfg, s0, events + [Crash]);
    RunConcat(cfg, s0, events + [Crash], again);
    InterruptedState(cfg, s0, cmd, events);
    StillCancellable(s0, t, cmd, logs);
    assert InHand(t);
    hide Run, CleanHandling, Cancellable, Converging, InHand;
    if Completed(t, cmd) {
      ReceiptsOnlyAdvance(cfg, t, again);
    } else {
      CleanHandlingCompletes(cfg, t, cmd, logs, at);
    }
  }

  /**
   * Interrupted anywhere and handled again, a cancellation ends with the same rows, the same
   * route file, the same containers and the same other receipts as one clean handling, whatever
   * is read of the logs on the two occasions.
   */
  lemma InterruptedCancellationConverges(
    cfg: Config, s0: State, cmd: Envelope, events: seq<Event>, logs: LogsReply, logs': LogsReply, at: int)
    requires Begins(s0, cmd) && Cancellable(s0, cmd, logs) && Cancellable(s0, cmd, logs')
    requires forall i :: 0 <= i < |events| ==> events[i].Deliver? ==> events[i].cmd == cmd
    ensures var once := Run(cfg, s0, CleanHandling(cmd, logs, at));
            var retried := Run(cfg, s0, events + [Crash] + CleanHandling(cmd, logs', at));
            && Completed(once, cmd) && Completed(retried, cmd)
            && retried.tables == once.tables && retried.containers == once.containers
            && retried.receipts - {cmd.eventId} == once.receipts - {cmd.eventId}
  {
    var clean, again := CleanHandling(cmd, logs, at), CleanHandling(cmd, logs', at);
    assert Pending(s0, cmd);
    CleanHandlingCompletes(cfg, s0, cmd, logs, at);
    RetryCompletes(cfg, s0, cmd, events, logs', at);
    CancellationConverges(cfg, s0, cmd, clean);
    CancellationConverges(cfg, s0, cmd, events + [Crash] + again);
    hide Run, Final, CleanHandling, Cancellable, Completed;
  }
}
