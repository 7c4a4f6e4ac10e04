/** No command is completed before the control plane has accepted its callback. */
module ProviderCallbacks {
  import opened Faults
  import opened ProviderSpec
  import opened ProviderReceipts
  import opened ProviderRoutes

  /** The callback is about the command and the deployment it names. */
  predicate Addressed(cmd: Envelope, c: Callback) {
    && (cmd.body.Deployment? || cmd.body.Cancellation?)
    && c.command == cmd.eventId && c.org == cmd.org
    && c.resource == cmd.resource && c.correlation == cmd.correlation
    && c.deployment == cmd.body.deployment && c.version == cmd.body.version
  }

  predicate SaysReady(cmd: Envelope, c: Callback) {
    && Addressed(cmd, c) && cmd.body.Deployment? && cmd.body.source.Oci?
    && c.suffix == "ready" && c.detail == cmd.body.source.digest
  }

  predicate SaysFailed(cmd: Envelope, c: Callback, code: string) {
    Addressed(cmd, c) && cmd.body.Deployment? && c.suffix == "failed" && c.detail == code
  }

  predicate SaysCanceled(cmd: Envelope, c: Callback) {
    Addressed(cmd, c) && cmd.body.Cancellation? && c.suffix == "canceled" && c.detail == ""
  }

  /** At step `i` the command's callback is in hand and is accepted with this answer. */
  ghost predicate AcceptedAt(
    cfg: Config, s: State, events: seq<Event>, i: int, cmd: Envelope, c: Callback, answer: Option<string>)
  {
    && 0 <= i < |events| && events[i] == CallReplied(Accepted(answer))
    && var stage := Run(cfg, s, events[..i]).stage;
       && stage.Working? && stage.cmd == cmd
       && (stage.task.Fail? || stage.task.Announce? || stage.task.Confirm?) && stage.task.callback == c
  }

  ghost predicate WasAccepted(cfg: Config, s: State, events: seq<Event>, cmd: Envelope, c: Callback) {
    exists i, answer :: AcceptedAt(cfg, s, events, i, cmd, c, answer)
  }

  /** The revision is the answer the announcement was accepted with. */
  ghost predicate WasGiven(
    cfg: Config, s: State, events: seq<Event>, cmd: Envelope, c: Callback, revision: string)
  {
    revision != "" && exists i :: AcceptedAt(cfg, s, events, i, cmd, c, Some(revision))
  }

  /** The result tells what was reported, and the report was accepted. */
  ghost predicate Reported(cfg: Config, s: State, events: seq<Event>, cmd: Envelope, result: Result) {
    match result
    case Ready(d, revision, _, c) =>
      d == c.deployment && SaysReady(cmd, c) && WasGiven(cfg, s, events, cmd, c, revision)
    case Failed(d, code, c) =>
      d == c.deployment && SaysFailed(cmd, c, code) && WasAccepted(cfg, s, events, cmd, c)
    case Canceled(d, c) =>
      d == c.deployment && SaysCanceled(cmd, c) && WasAccepted(cfg, s, events, cmd, c)
    case Routed(_, _, _) => cmd.body.Alias?
  }

  ghost predicate TaskReported(cfg: Config, s: State, events: seq<Event>, cmd: Envelope, task: Task) {
    match task
    case Fail(code, c) => SaysFailed(cmd, c, code)
    case Announce(_, c) => SaysReady(cmd, c)
    case Record(_, revision, c) => SaysReady(cmd, c) && WasGiven(cfg, s, events, cmd, c, revision)
    case Confirm(c) => SaysCanceled(cmd, c)
    case Link => cmd.body.Alias?
    case Publish(result) => result.Routed? && cmd.body.Alias?
    case Complete(result) => Reported(cfg, s, events, cmd, result)
    case _ => true
  }

  ghost predicate AllReported(cfg: Config, s: State, events: seq<Event>, receipts: map<string, Receipt>) {
    forall id :: id in receipts && receipts[id].result.Some? ==>
      Reported(cfg, s, events, receipts[id].payload, receipts[id].result.value)
  }

  ghost predicate History(cfg: Config, s: State, events: seq<Event>, t: State) {
    && AllReported(cfg, s, events, t.receipts)
    && (t.stage.Working? ==> TaskReported(cfg, s, events, t.stage.cmd, t.stage.task))
  }

  lemma AcceptedStays(
      cfg: Config, s: State, events: seq<Event>, e: Event, cmd: Envelope, c: Callback, revision: string)
    ensures WasAccepted(cfg, s, events, cmd, c) ==> WasAccepted(cfg, s, events + [e], cmd, c)
    ensures WasGiven(cfg, s, events, cmd, c, revision) ==> WasGiven(cfg, s, events + [e], cmd, c, revision)
  {
    hide Run;
    forall i, answer | AcceptedAt(cfg, s, events, i, cmd, c, answer)
      ensures AcceptedAt(cfg, s, events + [e], i, cmd, c, answer)
    {
      assert (events + [e])[..i] == events[..i];
    }
  }

  lemma ReportedStays(cfg: Config, s: State, events: seq<Event>, e: Event, cmd: Envelope, result: Result)
    requires Reported(cfg, s, events, cmd, result)
    ensures Reported(cfg, s, events + [e], cmd, result)
  {
    hide WasAccepted, WasGiven;
    if !result.Routed? {
      AcceptedStays(cfg, s, events, e, cmd, result.callback, if result.Ready? then result.revision else "");
    }
  }

  lemma HistoryStays(cfg: Config, s: State, events: seq<Event>, e: Event, t: State)
    requires History(cfg, s, events, t)
    ensures History(cfg, s, events + [e], t)
  {
    hide Reported, WasAccepted, WasGiven, SaysReady;
    forall id | id in t.receipts && t.receipts[id].result.Some?
      ensures Reported(cfg, s, events + [e], t.receipts[id].payload, t.receipts[id].result.value)
    {
      ReportedStays(cfg, s, events, e, t.receipts[id].payload, t.receipts[id].result.value);
    }
    if t.stage.Working? {
      var cmd, task := t.stage.cmd, t.stage.task;
      match task
      case Record(_, revision, c) => AcceptedStays(cfg, s, events, e, cmd, c, revision);
      case Complete(result) => ReportedStays(cfg, s, events, e, cmd, result);
      case _ =>
    }
  }

  /** An accepted callback is what completing, or recording a revision, then goes by. */
  lemma CalledKeepsHistory(cfg: Config, s: State, events: seq<Event>, t: State, reply: CallReply)
    requires t == Run(cfg, s, events) && t.stage.Working?
    requires t.stage.task.Fail? || t.stage.task.Announce? || t.stage.task.Confirm?
    requires History(cfg, s, events, t)
    ensures History(cfg, s, events + [CallReplied(reply)], Called(t, t.stage.cmd, t.stage.task, reply))
  {
    var all := events + [CallReplied(reply)];
    HistoryStays(cfg, s, events, CallReplied(reply), t);
    hide AllReported, Run, SaysReady, SaysFailed, SaysCanceled;
    if reply.Accepted? {
      assert all[..|events|] == events;
      assert AcceptedAt(cfg, s, all, |events|, t.stage.cmd, t.stage.task.callback, reply.revision);
    }
  }

  lemma WriteKeepsHistory(cfg: Config, s: State, events: seq<Event>, t: State, at: int)
    requires t.stage.Working? && IsLocal(t.stage.task) && History(cfg, s, events, t)
    ensures History(cfg, s, events, Write(cfg, t, t.stage.cmd, t.stage.task, at))
  {
    hide WasAccepted, WasGiven, ForgetDeployment, WriteRoutes, SaveRevision, SaveAlias;
  }

  lemma ReceiveKeepsHistory(cfg: Config, s: State, events: seq<Event>, t: State, cmd: Envelope, at: int)
    requires t.stage.Idle? && History(cfg, s, events, t)
    ensures History(cfg, s, events, Receive(cfg, t, cmd, at))
  {
    StartsReported(cfg, s, events, t.tables, cmd, at);
    hide Reported, Start, TaskReported;
  }

  lemma StartsReported(cfg: Config, s: State, events: seq<Event>, tables: Tables, cmd: Envelope, at: int)
    ensures Start(cfg, tables, cmd, at).Some? ==>
            TaskReported(cfg, s, events, cmd, Start(cfg, tables, cmd, at).value)
  {
    hide Reported, IsDigest, Routable;
  }

  lemma OtherKeepsHistory(cfg: Config, s: State, events: seq<Event>, t: State, e: Event)
    requires t.stage.Working? && History(cfg, s, events, t)
    requires !e.CallReplied? && !e.Local?
    ensures History(cfg, s, events, Work(cfg, t, t.stage.cmd, t.stage.task, e))
  {
    hide AllReported, Reported, WasAccepted, WasGiven, Foreign, Savable;
  }

  lemma StepKeepsHistory(cfg: Config, s: State, events: seq<Event>, e: Event)
    requires History(cfg, s, events, Run(cfg, s, events))
    ensures History(cfg, s, events + [e], Step(cfg, Run(cfg, s, events), e))
  {
    var t := Run(cfg, s, events);
    HistoryStays(cfg, s, events, e, t);
    hide Run, AllReported, TaskReported, Receive, Write, Called, LogsRead, Removed, Created, Ensured, FailWith;
    if t.stage.Idle? {
      if e.Deliver? {
        ReceiveKeepsHistory(cfg, s, events + [e], t, e.cmd, e.at);
      }
    } else if t.stage.Working? {
      if e.CallReplied? {
        if t.stage.task.Fail? || t.stage.task.Announce? || t.stage.task.Confirm? {
          CalledKeepsHistory(cfg, s, events, t, e.call);
        }
      } else if e.Local? {
        if IsLocal(t.stage.task) {
          WriteKeepsHistory(cfg, s, events + [e], t, e.at);
        }
      } else {
        OtherKeepsHistory(cfg, s, events + [e], t, e);
      }
    }
  }

  lemma {:induction false} RunsKeepHistory(cfg: Config, s: State, events: seq<Event>)
    requires Empty(s)
    ensures History(cfg, s, events, Run(cfg, s, events))
    decreases |events|
  {
    hide AllReported, TaskReported, Step;
    if events != [] {
      var n := |events| - 1;
      RunsKeepHistory(cfg, s, events[..n]);
      StepKeepsHistory(cfg, s, events[..n], events[n]);
      assert events == events[..n] + [events[n]];
      RunConcat(cfg, s, events[..n], [events[n]]);
      RunOfOne(cfg, Run(cfg, s, events[..n]), events[n]);
    } else {
      assert AllReported(cfg, s, events, s.receipts) by { NothingReported(cfg, s, events); }
    }
  }

  lemma NothingReported(cfg: Config, s: State, events: seq<Event>)
    requires s.receipts == map[]
    ensures AllReported(cfg, s, events, s.receipts)
  {
  }

  /**
   * Over every run of a provider that starts empty, a command completed with a callback had that
   * callback accepted while it was in hand; a ready one was accepted with its revision's id.
   */
  lemma CompletedWasAccepted(cfg: Config, s: State, events: seq<Event>, id: string)
    requires Empty(s) && id in Run(cfg, s, events).receipts
    requires Run(cfg, s, events).receipts[id].result.Some?
    ensures Reported(cfg, s, events, Run(cfg, s, events).receipts[id].payload,
                     Run(cfg, s, events).receipts[id].result.value)
  {
    RunsKeepHistory(cfg, s, events);
    hide Run, Reported, TaskReported;
  }

  // Without an accepted callback

  predicate Accepting(e: Event) {
    e.CallReplied? && e.call.Accepted?
  }

  /** What is in hand can be completed without another accepted callback only if it is an alias command. */
  predicate Unanswered(stage: Stage) {
    stage.Working? ==>
      && !stage.task.Record?
      && (stage.task.Link? || stage.task.Publish? || stage.task.Complete? ==> stage.cmd.body.Alias?)
  }

  /** Apart from alias commands, nothing was completed in between. */
  predicate OnlyAliasesCompleted(before: map<string, Receipt>, after: map<string, Receipt>) {
    forall id :: id in after && after[id].result.Some? ==>
      after[id].payload.body.Alias? || (id in before && before[id] == after[id])
  }

  lemma UnansweredWrite(cfg: Config, s: State, at: int)
    requires s.stage.Working? && IsLocal(s.stage.task) && Unanswered(s.stage)
    ensures var t := Write(cfg, s, s.stage.cmd, s.stage.task, at);
            Unanswered(t.stage) && OnlyAliasesCompleted(s.receipts, t.receipts)
  {
    hide ForgetDeployment, WriteRoutes, SaveAlias, SaveRevision, MakeCallback;
  }

  lemma UnansweredDelivery(cfg: Config, s: State, cmd: Envelope, at: int)
    requires s.stage.Idle?
    ensures Unanswered(Receive(cfg, s, cmd, at).stage)
    ensures OnlyAliasesCompleted(s.receipts, Receive(cfg, s, cmd, at).receipts)
  {
    hide IsDigest, Routable, MakeCallback;
  }

  lemma UnansweredStep(cfg: Config, s: State, e: Event)
    requires Unanswered(s.stage) && !Accepting(e)
    ensures Unanswered(Step(cfg, s, e).stage) && OnlyAliasesCompleted(s.receipts, Step(cfg, s, e).receipts)
  {
    hide Receive, Write, LogsRead, Removed, Created, Ensured, FailWith;
    if s.stage.Idle? && e.Deliver? {
      UnansweredDelivery(cfg, s, e.cmd, e.at);
    } else if s.stage.Working? && e.Local? && IsLocal(s.stage.task) {
      UnansweredWrite(cfg, s, e.at);
    }
  }

  /** Without an accepted callback no run completes anything but alias commands. */
  lemma {:induction false} NothingAcceptedNothingCompleted(cfg: Config, s: State, events: seq<Event>)
    requires Unanswered(s.stage) && forall i :: 0 <= i < |events| ==> !Accepting(events[i])
    ensures OnlyAliasesCompleted(s.receipts, Run(cfg, s, events).receipts)
    decreases |events|
  {
    hide Step, Accepting, Unanswered;
    if events != [] {
      UnansweredStep(cfg, s, events[0]);
      NothingAcceptedNothingCompleted(cfg, Step(cfg, s, events[0]), events[1..]);
    }
  }
}
