/** Receipts of the local provider over whole runs, and what redelivering a command does. */
module ProviderReceipts {
  import opened Faults
  import opened ProviderSpec

  /** The command in hand is the one its receipt was taken for, and it is not completed. */
  ghost predicate InHand(s: State) {
    s.stage.Working? ==>
      s.stage.cmd.eventId in s.receipts && s.receipts[s.stage.cmd.eventId] == Receipt(s.stage.cmd, None)
  }

  /** No receipt is lost, none changes its payload, and a completed one does not change at all. */
  ghost predicate Later(before: map<string, Receipt>, after: map<string, Receipt>) {
    forall id :: id in before ==>
      && id in after && after[id].payload == before[id].payload
      && (before[id].result.Some? ==> after[id] == before[id])
  }

  lemma DeliverKeepsReceipts(cfg: Config, s: State, cmd: Envelope, at: int)
    requires s.stage.Idle?
    ensures var t := Receive(cfg, s, cmd, at); InHand(t) && Later(s.receipts, t.receipts)
  {
    hide Start;
  }

  lemma WriteKeepsReceipts(cfg: Config, s: State, cmd: Envelope, task: Task, at: int)
    requires InHand(s) && s.stage == Working(cmd, task) && IsLocal(task)
    ensures var t := Write(cfg, s, cmd, task, at); InHand(t) && Later(s.receipts, t.receipts)
  {
    hide WriteTables;
  }

  lemma StepKeepsReceipts(cfg: Config, s: State, e: Event)
    requires InHand(s)
    ensures InHand(Step(cfg, s, e)) && Later(s.receipts, Step(cfg, s, e).receipts)
  {
    hide Receive, LogsRead, Removed, Called, Write, Created, Ensured, FailWith;
    if s.stage.Idle? && e.Deliver? {
      DeliverKeepsReceipts(cfg, s, e.cmd, e.at);
    }
    if s.stage.Working? && e.Local? && IsLocal(s.stage.task) {
      WriteKeepsReceipts(cfg, s, s.stage.cmd, s.stage.task, e.at);
    }
  }

  /** Receipts only go from absent to processing to completed. */
  lemma {:induction false} ReceiptsOnlyAdvance(cfg: Config, s: State, events: seq<Event>)
    requires InHand(s)
    ensures InHand(Run(cfg, s, events)) && Later(s.receipts, Run(cfg, s, events).receipts)
    decreases |events|
  {
    if events != [] {
      StepKeepsReceipts(cfg, s, events[0]);
      hide Step;
      ReceiptsOnlyAdvance(cfg, Step(cfg, s, events[0]), events[1..]);
    }
  }

  // Redelivery

  lemma {:induction false} RunConcat(cfg: Config, s: State, a: seq<Event>, b: seq<Event>)
    ensures Run(cfg, s, a + b) == Run(cfg, Run(cfg, s, a), b)
    decreases |a|
  {
    hide Step;
    if a == [] {
      assert a + b == b;
    } else {
      assert (a + b)[0] == a[0] && (a + b)[1..] == a[1..] + b;
      RunConcat(cfg, Step(cfg, s, a[0]), a[1..], b);
    }
  }

  lemma RunOfOne(cfg: Config, s: State, e: Event)
    ensures Run(cfg, s, [e]) == Step(cfg, s, e)
  {
    hide Step;
    assert [e][1..] == [];
  }

  lemma RunOfTwo(cfg: Config, s: State, e: Event, f: Event)
    ensures Run(cfg, s, [e, f]) == Step(cfg, Step(cfg, s, e), f)
  {
    hide Step;
    assert [e, f] == [e] + [f];
    RunConcat(cfg, s, [e], [f]);
    RunOfOne(cfg, s, e);
    RunOfOne(cfg, Step(cfg, s, e), f);
  }

  /** The same state with more callbacks sent before. */
  function After(sent: seq<Callback>, s: State): State {
    s.(callbacks := sent + s.callbacks)
  }

  lemma EnsuredIgnoresSent(s: State, cmd: Envelope, reply: EnsureReply, at: int, sent: seq<Callback>)
    requires cmd.body.Deployment? && cmd.body.source.Oci?
    ensures Created(After(sent, s), cmd) == After(sent, Created(s, cmd))
    ensures Ensured(After(sent, s), cmd, reply, at) == After(sent, Ensured(s, cmd, reply, at))
  {
    hide FailWith, MakeCallback;
  }

  lemma RepliesIgnoreSent(
      s: State, cmd: Envelope, logs: LogsReply, done: bool, d: string, next: Task, sent: seq<Callback>)
    ensures cmd.body.Cancellation? ==> LogsRead(After(sent, s), cmd, logs) == After(sent, LogsRead(s, cmd, logs))
    ensures Removed(After(sent, s), cmd, done, d, next) == After(sent, Removed(s, cmd, done, d, next))
  {
    hide Foreign;
  }

  lemma CallIgnoresSent(s: State, cmd: Envelope, task: Task, reply: CallReply, sent: seq<Callback>)
    requires task.Fail? || task.Announce? || task.Confirm?
    ensures Called(After(sent, s), cmd, task, reply) == After(sent, Called(s, cmd, task, reply))
  {
    hide Answered;
    assert sent + s.callbacks + [task.callback] == sent + (s.callbacks + [task.callback]);
  }

  lemma WriteIgnoresSent(cfg: Config, s: State, cmd: Envelope, task: Task, at: int, sent: seq<Callback>)
    requires IsLocal(task)
    ensures Write(cfg, After(sent, s), cmd, task, at) == After(sent, Write(cfg, s, cmd, task, at))
  {
    hide WriteTables;
  }

  lemma WorkIgnoresSent(cfg: Config, s: State, cmd: Envelope, task: Task, e: Event, sent: seq<Callback>)
    ensures Work(cfg, After(sent, s), cmd, task, e) == After(sent, Work(cfg, s, cmd, task, e))
  {
    assert After(sent, s).(stage := Idle) == After(sent, s.(stage := Idle));
    hide After, Write, FailWith, Called, Removed, LogsRead, Ensured, Created;
    match e
    case ContainerCreated =>
      if cmd.body.Deployment? && cmd.body.source.Oci? {
        EnsuredIgnoresSent(s, cmd, EnsureDown, 0, sent);
      }
    case EnsureReplied(reply, at) =>
      if cmd.body.Deployment? && cmd.body.source.Oci? {
        EnsuredIgnoresSent(s, cmd, reply, at, sent);
      }
    case LogsReplied(reply) => RepliesIgnoreSent(s, cmd, reply, true, "", Forget, sent);
    case RemoveReplied(done, at) =>
      if cmd.body.Deployment? {
        RepliesIgnoreSent(s, cmd, NoLogs, done, cmd.body.deployment, FailWith(cmd, "runtime_failed", at), sent);
      } else if cmd.body.Cancellation? {
        RepliesIgnoreSent(s, cmd, NoLogs, done, cmd.body.deployment, Forget, sent);
      }
    case CallReplied(reply) =>
      if task.Fail? || task.Announce? || task.Confirm? {
        CallIgnoresSent(s, cmd, task, reply, sent);
      }
    case Local(at) =>
      if IsLocal(task) {
        WriteIgnoresSent(cfg, s, cmd, task, at, sent);
      }
    case _ =>
  }

  /** No step depends on the callbacks already sent. */
  lemma StepIgnoresSent(cfg: Config, s: State, e: Event, sent: seq<Callback>)
    ensures Step(cfg, After(sent, s), e) == After(sent, Step(cfg, s, e))
  {
    hide Work, Begin;
    match s.stage
    case Idle =>
    case Replaying(result) =>
      if !result.Routed? {
        assert sent + s.callbacks + [result.callback] == sent + (s.callbacks + [result.callback]);
      }
    case Working(cmd, task) => WorkIgnoresSent(cfg, s, cmd, task, e, sent);
  }

  lemma {:induction false} RunIgnoresSent(cfg: Config, s: State, events: seq<Event>, sent: seq<Callback>)
    ensures Run(cfg, After(sent, s), events) == After(sent, Run(cfg, s, events))
    decreases |events|
  {
    if events != [] {
      StepIgnoresSent(cfg, s, events[0], sent);
      hide Step;
      RunIgnoresSent(cfg, Step(cfg, s, events[0]), events[1..], sent);
    }
  }

  /** The receipt of the command holds its result. */
  predicate CompletedAs(s: State, cmd: Envelope, result: Result) {
    cmd.eventId in s.receipts && s.receipts[cmd.eventId] == Receipt(cmd, Some(result))
  }

  /** Putting extra events into a run at `t` leaves `u`, which differs from `t` by callbacks `extra`. */
  lemma Inserted(cfg: Config, s: State, before: seq<Event>, added: seq<Event>, rest: seq<Event>, extra: seq<Callback>)
    requires Run(cfg, s, before).(callbacks := Run(cfg, s, before).callbacks + extra)
             == Run(cfg, Run(cfg, s, before), added)
    ensures var t, all := Run(cfg, s, before), Run(cfg, s, before + rest);
            && t.callbacks <= all.callbacks
            && Run(cfg, s, before + added + rest)
               == all.(callbacks := t.callbacks + extra + all.callbacks[|t.callbacks|..])
  {
    var t := Run(cfg, s, before);
    var u := Run(cfg, t, added);
    var bare := t.(callbacks := []);
    RunConcat(cfg, s, before, rest);
    RunConcat(cfg, s, before, added);
    RunConcat(cfg, s, before + added, rest);
    assert t == After(t.callbacks, bare) && u == After(t.callbacks + extra, bare);
    RunIgnoresSent(cfg, bare, rest, t.callbacks);
    RunIgnoresSent(cfg, bare, rest, t.callbacks + extra);
    hide Run;
    var end := Run(cfg, bare, rest);
    var all := Run(cfg, t, rest);
    assert all.callbacks == t.callbacks + end.callbacks;
    assert all.callbacks[|t.callbacks|..] == end.callbacks;
  }

  /**
   * Redelivering a completed command anywhere in a run sends the stored callback once more and
   * changes nothing else, neither then nor later.
   */
  lemma RedeliveryIsNoOp(cfg: Config, s: State, before: seq<Event>, rest: seq<Event>,
                         cmd: Envelope, at: int, reply: CallReply, result: Result)
    requires Run(cfg, s, before).stage.Idle? && CompletedAs(Run(cfg, s, before), cmd, result)
    requires !result.Routed?
    ensures var t, all := Run(cfg, s, before), Run(cfg, s, before + rest);
            && t.callbacks <= all.callbacks
            && Run(cfg, s, before + [Deliver(cmd, at), CallReplied(reply)] + rest)
               == all.(callbacks := t.callbacks + [result.callback] + all.callbacks[|t.callbacks|..])
  {
    var t := Run(cfg, s, before);
    var added := [Deliver(cmd, at), CallReplied(reply)];
    var middle := Step(cfg, t, added[0]);
    assert middle == t.(stage := Replaying(result));
    assert Step(cfg, middle, added[1]) == t.(callbacks := t.callbacks + [result.callback]);
    hide Step;
    RunOfTwo(cfg, t, added[0], added[1]);
    Inserted(cfg, s, before, added, rest, [result.callback]);
  }

  /**
   * A delivery is ignored altogether when its id has a receipt for another payload, and when it
   * repeats a completed alias command, which has no callback.
   */
  lemma DeliveryIsIgnored(cfg: Config, s: State, before: seq<Event>, rest: seq<Event>, cmd: Envelope, at: int)
    requires Run(cfg, s, before).stage.Idle? && cmd.eventId in Run(cfg, s, before).receipts
    requires var receipt := Run(cfg, s, before).receipts[cmd.eventId];
             receipt.payload != cmd || (receipt.result.Some? && receipt.result.value.Routed?)
    ensures Run(cfg, s, before + [Deliver(cmd, at)] + rest) == Run(cfg, s, before + rest)
  {
    var t := Run(cfg, s, before);
    var added := [Deliver(cmd, at)];
    assert Step(cfg, t, added[0]) == t;
    hide Step;
    RunOfOne(cfg, t, added[0]);
    Inserted(cfg, s, before, added, rest, []);
    var all := Run(cfg, s, before + rest);
    assert t.callbacks + [] + all.callbacks[|t.callbacks|..] == all.callbacks;
  }
}
