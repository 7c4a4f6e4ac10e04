/** What one handling of each command comes to, said of the command, the state and the answers. */
module ProviderVerdicts {
  import opened Faults
  import opened ProviderSpec
  import opened ProviderConvergence
  import opened Provider
  import Text

  /** The first delivery of a command, or a further one of a command not completed. */
  lemma Taken(cfg: Config, s: State, cmd: Envelope, at: int)
    requires Pending(s, cmd)
    ensures Receive(cfg, s, cmd, at)
            == s.(receipts := s.receipts[cmd.eventId := Receipt(cmd, None)], stage := Begin(cfg, s.tables, cmd, at))
  {
    hide Begin;
    if cmd.eventId in s.receipts {
      assert s.receipts[cmd.eventId := Receipt(cmd, None)] == s.receipts;
    }
  }

  lemma FailureEnds(cfg: Config, s: State, cmd: Envelope, w: World, i: nat)
    requires s.stage.Working? && s.stage.cmd == cmd && s.stage.task.Fail? && 1 <= i <= 4
    ensures var c := s.stage.task.callback;
            var told := s.(callbacks := s.callbacks + [c], stage := Idle);
            Leads(cfg, s, cmd, w, i, if w.call.Refused? then told
                                     else Stored(told, cmd, Failed(c.deployment, s.stage.task.code, c)))
    decreases 4 - i
  {
    var task, c := s.stage.task, s.stage.task.callback;
    var told := s.(callbacks := s.callbacks + [c], stage := Idle);
    var end := if w.call.Refused? then told else Stored(told, cmd, Failed(c.deployment, task.code, c));
    if i < 4 {
      FailureEnds(cfg, s, cmd, w, i + 1);
      hide Run;
      LeadsOn(cfg, s, cmd, w, i, end);
    } else {
      if w.call.Refused? {
        IdleRests(cfg, told, cmd, w, 7);
      } else {
        CompleteLeads(cfg, Called(s, cmd, task, w.call), cmd, w, 7, Failed(c.deployment, task.code, c));
      }
      hide Run;
      CallLeads(cfg, s, cmd, task, w, end);
    }
  }

  // Deployments

  predicate Sha256(s: string) {
    |s| == 71 && s[..7] == "sha256:" && forall i :: 7 <= i < 71 ==> s[i] in "0123456789abcdef"
  }

  /** An image the provider runs, for a web workload without configuration. */
  predicate Supported(cfg: Config, b: Body)
    requires b.Deployment?
  {
    b.source.Oci? && b.source.reference == cfg.image && b.configurationAbsent && b.workload == "web"
  }

  predicate WellFormed(b: Body)
    requires b.Deployment? && b.source.Oci?
  {
    Sha256(b.source.digest) && b.readinessPath.Some? && b.readinessPath.value != "" && b.readinessPath.value[0] == '/'
  }

  /** The deployment's container, if there is one, is the organization's and of this digest. */
  predicate Reusable(containers: map<string, Container>, cmd: Envelope)
    requires cmd.body.Deployment? && cmd.body.source.Oci?
  {
    var d := cmd.body.deployment;
    d in containers ==> containers[d].org == cmd.org && containers[d].digest == cmd.body.source.digest
  }

  /** The state once the command has its receipt, with this result. */
  function Receipted(s: State, cmd: Envelope, result: Option<Result>): State {
    s.(receipts := s.receipts[cmd.eventId := Receipt(cmd, result)])
  }

  /** A failure is reported under its code; the command is completed only if the report is accepted. */
  function FailureTold(s: State, cmd: Envelope, code: string, w: World): State
    requires cmd.body.Deployment?
  {
    var d := cmd.body.deployment;
    var c := Callback(cmd.eventId, "failed", w.at, cmd.org, cmd.resource, cmd.correlation, d, cmd.body.version, code);
    Receipted(s, cmd, if w.call.Accepted? then Some(Failed(d, code, c)) else None).(callbacks := s.callbacks + [c])
  }

  lemma StartsExactly(cfg: Config, tables: Tables, cmd: Envelope, at: int)
    requires cmd.body.Deployment?
    ensures var b, start := cmd.body, Start(cfg, tables, cmd, at);
            if !b.source.Oci? then start == Some(FailWith(cmd, "git_build_unavailable", at))
            else if b.source.reference != cfg.image then start == Some(FailWith(cmd, "oci_image_not_allowed", at))
            else if !b.configurationAbsent then start == Some(FailWith(cmd, "runtime_configuration_unavailable", at))
            else if b.workload != "web" then start == Some(FailWith(cmd, "workload_type_unsupported", at))
            else start == if WellFormed(b) then Some(Ensure) else None
  {
    hide FailWith;
    if cmd.body.source.Oci? {
      var s := cmd.body.source.digest;
      forall i | 7 <= i < |s| ensures s[i] in "0123456789abcdef" <==> '0' <= s[i] <= '9' || 'a' <= s[i] <= 'f' {
        HexDigit(s[i]);
      }
    }
  }

  lemma HexDigit(c: char)
    ensures c in "0123456789abcdef" <==> '0' <= c <= '9' || 'a' <= c <= 'f'
  {
    var digits := "0123456789abcdef";
    if '0' <= c <= '9' {
      assert digits[c as int - 48] == c;
    } else if 'a' <= c <= 'f' {
      assert digits[c as int - 87] == c;
    }
  }

  /** What cannot be run is reported as failed, under the first reason, and nothing is started. */
  lemma UnsupportedDeployment(cfg: Config, s: State, cmd: Envelope, w: World)
    requires cmd.body.Deployment? && Pending(s, cmd) && !Supported(cfg, cmd.body)
    ensures var b := cmd.body;
            Run(cfg, s, Script(cmd, w)) ==
            FailureTold(s, cmd, if !b.source.Oci? then "git_build_unavailable"
                                else if b.source.reference != cfg.image then "oci_image_not_allowed"
                                else if !b.configurationAbsent then "runtime_configuration_unavailable"
                                else "workload_type_unsupported", w)
  {
    StartsExactly(cfg, s.tables, cmd, w.at);
    Taken(cfg, s, cmd, w.at);
    var s1 := Receive(cfg, s, cmd, w.at);
    FailureEnds(cfg, s1, cmd, w, 1);
    var b := cmd.body;
    var code := if !b.source.Oci? then "git_build_unavailable"
                else if b.source.reference != cfg.image then "oci_image_not_allowed"
                else if !b.configurationAbsent then "runtime_configuration_unavailable"
                else "workload_type_unsupported";
    hide Start, Leads, WellFormed, Script, Run;
    assert s1.receipts[cmd.eventId := Receipt(cmd, Some(Failed(b.deployment, code, s1.stage.task.callback)))]
        == s.receipts[cmd.eventId := Receipt(cmd, Some(Failed(b.deployment, code, s1.stage.task.callback)))];
    DeliverLeads(cfg, s, cmd, w, FailureTold(s, cmd, code, w));
  }

  /** A digest or a path that is none stops the command without a report. */
  lemma MalformedDeployment(cfg: Config, s: State, cmd: Envelope, w: World)
    requires cmd.body.Deployment? && Pending(s, cmd) && Supported(cfg, cmd.body) && !WellFormed(cmd.body)
    ensures Run(cfg, s, Script(cmd, w)) == Receipted(s, cmd, None)
  {
    StartsExactly(cfg, s.tables, cmd, w.at);
    Taken(cfg, s, cmd, w.at);
    IdleRests(cfg, Receive(cfg, s, cmd, w.at), cmd, w, 1);
    hide Run, Start, Script;
    DeliverLeads(cfg, s, cmd, w, Receipted(s, cmd, None));
  }

  /** What a runtime that answers with a failure leaves; a container that never got ready is removed. */
  lemma FailingDeployment(cfg: Config, s: State, cmd: Envelope, w: World)
    requires cmd.body.Deployment? && Pending(s, cmd) && Supported(cfg, cmd.body) && WellFormed(cmd.body)
    requires !(w.ensure.Up? && Reusable(s.containers, cmd))
    ensures var d, wanted := cmd.body.deployment, Container(cmd.org, cmd.body.source.digest);
            Run(cfg, s, Script(cmd, w)) ==
            if w.ensure.EnsureDown? then Receipted(s, cmd, None)
            else if w.ensure.Mismatch? || !Reusable(s.containers, cmd) then FailureTold(s, cmd, "runtime_failed", w)
            else if w.removed then FailureTold(s.(containers := s.containers - {d}), cmd, "runtime_failed", w)
            else Receipted(s.(containers := s.containers[d := wanted]), cmd, None)
  {
    StartsExactly(cfg, s.tables, cmd, w.at);
    Taken(cfg, s, cmd, w.at);
    var s1 := Receive(cfg, s, cmd, w.at);
    var s2 := Ensured(s1, cmd, w.ensure, w.at);
    var d := cmd.body.deployment;
    hide Start, WellFormed, Run, Leads;
    assert s1.stage == Working(cmd, Ensure);
    assert Step(cfg, s1, EnsureReplied(w.ensure, w.at)) == s2;
    if w.ensure.EnsureDown? {
      IdleRests(cfg, s2, cmd, w, 2);
      LeadsOn(cfg, s1, cmd, w, 1, s2);
      DeliverLeads(cfg, s, cmd, w, s2);
    } else if w.ensure.Mismatch? || !Reusable(s.containers, cmd) {
      FailureEnds(cfg, s2, cmd, w, 2);
      var end := FailureTold(s, cmd, "runtime_failed", w);
      SameReceipt(s, cmd, end.receipts[cmd.eventId].result);
      LeadsOn(cfg, s1, cmd, w, 1, end);
      DeliverLeads(cfg, s, cmd, w, end);
    } else {
      NeverReady(cfg, s2, cmd, w);
      var end := if w.removed then FailureTold(s.(containers := s.containers - {d}), cmd, "runtime_failed", w)
                 else Receipted(s.(containers := s.containers[d := Wanted(cmd)]), cmd, None);
      SameReceipt(s, cmd, end.receipts[cmd.eventId].result);
      assert s.containers[d := Wanted(cmd)] - {d} == s.containers - {d};
      LeadsOn(cfg, s1, cmd, w, 1, end);
      DeliverLeads(cfg, s, cmd, w, end);
    }
  }

  lemma SameReceipt(s: State, cmd: Envelope, result: Option<Result>)
    ensures s.receipts[cmd.eventId := Receipt(cmd, None)][cmd.eventId := Receipt(cmd, result)]
            == s.receipts[cmd.eventId := Receipt(cmd, result)]
  {
  }

  lemma NeverReady(cfg: Config, s: State, cmd: Envelope, w: World)
    requires cmd.body.Deployment? && s.stage == Working(cmd, Discard)
    requires cmd.body.deployment in s.containers && s.containers[cmd.body.deployment].org == cmd.org
    requires cmd.eventId in s.receipts && s.receipts[cmd.eventId] == Receipt(cmd, None)
    ensures var left := s.(containers := s.containers - {cmd.body.deployment}, stage := Idle);
            Leads(cfg, s, cmd, w, 2, if w.removed then FailureTold(left, cmd, "runtime_failed", w)
                                     else s.(stage := Idle))
  {
    var left := s.(containers := s.containers - {cmd.body.deployment}, stage := Idle);
    var s3 := Step(cfg, s, RemoveReplied(w.removed, w.at));
    var end := if w.removed then FailureTold(left, cmd, "runtime_failed", w) else s.(stage := Idle);
    hide Run;
    if w.removed {
      FailureEnds(cfg, s3, cmd, w, 4);
      assert s.receipts[cmd.eventId := Receipt(cmd, None)] == s.receipts;
    } else {
      IdleRests(cfg, s3, cmd, w, 4);
    }
    LeadsOn(cfg, s, cmd, w, 3, end);
    LeadsOn(cfg, s, cmd, w, 2, end);
  }

  /** Some other deployment has the revision id. */
  predicate Elsewhere(revisions: map<string, RevisionRow>, d: string, revision: string) {
    exists other :: other in revisions && other != d && revisions[other].revision == revision
  }

  /**
   * A container that is up is announced, and completes the command just when the control plane
   * accepts that with the id of a revision that no other deployment has.
   */
  lemma ReadyDeployment(cfg: Config, s: State, cmd: Envelope, w: World)
    requires cmd.body.Deployment? && Pending(s, cmd) && Supported(cfg, cmd.body) && WellFormed(cmd.body)
    requires w.ensure.Up? && Reusable(s.containers, cmd)
    ensures var d, id, digest := cmd.body.deployment, w.ensure.containerId, cmd.body.source.digest;
            var c := Callback(cmd.eventId, "ready", w.at, cmd.org, cmd.resource, cmd.correlation,
                              d, cmd.body.version, digest);
            var up := s.(containers := s.containers[d := Container(cmd.org, digest)], callbacks := s.callbacks + [c]);
            Run(cfg, s, Script(cmd, w)) ==
            if w.call.Accepted? && w.call.revision.Some? && w.call.revision.value != ""
               && !Elsewhere(s.tables.revisions, d, w.call.revision.value)
            then
              var row := RevisionRow(w.call.revision.value, id, "lrail-runtime-" + d, cfg.port);
              Receipted(up, cmd, Some(Ready(d, row.revision, id, c)))
                .(tables := s.tables.(revisions := s.tables.revisions[d := row]))
            else Receipted(up, cmd, None)
  {
    StartsExactly(cfg, s.tables, cmd, w.at);
    Taken(cfg, s, cmd, w.at);
    var s1 := Receive(cfg, s, cmd, w.at);
    var s2 := Ensured(s1, cmd, w.ensure, w.at);
    hide Start, WellFormed, Run, Leads;
    assert Step(cfg, s1, EnsureReplied(w.ensure, w.at)) == s2;
    var end := Announced(cfg, s2, cmd, w);
    SameReceipt(s, cmd, end.receipts[cmd.eventId].result);
    LeadsOn(cfg, s1, cmd, w, 1, end);
    DeliverLeads(cfg, s, cmd, w, end);
  }

  lemma Announced(cfg: Config, s: State, cmd: Envelope, w: World) returns (end: State)
    requires cmd.body.Deployment? && s.stage.Working? && s.stage.cmd == cmd && s.stage.task.Announce?
    requires cmd.eventId in s.receipts && s.receipts[cmd.eventId] == Receipt(cmd, None)
    ensures var d, id, c := cmd.body.deployment, s.stage.task.containerId, s.stage.task.callback;
            var told := s.(callbacks := s.callbacks + [c], stage := Idle);
            end ==
            if w.call.Accepted? && w.call.revision.Some? && w.call.revision.value != ""
               && !Elsewhere(s.tables.revisions, d, w.call.revision.value)
            then
              var row := RevisionRow(w.call.revision.value, id, "lrail-runtime-" + d, cfg.port);
              Receipted(told, cmd, Some(Ready(d, row.revision, id, c)))
                .(tables := s.tables.(revisions := s.tables.revisions[d := row]))
            else told
    ensures Leads(cfg, s, cmd, w, 2, end)
  {
    var task := s.stage.task;
    var d, c := cmd.body.deployment, task.callback;
    var told := s.(callbacks := s.callbacks + [c], stage := Idle);
    var called := Called(s, cmd, task, w.call);
    hide Run;
    if called.stage.Idle? {
      end := told;
      IdleRests(cfg, told, cmd, w, 7);
    } else {
      var revision := w.call.revision.value;
      var row := RevisionRow(revision, task.containerId, ContainerName(d), cfg.port);
      var taken := Elsewhere(s.tables.revisions, d, revision);
      var result := if taken then None else Some(Ready(d, revision, row.containerId, c));
      var u := if taken then told else told.(tables := s.tables.(revisions := s.tables.revisions[d := row]));
      RecordLeads(cfg, called, u, cmd, w, result);
      end := Ended(u, cmd, result);
    }
    CallLeads(cfg, s, cmd, task, w, end);
    LeadsOn(cfg, s, cmd, w, 3, end);
    LeadsOn(cfg, s, cmd, w, 2, end);
  }

  // Cancellations

  /** What was read of a container of the organization, when there was one to read. */
  predicate LogsRetrieved(s: State, cmd: Envelope, w: World)
    requires cmd.body.Cancellation?
  {
    var d := cmd.body.deployment;
    w.logs.Lines? && d in s.containers && s.containers[d].org == cmd.org
  }

  /** Logs that are read have to fit, and their row has to be the organization's. */
  predicate LogsFit(s: State, cmd: Envelope, w: World)
    requires cmd.body.Cancellation?
  {
    var d := cmd.body.deployment;
    LogsRetrieved(s, cmd, w) ==>
      |w.logs.entries| <= 200 && w.logs.size <= 1_048_576 && (d in s.logs ==> s.logs[d].org == cmd.org)
  }

  /** The logs kept once a cancellation has got past reading them. */
  function LogsKept(s: State, cmd: Envelope, w: World): map<string, LogRow>
    requires cmd.body.Cancellation?
  {
    if LogsRetrieved(s, cmd, w) then
      s.logs[cmd.body.deployment := LogRow(cmd.org, w.logs.entries, w.logs.truncated)]
    else s.logs
  }

  /** The container may go: it is absent or the organization's, and the runtime removes it. */
  predicate Removable(s: State, cmd: Envelope, w: World)
    requires cmd.body.Cancellation?
  {
    var d := cmd.body.deployment;
    w.removed && (d in s.containers ==> s.containers[d].org == cmd.org)
  }

  /** A cancellation that stops early leaves everything but the logs as it was. */
  lemma StoppedCancellation(cfg: Config, s: State, cmd: Envelope, w: World)
    requires cmd.body.Cancellation? && Pending(s, cmd)
    requires cmd.body.deployment == "" || !LogsFit(s, cmd, w) || !Removable(s, cmd, w)
    ensures Run(cfg, s, Script(cmd, w)) ==
            Receipted(s, cmd, None).(logs := if cmd.body.deployment == "" || !LogsFit(s, cmd, w) then s.logs
                                             else LogsKept(s, cmd, w))
  {
    Taken(cfg, s, cmd, w.at);
    var s1 := Receive(cfg, s, cmd, w.at);
    hide Run, Script;
    if cmd.body.deployment == "" {
      IdleRests(cfg, s1, cmd, w, 1);
      DeliverLeads(cfg, s, cmd, w, s1);
    } else {
      var s2 := LogsRead(s1, cmd, w.logs);
      if !LogsFit(s, cmd, w) {
        IdleRests(cfg, s2, cmd, w, 3);
        LogsLead(cfg, s1, cmd, w, s2);
        DeliverLeads(cfg, s, cmd, w, s2);
      } else {
        var s3 := Removed(s2, cmd, w.removed, cmd.body.deployment, Forget);
        IdleRests(cfg, s3, cmd, w, 4);
        RemoveLeads(cfg, s2, cmd, w, s3);
        LogsLead(cfg, s1, cmd, w, s3);
        DeliverLeads(cfg, s, cmd, w, s3);
      }
    }
  }

  /**
   * A cancellation that gets through removes the container and the deployment's rows, writes the
   * route file, and completes the command just when its report is accepted.
   */
  lemma ThoroughCancellation(cfg: Config, s: State, cmd: Envelope, w: World)
    requires cmd.body.Cancellation? && Pending(s, cmd)
    requires cmd.body.deployment != "" && LogsFit(s, cmd, w) && Removable(s, cmd, w)
    ensures var d, t := cmd.body.deployment, Run(cfg, s, Script(cmd, w));
            var c := Callback(cmd.eventId, "canceled", w.at, cmd.org, cmd.resource, cmd.correlation,
                              d, cmd.body.version, "");
            && t.receipts == s.receipts[cmd.eventId :=
                 Receipt(cmd, if w.call.Accepted? then Some(Canceled(d, c)) else None)]
            && t.stage.Idle? && t.callbacks == s.callbacks + [c]
            && t.containers == s.containers - {d} && t.logs == LogsKept(s, cmd, w)
            && t.tables.revisions == s.tables.revisions - {d}
            && (forall a :: a in t.tables.aliases <==> a in s.tables.aliases && s.tables.aliases[a].deployment != d)
            && (forall a :: a in t.tables.aliases ==> t.tables.aliases[a] == s.tables.aliases[a])
            && t.tables.routes == Render(t.tables.aliases)
  {
    Taken(cfg, s, cmd, w.at);
    var d := cmd.body.deployment;
    var c := MakeCallback(cmd, "canceled", w.at, d, cmd.body.version, "");
    var s1 := Receive(cfg, s, cmd, w.at);
    var s2 := LogsRead(s1, cmd, w.logs);
    var s3 := Removed(s2, cmd, w.removed, d, Forget);
    assert s3 == s1.(logs := LogsKept(s, cmd, w), containers := s.containers - {d}, stage := Working(cmd, Forget));
    hide Run, Script, LogsKept, LogsFit, Removable, LogsRead, Removed, Receive, Render, Start;
    var end := Confirmed(cfg, s3, cmd, w);
    RemoveLeads(cfg, s2, cmd, w, end);
    LogsLead(cfg, s1, cmd, w, end);
    DeliverLeads(cfg, s, cmd, w, end);
    SameReceipt(s, cmd, if w.call.Accepted? then Some(Canceled(d, c)) else None);
  }

  lemma Confirmed(cfg: Config, s: State, cmd: Envelope, w: World) returns (end: State)
    requires cmd.body.Cancellation? && s.stage == Working(cmd, Forget)
    ensures var d := cmd.body.deployment;
            var c := MakeCallback(cmd, "canceled", w.at, d, cmd.body.version, "");
            var told := s.(tables := WriteRoutes(ForgetDeployment(s.tables, d)), callbacks := s.callbacks + [c],
                           stage := Idle);
            end == if w.call.Refused? then told else Stored(told, cmd, Canceled(d, c))
    ensures Leads(cfg, s, cmd, w, 4, end)
  {
    var d := cmd.body.deployment;
    var c := MakeCallback(cmd, "canceled", w.at, d, cmd.body.version, "");
    var t := s.(tables := WriteRoutes(ForgetDeployment(s.tables, d)), stage := Working(cmd, Confirm(c)));
    var called := Called(t, cmd, Confirm(c), w.call);
    hide Run, WriteRoutes, ForgetDeployment;
    if w.call.Refused? {
      end := called;
      IdleRests(cfg, called, cmd, w, 7);
    } else {
      end := Stored(called, cmd, Canceled(d, c));
      CompleteLeads(cfg, called, cmd, w, 7, Canceled(d, c));
    }
    ConfirmLeads(cfg, s, cmd, w, end);
  }

  // Aliases

  /** The host name, in lower case, is well formed and a subdomain of the provider's domain. */
  ghost predicate Hostable(cfg: Config, hostname: string) {
    var host := cfg.lower(hostname);
    cfg.validHostname(host) && exists name :: host == name + ("." + cfg.domain)
  }

  /** The command asks for a port and the current revision of a deployment that is known. */
  predicate Deployable(tables: Tables, d: AliasData) {
    && 1 <= d.port <= 65535
    && d.deployment in tables.revisions && tables.revisions[d.deployment].revision == d.revision
  }

  predicate HostInUse(aliases: map<string, AliasRow>, id: string, hostname: string) {
    exists other :: other in aliases && other != id && aliases[other].hostname == hostname
  }

  lemma EndsWithExactly(s: string, suffix: string)
    ensures Text.EndsWith(s, suffix) <==> exists name :: s == name + suffix
  {
    if Text.EndsWith(s, suffix) {
      assert s == s[..|s| - |suffix|] + suffix;
    }
  }

  /** An alias command completes just when nothing is wrong with it and no other alias has the host. */
  lemma AliasCommand(cfg: Config, s: State, cmd: Envelope, w: World)
    requires cmd.body.Alias? && Pending(s, cmd)
    ensures var t := Run(cfg, s, Script(cmd, w));
            if cmd.body.data.None? || !Hostable(cfg, cmd.body.data.value.hostname)
               || !Deployable(s.tables, cmd.body.data.value)
               || HostInUse(s.tables.aliases, cmd.body.data.value.aliasId, cfg.lower(cmd.body.data.value.hostname))
            then t == Receipted(s, cmd, None)
            else
              var d := cmd.body.data.value;
              var host := cfg.lower(d.hostname);
              var target := s.tables.revisions[d.deployment].containerName;
              var row := AliasRow(host, d.revision, d.deployment, target, d.port);
              var aliases := s.tables.aliases[d.aliasId := row];
              t == Receipted(s, cmd, Some(Routed(d.aliasId, host, d.revision)))
                     .(tables := Tables(s.tables.revisions, aliases, Render(aliases)))
  {
    Taken(cfg, s, cmd, w.at);
    var s1 := Receive(cfg, s, cmd, w.at);
    hide Run, Script, Render;
    if s1.stage.Idle? {
      IdleRests(cfg, s1, cmd, w, 1);
      DeliverLeads(cfg, s, cmd, w, s1);
    } else {
      var linked := WriteTables(cfg, s.tables, cmd, Link, w.at);
      var t := s1.(stage := Idle,
                   tables := if linked.None? then s.tables else WriteRoutes(linked.value.0));
      var result := if linked.None? then None else Some(linked.value.1.result);
      LinkLeads(cfg, s1, t, cmd, w, result);
      DeliverLeads(cfg, s, cmd, w, Ended(t, cmd, result));
      SameReceipt(s, cmd, result);
    }
    if cmd.body.data.Some? {
      EndsWithExactly(cfg.lower(cmd.body.data.value.hostname), "." + cfg.domain);
    }
  }

  /** Any other command is never completed. */
  lemma UnsupportedCommand(cfg: Config, s: State, cmd: Envelope, w: World)
    requires cmd.body.Unsupported? && Pending(s, cmd)
    ensures Run(cfg, s, Script(cmd, w)) == Receipted(s, cmd, None)
  {
    Taken(cfg, s, cmd, w.at);
    IdleRests(cfg, Receive(cfg, s, cmd, w.at), cmd, w, 1);
    hide Run, Script;
    DeliverLeads(cfg, s, cmd, w, Receipted(s, cmd, None));
  }
}
