/** The route file against the alias table. */
module ProviderRoutes {
  import opened Faults
  import opened Ordering
  import opened Keys
  import opened ProviderSpec
  import opened ProviderRuns

  // Routers and alias rows

  /** Exactly one router per alias row, pointing at that row's container and port. */
  ghost predicate RoutesMatch(routes: map<string, Route>, aliases: map<string, AliasRow>) {
    && (forall a :: a in aliases ==>
          && ServiceName(a) in routes
          && routes[ServiceName(a)] == Route(aliases[a].hostname, aliases[a].containerName, aliases[a].port))
    && (forall n :: n in routes ==> exists a :: a in aliases && ServiceName(a) == n)
  }

  ghost predicate NamesDiffer(aliases: map<string, AliasRow>) {
    forall a, b :: a in aliases && b in aliases && a != b ==> ServiceName(a) != ServiceName(b)
  }

  lemma {:induction false} RenderRowsExact(ids: seq<string>, aliases: map<string, AliasRow>)
    requires forall id :: id in ids ==> id in aliases
    requires StrictlySorted(ids, Same) && NamesDiffer(aliases)
    ensures var routes := RenderRows(ids, aliases);
            && (forall a :: a in ids ==> ServiceName(a) in routes && routes[ServiceName(a)] == RouteOf(aliases[a]))
            && (forall n :: n in routes ==> exists a :: a in ids && ServiceName(a) == n)
  {
    hide ServiceName;
    if ids != [] {
      var n := |ids| - 1;
      RenderRowsExact(ids[..n], aliases);
      forall a | a in ids[..n] ensures a != ids[n] {
        var i :| 0 <= i < n && ids[i] == a;
        assert Less(ids[i], ids[n]);
        LessIrreflexive(a);
      }
      assert ids == ids[..n] + [ids[n]];
    }
  }

  /**
   * The written file has one router per alias row, on that row's host name and target, just when
   * no two alias ids are equal once their dashes are dropped: one router cannot have two host
   * names.
   */
  lemma RenderExact(aliases: map<string, AliasRow>)
    requires DistinctHostnames(aliases)
    ensures RoutesMatch(Render(aliases), aliases) <==> NamesDiffer(aliases)
  {
    hide ServiceName;
    if NamesDiffer(aliases) {
      RenderRowsExact(Listed(aliases.Keys), aliases);
    }
  }

  lemma {:induction false} StripConcat(a: string, b: string)
    ensures StripDashes(a + b) == StripDashes(a) + StripDashes(b)
  {
    if a == "" {
      assert a + b == b;
    } else {
      assert (a + b)[1..] == a[1..] + b;
      StripConcat(a[1..], b);
    }
  }

  lemma {:induction false} StripPlain(s: string)
    requires '-' !in s
    ensures StripDashes(s) == s
  {
    if s != "" {
      StripPlain(s[1..]);
    }
  }

  lemma StripNextDash(s: string, i: nat, j: nat)
    requires i <= j < |s| && s[j] == '-' && forall k :: i <= k < j ==> s[k] != '-'
    ensures StripDashes(s[i..]) == s[i..j] + StripDashes(s[j + 1..])
  {
    assert s[i..] == s[i..j] + s[j..];
    assert s[j..][1..] == s[j + 1..];
    StripConcat(s[i..j], s[j..]);
    StripPlain(s[i..j]);
  }

  /** A UUID loses its four dashes and nothing else. */
  lemma StripUuid(u: string)
    requires IsUuid(u)
    ensures StripDashes(u) == u[..8] + (u[9..13] + (u[14..18] + (u[19..23] + u[24..])))
  {
    forall i | 0 <= i < 36 ensures u[i] == '-' <==> i == 8 || i == 13 || i == 18 || i == 23 {
      assert HexOrDash(u, i);
    }
    hide HexOrDash, StripDashes;
    StripNextDash(u, 0, 8);
    StripNextDash(u, 9, 13);
    StripNextDash(u, 14, 18);
    StripNextDash(u, 19, 23);
    StripPlain(u[24..]);
    assert u[0..] == u && u[0..8] == u[..8];
  }

  /** A UUID is determined by what is left without its dashes. */
  lemma UuidFromStripped(a: string, b: string, x: string)
    requires IsUuid(a) && IsUuid(b)
    requires a[..8] + (a[9..13] + (a[14..18] + (a[19..23] + a[24..]))) == x
    requires b[..8] + (b[9..13] + (b[14..18] + (b[19..23] + b[24..]))) == x
    ensures a == b
  {
    hide HexOrDash;
    forall i | 0 <= i < 36 ensures a[i] == b[i] {
      var dashes := if i < 8 then 0 else if i < 13 then 1 else if i < 18 then 2 else if i < 23 then 3 else 4;
      if i == 8 || i == 13 || i == 18 || i == 23 {
        DashAt(a, i);
        DashAt(b, i);
      } else {
        assert a[i] == x[i - dashes] && b[i] == x[i - dashes];
      }
    }
  }

  lemma DashAt(u: string, i: int)
    requires IsUuid(u) && (i == 8 || i == 13 || i == 18 || i == 23)
    ensures u[i] == '-'
  {
    assert HexOrDash(u, i);
  }

  /** Canonical UUIDs never collide as service names. */
  lemma UuidNamesDiffer(a: string, b: string)
    requires IsUuid(a) && IsUuid(b) && ServiceName(a) == ServiceName(b)
    ensures a == b
  {
    var x, y := StripDashes(a), StripDashes(b);
    assert ServiceName(a)[12..] == x && ServiceName(b)[12..] == y;
    hide ServiceName, IsUuid;
    StripUuid(a);
    StripUuid(b);
    UuidFromStripped(a, b, x);
  }

  /** Two ids that only differ in dashes do share a router. */
  lemma DashedIdsCollide(aliases: map<string, AliasRow>)
    requires "ab" in aliases && "a-b" in aliases && DistinctHostnames(aliases)
    ensures !RoutesMatch(Render(aliases), aliases)
  {
    assert StripDashes("ab") == "ab" by { StripPlain("ab"); }
    assert StripDashes("a-b") == "ab" by {
      StripConcat("a", "-b");
      StripConcat("-", "b");
      assert "a-b" == "a" + "-b" && "-b" == "-" + "b";
    }
    RenderExact(aliases);
  }

  // Over runs

  /** A command that names an alias names it by a canonical UUID. */
  predicate NamesByUuid(cmd: Envelope) {
    cmd.body.Alias? && cmd.body.data.Some? ==> IsUuid(cmd.body.data.value.aliasId)
  }

  predicate ByUuid(e: Event) {
    e.Deliver? ==> NamesByUuid(e.cmd)
  }

  ghost predicate UuidKeys(aliases: map<string, AliasRow>) {
    forall id :: id in aliases ==> IsUuid(id)
  }

  ghost predicate UuidIds(s: State) {
    UuidKeys(s.tables.aliases) && (s.stage.Working? ==> NamesByUuid(s.stage.cmd))
  }

  lemma WriteKeepsUuids(cfg: Config, s: State, cmd: Envelope, task: Task, at: int)
    requires UuidIds(s) && s.stage == Working(cmd, task) && IsLocal(task)
    ensures UuidIds(Write(cfg, s, cmd, task, at))
  {
    hide IsUuid, Render, RevisionTaken, HostnameTaken, ContainerName, MakeCallback;
  }

  lemma StepKeepsUuids(cfg: Config, s: State, e: Event)
    requires UuidIds(s) && ByUuid(e)
    ensures UuidIds(Step(cfg, s, e))
  {
    hide UuidKeys, IsUuid, Start, LogsRead, Removed, Called, Write, Created, Ensured, FailWith;
    if s.stage.Working? && e.Local? && IsLocal(s.stage.task) {
      WriteKeepsUuids(cfg, s, s.stage.cmd, s.stage.task, e.at);
    }
  }

  lemma {:induction false} RunsKeepUuids(cfg: Config, s: State, events: seq<Event>)
    requires UuidIds(s) && forall i :: 0 <= i < |events| ==> ByUuid(events[i])
    ensures UuidIds(Run(cfg, s, events))
    decreases |events|
  {
    hide ByUuid, UuidIds, Step;
    if events != [] {
      StepKeepsUuids(cfg, s, events[0]);
      RunsKeepUuids(cfg, Step(cfg, s, events[0]), events[1..]);
    }
  }

  lemma UuidRoutesMatch(tables: Tables)
    requires UuidKeys(tables.aliases) && DistinctHostnames(tables.aliases) && Fresh(tables)
    ensures RoutesMatch(tables.routes, tables.aliases)
  {
    hide Render, ServiceName, IsUuid, RoutesMatch;
    assert NamesDiffer(tables.aliases) by {
      forall a, b | a in tables.aliases && b in tables.aliases && ServiceName(a) == ServiceName(b) ensures a == b {
        UuidNamesDiffer(a, b);
      }
    }
    RenderExact(tables.aliases);
  }

  /** Completing stores the result and nothing else. */
  lemma CompleteStores(cfg: Config, t: State, at: int)
    requires t.stage.Working? && t.stage.task.Complete?
    ensures Step(cfg, t, Local(at)) ==
            t.(receipts := t.receipts[t.stage.cmd.eventId := Receipt(t.stage.cmd, Some(t.stage.task.result))],
               stage := Idle)
  {
  }

  /** The command's alias is routed to its deployment's container and its port. */
  predicate RoutedAsAsked(routes: map<string, Route>, cmd: Envelope, result: Result)
    requires result.Routed?
  {
    && cmd.body.Alias? && cmd.body.data.Some?
    && var d := cmd.body.data.value;
       && ServiceName(d.aliasId) in routes
       && routes[ServiceName(d.aliasId)] == Route(result.hostname, ContainerName(d.deployment), d.port)
  }

  lemma LinkedIsRouted(tables: Tables, cmd: Envelope, result: Result)
    requires result.Routed? && Linked(tables.aliases, cmd, result)
    requires Anchored(tables.aliases, tables.revisions) && RoutesMatch(tables.routes, tables.aliases)
    ensures RoutedAsAsked(tables.routes, cmd, result)
  {
    hide ServiceName, ContainerName, NamesDiffer;
  }

  ghost predicate EndsRouting(t: State) {
    && t.stage.Working? && t.stage.task.Complete?
    && (t.stage.task.result.Routed? || t.stage.task.result.Canceled?)
  }

  /**
   * Whatever happened before, the write that completes an alias or a cancellation command leaves
   * one router per alias row, each on its row's container and port, and no others.
   */
  lemma RoutesAgree(cfg: Config, s: State, events: seq<Event>, at: int)
    requires Inv(s) && UuidIds(s) && forall i :: 0 <= i < |events| ==> ByUuid(events[i])
    requires EndsRouting(Run(cfg, s, events))
    ensures var t := Run(cfg, s, events);
            var u := Step(cfg, t, Local(at));
            && u.receipts == t.receipts[t.stage.cmd.eventId := Receipt(t.stage.cmd, Some(t.stage.task.result))]
            && u.stage.Idle?
            && TablesInv(u.tables.aliases, u.tables.revisions)
            && RoutesMatch(u.tables.routes, u.tables.aliases)
            && (t.stage.task.result.Routed? ==> RoutedAsAsked(u.tables.routes, t.stage.cmd, t.stage.task.result))
  {
    RunsKeepInv(cfg, s, events);
    RunsKeepUuids(cfg, s, events);
    var t := Run(cfg, s, events);
    CompleteStores(cfg, t, at);
    hide Render, RoutesMatch, RoutedAsAsked, UuidKeys, Run, Step, ByUuid;
    hide Forgotten, Anchored, DistinctRevisions, DistinctHostnames;
    assert Achieved(t.tables, t.containers, t.stage.cmd, t.stage.task.result);
    UuidRoutesMatch(t.tables);
    if t.stage.task.result.Routed? {
      LinkedIsRouted(t.tables, t.stage.cmd, t.stage.task.result);
    }
  }

  /** The state of a provider that has just been set up. */
  ghost predicate Empty(s: State) {
    s.receipts == map[] && s.tables == Tables(map[], map[], map[]) && s.stage.Idle?
  }

  lemma EmptyKeepsAll(s: State)
    requires Empty(s)
    ensures Inv(s) && UuidIds(s)
  {
  }
}
