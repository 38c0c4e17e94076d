/** `Config::validate`: whole-graph checks on a parsed `coulisse.yaml`, and what a
    validated config guarantees about routing. */
module Config {
  import opened ConfigErrors
  import opened ConfigRules
  import opened Experiments
  import opened Lex
  import opened Outcomes
  import opened Text
  import Merge
  import Router
  import Seeds

  // ---------------------------------------------------------------------
  // The validators: each walks its section, inserting names into a hash set
  // ---------------------------------------------------------------------

  method ValidateJudges(c: Config) returns (fault: Fault, names: set<string>)
    ensures fault.None? <==> JudgesOk(c)
    ensures fault.None? <==> JudgesSound(c)
    ensures fault.Some? ==> FirstJudge(c, fault)
    ensures fault.None? ==> names == ToSet(JudgeNames(c))
  {
    hide JudgesSound;
    JudgesOkIff(c);
    names := {};
    ghost var all := JudgeNames(c);
    for i := 0 to |c.judges|
      invariant names == ToSet(all[..i])
      invariant forall k | 0 <= k < i :: JudgeFault(c, k).None?
    {
      SeenNext(all, i);
      var j := c.judges[i];
      var provider := ParseProvider(j.provider);
      fault := if j.name in names then Some(DuplicateJudge(j.name))
               else if j.rubrics == {} then Some(JudgeWithoutRubrics(j.name))
               else if !InUnit(j.samplingRate) then Some(InvalidSamplingRate(j.name))
               else if provider.None? then Some(JudgeUnknownProvider(j.name))
               else if provider.value !in c.providers then Some(JudgeProviderNotConfigured(j.name))
               else None;
      assert fault == JudgeFault(c, i);
      if fault.Some? {
        return;
      }
      names := names + {j.name};
    }
    assert all[..|all|] == all;
    fault := None;
  }

  method ValidateAgents(c: Config, judgeNames: set<string>) returns (fault: Fault, names: set<string>)
    requires judgeNames == ToSet(JudgeNames(c))
    ensures fault.None? <==> AgentsOk(c)
    ensures fault.None? <==> AgentsSound(c)
    ensures fault.Some? ==> FirstAgent(c, fault)
    ensures fault.None? ==> names == ToSet(AgentNames(c))
  {
    hide AgentsSound;
    AgentsOkIff(c);
    names := {};
    ghost var all := AgentNames(c);
    for i := 0 to |c.agents|
      invariant names == ToSet(all[..i])
      invariant forall k | 0 <= k < i :: AgentFault(c, k).None?
    {
      SeenNext(all, i);
      var a := c.agents[i];
      var server, judge := FirstMissing(a.mcpServers, c.mcp.Keys), FirstMissing(a.judges, judgeNames);
      fault := if a.name in names then Some(DuplicateAgent(a.name))
               else if a.provider !in c.providers then Some(ProviderNotConfigured(a.name))
               else if server.Some? then Some(McpServerNotConfigured(a.name, server.value))
               else if judge.Some? then Some(JudgeNotConfigured(a.name, judge.value))
               else None;
      assert fault == AgentFault(c, i);
      if fault.Some? {
        return;
      }
      names := names + {a.name};
    }
    assert all[..|all|] == all;
    fault := None;
  }

  method ValidateVariants(c: Config, e: ExperimentConfig, agentNames: set<string>) returns (fault: Fault)
    requires agentNames == ToSet(AgentNames(c))
    ensures fault == VariantFault(c, e, 0)
  {
    var seen: set<string> := {};
    for k := 0 to |e.variants|
      invariant seen == set j | 0 <= j < k :: e.variants[j].agent
      invariant VariantFault(c, e, 0) == VariantFault(c, e, k)
    {
      var v := e.variants[k];
      if v.agent !in agentNames {
        return Some(ExperimentUnknownVariant(e.name, v.agent));
      }
      if v.agent in seen {
        return Some(ExperimentDuplicateVariant(e.name, v.agent));
      }
      seen := seen + {v.agent};
      if v.weight <= 0.0 {
        return Some(ExperimentInvalidWeight(e.name, v.agent));
      }
    }
    return None;
  }

  method ValidateExperiments(c: Config, agentNames: set<string>) returns (fault: Fault, names: set<string>)
    requires agentNames == ToSet(AgentNames(c))
    ensures fault.None? <==> ExperimentsOk(c)
    ensures JudgesSound(c) && AgentsSound(c) ==> (fault.None? <==> ExperimentsSound(c))
    ensures fault.Some? ==> FirstExperiment(c, fault)
    ensures fault.None? ==> names == ToSet(ExperimentNames(c))
  {
    hide JudgesSound, AgentsSound, ExperimentsSound, StrategyFault, VariantFault;
    ExperimentsOkIffGiven(c);
    names := {};
    ghost var all := ExperimentNames(c);
    for i := 0 to |c.experiments|
      invariant names == ToSet(all[..i])
      invariant forall k | 0 <= k < i :: ExperimentFault(c, k).None?
    {
      SeenNext(all, i);
      var e := c.experiments[i];
      var variants := ValidateVariants(c, e, agentNames);
      fault := if e.name in agentNames then Some(ExperimentAgentNameCollision(e.name))
               else if e.name in names then Some(ExperimentNameCollision(e.name))
               else if e.variants == [] then Some(ExperimentWithoutVariants(e.name))
               else if variants.Some? then variants
               else StrategyFault(c, e);
      assert fault == ExperimentFault(c, i);
      if fault.Some? {
        return;
      }
      names := names + {e.name};
    }
    assert all[..|all|] == all;
    fault := None;
  }

  method ValidateSmokeTests(c: Config, agentNames: set<string>, experimentNames: set<string>) returns (fault: Fault)
    requires agentNames == ToSet(AgentNames(c)) && experimentNames == ToSet(ExperimentNames(c))
    ensures fault.None? <==> SmokeTestsOk(c)
    ensures fault.None? <==> SmokeTestsSound(c)
    ensures fault.Some? ==> FirstSmokeTest(c, fault)
  {
    hide SmokeTestsSound;
    SmokeTestsOkIff(c);
    var seen: set<string> := {};
    ghost var all := SmokeNames(c);
    for i := 0 to |c.smokeTests|
      invariant seen == ToSet(all[..i])
      invariant forall k | 0 <= k < i :: SmokeFault(c, k).None?
    {
      SeenNext(all, i);
      var t := c.smokeTests[i];
      var provider := ParseProvider(t.personaProvider);
      fault := if t.name in seen then Some(DuplicateSmokeTest(t.name))
               else if t.maxTurns == 0 then Some(SmokeMaxTurnsZero(t.name))
               else if t.repetitions == 0 then Some(SmokeRepetitionsZero(t.name))
               else if provider.None? then Some(SmokePersonaUnknownProvider(t.name))
               else if provider.value !in c.providers then Some(SmokePersonaProviderNotConfigured(t.name))
               else if t.target !in agentNames && t.target !in experimentNames
               then Some(SmokeUnknownTarget(t.name, t.target))
               else None;
      assert fault == SmokeFault(c, i);
      if fault.Some? {
        return;
      }
      seen := seen + {t.name};
    }
    fault := None;
  }

  method ValidateSubagents(c: Config, agentNames: set<string>, experimentNames: set<string>) returns (fault: Fault)
    requires agentNames == ToSet(AgentNames(c)) && experimentNames == ToSet(ExperimentNames(c))
    ensures fault.None? <==> SubagentsOk(c)
    ensures fault.None? <==> SubagentsSound(c)
    ensures fault.Some? ==> FirstSubagent(c, fault)
  {
    hide SubagentsSound;
    SubagentsOkIff(c);
    for i := 0 to |c.agents|
      invariant forall k | 0 <= k < i :: SubagentFault(c, k).None?
    {
      var a := c.agents[i];
      var seen: set<string> := {};
      for k := 0 to |a.subagents|
        invariant seen == ToSet(a.subagents[..k])
        invariant SubagentListFault(c, a, 0) == SubagentListFault(c, a, k)
      {
        SeenNext(a.subagents, k);
        var s := a.subagents[k];
        fault := if s == a.name then Some(SelfSubagent(a.name))
                 else if s !in agentNames && s !in experimentNames then Some(UnknownSubagent(a.name, s))
                 else if s in seen then Some(DuplicateSubagent(a.name, s))
                 else None;
        if fault.Some? {
          assert SubagentFault(c, i) == fault;
          return;
        }
        seen := seen + {s};
      }
    }
    fault := None;
  }

  /** The webhook paths of the first `n` triggers. */
  ghost function WebhookPaths(c: Config, n: nat): set<string>
    requires n <= |c.triggers|
  {
    set j | 0 <= j < n && c.triggers[j].kind.Webhook? :: c.triggers[j].kind.path
  }

  lemma PathSeenIff(c: Config, i: nat)
    requires i < |c.triggers| && c.triggers[i].kind.Webhook?
    ensures c.triggers[i].kind.path in WebhookPaths(c, i) <==>
            exists j | 0 <= j < i :: c.triggers[j].kind == c.triggers[i].kind
  {
  }

  method ValidateTriggers(c: Config, agentNames: set<string>, experimentNames: set<string>) returns (fault: Fault)
    requires agentNames == ToSet(AgentNames(c)) && experimentNames == ToSet(ExperimentNames(c))
    ensures fault.None? <==> TriggersOk(c)
    ensures fault.None? <==> TriggersSound(c)
    ensures fault.Some? ==> TriggerReported(c, fault.value)
  {
    hide TriggersSound;
    TriggersOkIff(c);
    var seenNames: set<string>, seenPaths: set<string> := {}, {};
    ghost var all := TriggerNames(c);
    for i := 0 to |c.triggers|
      invariant seenNames == ToSet(all[..i])
      invariant seenPaths == WebhookPaths(c, i)
      invariant forall k | 0 <= k < i :: TriggerFault(c, k).None?
    {
      SeenNext(all, i);
      var t := c.triggers[i];
      fault := if t.name in seenNames then Some(DuplicateTrigger(t.name))
               else if !Templated(t) && t.agent !in agentNames && t.agent !in experimentNames
               then Some(TriggerUnknownAgent(t.name, t.agent))
               else if t.kind.Webhook? && !("/hooks/" <= t.kind.path) then Some(TriggerWebhookPathInvalid(t.name))
               else if t.kind.Webhook? && t.kind.path in seenPaths then Some(TriggerWebhookPathDuplicate(t.name))
               else None;
      if t.kind.Webhook? {
        PathSeenIff(c, i);
      }
      assert fault == TriggerFault(c, i);
      if fault.Some? {
        return;
      }
      seenNames := seenNames + {t.name};
      if t.kind.Webhook? {
        seenPaths := seenPaths + {t.kind.path};
      }
    }
    return if c.cronOk then None else Some(TriggerSchedule);
  }

  method ValidateSidecars(c: Config) returns (fault: Fault)
    ensures fault.None? <==> SidecarsOk(c)
    ensures fault.None? <==> SidecarsSound(c)
    ensures fault.Some? ==> FirstSidecar(c, fault)
  {
    SidecarsOkIff(c);
    var seen: set<string> := {};
    ghost var all := SidecarNames(c);
    for i := 0 to |c.sidecars|
      invariant seen == ToSet(all[..i])
      invariant forall k | 0 <= k < i :: SidecarFault(c, k).None?
    {
      SeenNext(all, i);
      var s := c.sidecars[i];
      fault := if IsBlank(s.command) then Some(SidecarBlankCommand(s.name))
               else if s.name in seen then Some(DuplicateSidecar(s.name))
               else None;
      assert fault == SidecarFault(c, i);
      if fault.Some? {
        return;
      }
      seen := seen + {s.name};
    }
    fault := None;
  }

  /** The servers come in the hash map's own order, so any blank field may be the one
      reported. */
  method ValidateMcpOAuth(c: Config) returns (fault: Fault)
    ensures fault.None? <==> McpOk(c)
    ensures fault.None? <==> McpSound(c)
    ensures fault.Some? ==> McpReported(c, fault.value)
  {
    McpOkIff(c);
    var rest := c.mcp.Keys;
    while rest != {}
      invariant rest <= c.mcp.Keys
      invariant forall server | server in c.mcp && server !in rest :: BlankField(c.mcp[server]).None?
      decreases rest
    {
      var server :| server in rest;
      match BlankField(c.mcp[server]) {
        case Some(field) => return Some(McpOAuthBlankField(field, server));
        case None =>
      }
      rest := rest - {server};
    }
    return None;
  }

  /** Success means the config is sound; failure reports the first fault. */
  method Validate(c: Config) returns (r: Result<(), ConfigError>)
    ensures r.Ok? <==> Sound(c)
    ensures r.Err? ==> Reported(c, r.error) && Explains(c, r.error)
  {
    r := FirstFault(c);
    if r.Err? {
      ReportedIsTrue(c, r.error);
    }
  }

  method FirstFault(c: Config) returns (r: Result<(), ConfigError>)
    ensures r.Ok? <==> Sound(c)
    ensures r.Err? ==> Reported(c, r.error)
  {
    hide McpOk, JudgesOk, AgentsOk, ExperimentsOk, SmokeTestsOk, SubagentsOk, TriggersOk, SidecarsOk;
    hide McpSound, JudgesSound, AgentsSound, ExperimentsSound, SmokeTestsSound, SubagentsSound, TriggersSound;
    hide SidecarsSound, Sound, McpReported, FirstJudge, FirstAgent, FirstExperiment, FirstSmokeTest, FirstSubagent;
    hide FirstSidecar, TriggerReported;
    ValidatedIffSound(c);
    if c.agents == [] {
      return Err(NoAgents);
    }
    if c.defaultUserId.Some? && IsBlank(c.defaultUserId.value) {
      return Err(BlankDefaultUserId);
    }
    if !c.authOk {
      return Err(Auth);
    }
    if c.defaultUserId.Some? && c.credentialIdentity {
      return Err(CredentialIdentityWithDefaultUser);
    }
    var fault := ValidateMcpOAuth(c);
    if fault.Some? { return Err(fault.value); }
    var judgeNames, agentNames, experimentNames;
    fault, judgeNames := ValidateJudges(c);
    if fault.Some? { return Err(fault.value); }
    fault, agentNames := ValidateAgents(c, judgeNames);
    if fault.Some? { return Err(fault.value); }
    fault, experimentNames := ValidateExperiments(c, agentNames);
    if fault.Some? { return Err(fault.value); }
    fault := ValidateSmokeTests(c, agentNames, experimentNames);
    if fault.Some? { return Err(fault.value); }
    fault := ValidateSubagents(c, agentNames, experimentNames);
    if fault.Some? { return Err(fault.value); }
    fault := ValidateTriggers(c, agentNames, experimentNames);
    if fault.Some? { return Err(fault.value); }
    fault := ValidateSidecars(c);
    if fault.Some? { return Err(fault.value); }
    return Ok(());
  }

  // ---------------------------------------------------------------------
  // What a validated config guarantees
  // ---------------------------------------------------------------------

  /** A declared agent with everything it needs. */
  predicate Servable(c: Config, name: string) {
    exists a :: a in c.agents && a.name == name && a.provider in c.providers
      && (forall s | s in a.mcpServers :: s in c.mcp)
      && (forall j | j in a.judges :: j in JudgeNames(c))
  }

  lemma AgentIsServable(c: Config, name: string)
    requires AgentsOk(c) && name in AgentNames(c)
    ensures Servable(c, name)
  {
    var i :| 0 <= i < |c.agents| && c.agents[i].name == name;
    assert AgentFault(c, i).None?;
    assert c.agents[i] in c.agents;
  }

  /** What routing relies on in each experiment: a non-empty list of distinct declared
      agents with positive weights, and a shadow primary among them. */
  lemma ExperimentIsRoutable(c: Config, e: ExperimentConfig)
    requires ExperimentsOk(c) && e in c.experiments
    ensures e.variants != [] && PositiveWeights(e.variants) && DistinctAgents(e.variants)
    ensures forall v | v in e.variants :: v.agent in AgentNames(c)
    ensures e.name !in AgentNames(c)
    ensures e.strategy.Shadow? ==> e.primary.Some? && exists v :: v in e.variants && v.agent == e.primary.value
  {
    var i :| 0 <= i < |c.experiments| && c.experiments[i] == e;
    assert ExperimentFault(c, i).None?;
    VariantFaultIff(c, e, 0);
  }

  /** A bandit's metric names a judge and one of its criteria, and every arm is scored
      by that judge. */
  lemma BanditIsMeasured(c: Config, e: ExperimentConfig, v: Variant)
    requires ExperimentsOk(c) && e in c.experiments && e.strategy.Bandit? && v in e.variants
    ensures e.metric.Some? && Find(e.metric.value, ".").Some?
    ensures var dot := Find(e.metric.value, ".").value;
            && (exists judge :: judge in c.judges && judge.name == e.metric.value[..dot]
                  && e.metric.value[dot + 1..] in judge.rubrics)
            && (exists a :: a in c.agents && a.name == v.agent && e.metric.value[..dot] in a.judges)
  {
    var i :| 0 <= i < |c.experiments| && c.experiments[i] == e;
    assert ExperimentFault(c, i).None?;
    var dot := Find(e.metric.value, ".").value;
    var k :| 0 <= k < |e.variants| && e.variants[k] == v;
    MetricVariantOk(c, e, e.metric.value[..dot], 0, k);
  }

  lemma {:induction false} MetricVariantOk(c: Config, e: ExperimentConfig, judge: string, from: nat, k: nat)
    requires from <= k < |e.variants| && MetricVariantFault(c, e, judge, from).None?
    ensures exists a :: a in c.agents && a.name == e.variants[k].agent && judge in a.judges
    decreases |e.variants| - from
  {
    if from < k {
      MetricVariantOk(c, e, judge, from + 1, k);
    }
  }

  /** A name the running system may be asked to route: some agent's subagent, a smoke
      test's target, or the agent of a trigger without a template. */
  predicate Referenced(c: Config, name: string) {
    || (exists a :: a in c.agents && name in a.subagents)
    || (exists t :: t in c.smokeTests && t.target == name)
    || (exists t :: t in c.triggers && !Templated(t) && t.agent == name)
  }

  lemma ReferencedIsRoutable(c: Config, name: string)
    requires Sound(c) && Referenced(c, name)
    ensures Routable(c, name)
  {
    hide Distinct, JudgesSound, ExperimentsSound, SidecarsSound, McpSound, AgentsSound;
    if a :| a in c.agents && name in a.subagents {
      assert SubagentsSound(c);
    } else if t :| t in c.smokeTests && t.target == name {
      assert SmokeTestsSound(c);
    } else {
      assert TriggersSound(c);
    }
  }

  /** Routing is total: whatever the seed and the scores, every name the config refers to
      resolves to a declared agent whose provider, judges and MCP servers all exist. */
  lemma RoutingIsTotal(c: Config, name: string, scores: seq<Router.Score>, seed: Seeds.PickSeed)
    requires Sound(c) && (Referenced(c, name) || Routable(c, name))
    ensures Servable(c, Router.ResolvedAgent(Router.ByName(c.experiments), name, scores, seed))
  {
    ValidatedIffSound(c);
    if !Routable(c, name) {
      ReferencedIsRoutable(c, name);
    }
    NameIsServed(c, name, scores, seed);
  }

  lemma NameIsServed(c: Config, name: string, scores: seq<Router.Score>, seed: Seeds.PickSeed)
    requires AgentsOk(c) && ExperimentsOk(c) && Routable(c, name)
    ensures Servable(c, Router.ResolvedAgent(Router.ByName(c.experiments), name, scores, seed))
  {
    var byName := Router.ByName(c.experiments);
    ExperimentNamesAreKeys(c, name);
    if name in byName {
      var e := byName[name];
      ExperimentIsRoutable(c, e);
      AgentIsServable(c, Router.PickVariant(e, scores, seed).value.agent);
    } else {
      AgentIsServable(c, name);
    }
  }

  lemma ExperimentNamesAreKeys(c: Config, name: string)
    ensures name in ExperimentNames(c) <==> name in Router.ByName(c.experiments)
  {
    var byName := Router.ByName(c.experiments);
    forall i | 0 <= i < |c.experiments|
      ensures c.experiments[i].name in byName
    {
      assert c.experiments[i] in c.experiments;
    }
    if name in byName {
      var i :| 0 <= i < |c.experiments| && c.experiments[i] == byName[name];
      assert ExperimentNames(c)[i] == name;
    }
  }

  /** The YAML side of the override merge. */
  function YamlEntries(c: Config, body: AgentConfig -> string): (r: seq<Merge.Entry>)
    ensures |r| == |c.agents| && forall i | 0 <= i < |r| :: r[i].name == c.agents[i].name
  {
    seq(|c.agents|, i requires 0 <= i < |c.agents| => Merge.Entry(c.agents[i].name, body(c.agents[i])))
  }

  /** A sound config meets what the merge asks of its YAML side, whatever rows override it. */
  lemma SoundAgentsMerge(c: Config, body: AgentConfig -> string, db: seq<Merge.Row>)
    requires AgentsSound(c)
    ensures Distinct(Merge.EntryNames(YamlEntries(c, body)))
    ensures Merge.RowsWellFormed(db) ==> Merge.WellFormed(YamlEntries(c, body), db)
  {
    assert Merge.EntryNames(YamlEntries(c, body)) == AgentNames(c);
  }
}
