/** What each error of `Config::validate` says about the config it refuses: the rule of its
    item that is broken, with every rule checked before it kept. */
module ConfigErrors {
  import opened ConfigRules
  import opened Experiments
  import opened Lex
  import opened Outcomes
  import opened Text

  // ---------------------------------------------------------------------
  // One rule per error
  // ---------------------------------------------------------------------

  /** The spelling of each provider. */
  predicate Spells(s: string, kind: ProviderKind) {
    s == match kind
         case Anthropic => "anthropic"
         case Cohere => "cohere"
         case Deepseek => "deepseek"
         case Gemini => "gemini"
         case Groq => "groq"
         case Openai => "openai"
  }

  ghost predicate UnknownProvider(s: string) {
    forall kind :: !Spells(s, kind)
  }

  ghost predicate UnconfiguredProvider(c: Config, s: string) {
    exists kind :: Spells(s, kind) && kind !in c.providers
  }

  predicate HeaderBreaks(c: Config, e: ConfigError) {
    match e
    case NoAgents => c.agents == []
    case BlankDefaultUserId => c.agents != [] && c.defaultUserId.Some? && IsBlank(c.defaultUserId.value)
    case Auth => c.agents != [] && !c.authOk && (c.defaultUserId.Some? ==> !IsBlank(c.defaultUserId.value))
    case CredentialIdentityWithDefaultUser =>
      c.agents != [] && c.authOk && c.credentialIdentity && c.defaultUserId.Some? && !IsBlank(c.defaultUserId.value)
    case _ => false
  }

  predicate McpBreaks(c: Config, e: ConfigError) {
    && e.McpOAuthBlankField? && e.server in c.mcp && c.mcp[e.server].Some? && c.mcp[e.server].value.Static?
    && var s := c.mcp[e.server].value;
       || (e.field == "authorization_url" && s.authorizationUrl == "")
       || (s.authorizationUrl != "" && e.field == "client_id" && s.clientId == "")
       || ("" !in {s.authorizationUrl, s.clientId} && e.field == "client_secret" && s.clientSecret == "")
       || ("" !in {s.authorizationUrl, s.clientId, s.clientSecret} && e.field == "redirect_uri" && s.redirectUri == "")
       || ("" !in {s.authorizationUrl, s.clientId, s.clientSecret, s.redirectUri}
           && e.field == "token_url" && s.tokenUrl == "")
  }

  ghost predicate JudgeBreaks(c: Config, i: nat, e: ConfigError)
    requires i < |c.judges|
  {
    var j := c.judges[i];
    var repeats := exists k | 0 <= k < i :: c.judges[k].name == j.name;
    match e
    case DuplicateJudge(name) => name == j.name && repeats
    case JudgeWithoutRubrics(name) => name == j.name && !repeats && j.rubrics == {}
    case InvalidSamplingRate(name) =>
      name == j.name && !repeats && j.rubrics != {} && (j.samplingRate < 0.0 || j.samplingRate > 1.0)
    case JudgeUnknownProvider(name) =>
      && name == j.name && !repeats && j.rubrics != {} && 0.0 <= j.samplingRate <= 1.0
      && UnknownProvider(j.provider)
    case JudgeProviderNotConfigured(name) =>
      && name == j.name && !repeats && j.rubrics != {} && 0.0 <= j.samplingRate <= 1.0
      && UnconfiguredProvider(c, j.provider)
    case _ => false
  }

  /** `x` is the first of `xs` that is not in `known`. */
  predicate IsFirstMissing(xs: seq<string>, known: set<string>, x: string) {
    exists k | 0 <= k < |xs| :: xs[k] == x && x !in known && forall l | 0 <= l < k :: xs[l] in known
  }

  ghost predicate AgentBreaks(c: Config, i: nat, e: ConfigError)
    requires i < |c.agents|
  {
    var a := c.agents[i];
    var repeats := exists k | 0 <= k < i :: c.agents[k].name == a.name;
    match e
    case DuplicateAgent(name) => name == a.name && repeats
    case ProviderNotConfigured(name) => name == a.name && !repeats && a.provider !in c.providers
    case McpServerNotConfigured(name, server) =>
      name == a.name && !repeats && a.provider in c.providers && IsFirstMissing(a.mcpServers, c.mcp.Keys, server)
    case JudgeNotConfigured(name, judge) =>
      && name == a.name && !repeats && a.provider in c.providers && (forall s | s in a.mcpServers :: s in c.mcp)
      && IsFirstMissing(a.judges, set j | j in c.judges :: j.name, judge)
    case _ => false
  }

  /** The arms before the `k`th keep every rule. */
  ghost predicate ArmsBefore(c: Config, x: ExperimentConfig, k: nat)
    requires k <= |x.variants|
  {
    forall l | 0 <= l < k ::
      && x.variants[l].weight > 0.0
      && (exists a | a in c.agents :: a.name == x.variants[l].agent)
      && forall m | 0 <= m < l :: x.variants[m].agent != x.variants[l].agent
  }

  ghost predicate ArmBreaks(c: Config, x: ExperimentConfig, k: nat, e: ConfigError)
    requires k < |x.variants|
  {
    var v := x.variants[k];
    var declared := exists a | a in c.agents :: a.name == v.agent;
    var repeats := exists l | 0 <= l < k :: x.variants[l].agent == v.agent;
    ArmsBefore(c, x, k) &&
    match e
    case ExperimentUnknownVariant(name, agent) => name == x.name && agent == v.agent && !declared
    case ExperimentDuplicateVariant(name, agent) => name == x.name && agent == v.agent && declared && repeats
    case ExperimentInvalidWeight(name, agent) =>
      name == x.name && agent == v.agent && declared && !repeats && v.weight <= 0.0
    case _ => false
  }

  /** The first field set that only shadow experiments read. */
  predicate ReadsShadow(x: ExperimentConfig, field: string) {
    || (field == "primary" && x.primary.Some?)
    || (field == "sampling_rate" && x.primary.None? && x.samplingRate.Some?)
  }

  predicate ReadsBandit(x: ExperimentConfig, field: string) {
    || (field == "metric" && x.metric.Some?)
    || (field == "epsilon" && x.metric.None? && x.epsilon.Some?)
    || (field == "min_samples" && x.metric.None? && x.epsilon.None? && x.minSamples.Some?)
    || (&& field == "bandit_window_seconds"
        && x.metric.None? && x.epsilon.None? && x.minSamples.None? && x.banditWindowSeconds.Some?)
  }

  /** `metric` reads `judge.criterion`; the first dot separates. */
  predicate Names(x: ExperimentConfig, judge: string, criterion: string) {
    '.' !in judge && x.metric == Some(judge + "." + criterion)
  }

  ghost predicate BanditBreaks(c: Config, x: ExperimentConfig, e: ConfigError) {
    match e
    case FieldStrategyMismatch(name, field) => name == x.name && ReadsShadow(x, field)
    case BanditWithoutMetric(name) => name == x.name && NoShadowFields(x) && x.metric.None?
    case MetricMalformed(name) => name == x.name && NoShadowFields(x) && x.metric.Some? && '.' !in x.metric.value
    case MetricUnknownJudge(name, judge) =>
      && name == x.name && NoShadowFields(x)
      && (exists criterion :: Names(x, judge, criterion)) && forall j | j in c.judges :: j.name != judge
    case MetricUnknownCriterion(name, criterion) =>
      && name == x.name && NoShadowFields(x)
      && exists j | j in c.judges :: Names(x, j.name, criterion) && criterion !in j.rubrics
    case MetricVariantMissingJudge(name, agent) =>
      && name == x.name && NoShadowFields(x)
      && exists j | j in c.judges :: Judged(x, j) && FirstUnscored(c, x, j.name, agent)
    case InvalidEpsilon(name) =>
      && name == x.name && NoShadowFields(x) && MetricSound(c, x)
      && x.epsilon.Some? && (x.epsilon.value < 0.0 || x.epsilon.value > 1.0)
    case _ => false
  }

  /** The metric names this judge and one of its criteria. */
  ghost predicate Judged(x: ExperimentConfig, j: JudgeConfig) {
    exists criterion | criterion in j.rubrics :: Names(x, j.name, criterion)
  }

  /** `agent` is the first arm the judge does not score. */
  ghost predicate FirstUnscored(c: Config, x: ExperimentConfig, judge: string, agent: string) {
    exists k | 0 <= k < |x.variants| ::
      && x.variants[k].agent == agent && !ScoredBy(c, agent, judge)
      && forall l | 0 <= l < k :: ScoredBy(c, x.variants[l].agent, judge)
  }

  predicate ShadowBreaks(x: ExperimentConfig, e: ConfigError) {
    match e
    case FieldStrategyMismatch(name, field) => name == x.name && ReadsBandit(x, field)
    case ShadowWithoutPrimary(name) => name == x.name && NoBanditFields(x) && x.primary.None?
    case PrimaryNotVariant(name) =>
      && name == x.name && NoBanditFields(x) && x.primary.Some?
      && forall v | v in x.variants :: v.agent != x.primary.value
    case ExperimentInvalidSamplingRate(name) =>
      && name == x.name && NoBanditFields(x)
      && x.primary.Some? && (exists v | v in x.variants :: v.agent == x.primary.value)
      && x.samplingRate.Some? && (x.samplingRate.value < 0.0 || x.samplingRate.value > 1.0)
    case _ => false
  }

  predicate SplitBreaks(x: ExperimentConfig, e: ConfigError) {
    && e.FieldStrategyMismatch? && e.name == x.name
    && (ReadsShadow(x, e.field) || (NoShadowFields(x) && ReadsBandit(x, e.field)))
  }

  ghost predicate StrategyBreaks(c: Config, x: ExperimentConfig, e: ConfigError) {
    match x.strategy
    case Bandit => BanditBreaks(c, x, e)
    case Shadow => ShadowBreaks(x, e)
    case Split => SplitBreaks(x, e)
  }

  ghost predicate ExperimentBreaks(c: Config, i: nat, e: ConfigError)
    requires i < |c.experiments|
  {
    var x := c.experiments[i];
    var agent := exists a | a in c.agents :: a.name == x.name;
    var repeats := exists k | 0 <= k < i :: c.experiments[k].name == x.name;
    || (e == ExperimentAgentNameCollision(x.name) && agent)
    || (e == ExperimentNameCollision(x.name) && !agent && repeats)
    || (e == ExperimentWithoutVariants(x.name) && !agent && !repeats && x.variants == [])
    || (!agent && !repeats && x.variants != [] && RoutingBreaks(c, x, e))
  }

  /** Arms are checked before the strategy. */
  ghost predicate RoutingBreaks(c: Config, x: ExperimentConfig, e: ConfigError) {
    || (exists k | 0 <= k < |x.variants| :: ArmBreaks(c, x, k, e))
    || (ArmsBefore(c, x, |x.variants|) && StrategyBreaks(c, x, e))
  }

  /** `name` is declared, as an agent or as an experiment. */
  predicate Declared(c: Config, name: string) {
    (exists a | a in c.agents :: a.name == name) || exists x | x in c.experiments :: x.name == name
  }

  ghost predicate SmokeBreaks(c: Config, i: nat, e: ConfigError)
    requires i < |c.smokeTests|
  {
    var t := c.smokeTests[i];
    var repeats := exists k | 0 <= k < i :: c.smokeTests[k].name == t.name;
    match e
    case DuplicateSmokeTest(name) => name == t.name && repeats
    case SmokeMaxTurnsZero(name) => name == t.name && !repeats && t.maxTurns == 0
    case SmokeRepetitionsZero(name) => name == t.name && !repeats && t.maxTurns > 0 && t.repetitions == 0
    case SmokePersonaUnknownProvider(name) =>
      name == t.name && !repeats && t.maxTurns > 0 && t.repetitions > 0 && UnknownProvider(t.personaProvider)
    case SmokePersonaProviderNotConfigured(name) =>
      name == t.name && !repeats && t.maxTurns > 0 && t.repetitions > 0 && UnconfiguredProvider(c, t.personaProvider)
    case SmokeUnknownTarget(name, target) =>
      && name == t.name && !repeats && t.maxTurns > 0 && t.repetitions > 0
      && !UnknownProvider(t.personaProvider) && !UnconfiguredProvider(c, t.personaProvider)
      && target == t.target && !Declared(c, target)
    case _ => false
  }

  /** The subagents before the `k`th keep every rule. */
  predicate SubagentsBefore(c: Config, a: AgentConfig, k: nat)
    requires k <= |a.subagents|
  {
    forall l | 0 <= l < k ::
      a.subagents[l] != a.name && Declared(c, a.subagents[l]) && a.subagents[l] !in a.subagents[..l]
  }

  predicate SubagentBreaks(c: Config, a: AgentConfig, k: nat, e: ConfigError)
    requires k < |a.subagents|
  {
    var s := a.subagents[k];
    SubagentsBefore(c, a, k) &&
    match e
    case SelfSubagent(name) => name == a.name && s == a.name
    case UnknownSubagent(name, subagent) => name == a.name && subagent == s && s != a.name && !Declared(c, s)
    case DuplicateSubagent(name, subagent) =>
      name == a.name && subagent == s && s != a.name && Declared(c, s) && s in a.subagents[..k]
    case _ => false
  }

  ghost predicate TriggerBreaks(c: Config, i: nat, e: ConfigError)
    requires i < |c.triggers|
  {
    var t := c.triggers[i];
    var repeats := exists k | 0 <= k < i :: c.triggers[k].name == t.name;
    var lost := !Contains(t.agent, "{{") && !Declared(c, t.agent);
    match e
    case DuplicateTrigger(name) => name == t.name && repeats
    case TriggerUnknownAgent(name, agent) => name == t.name && agent == t.agent && !repeats && lost
    case TriggerWebhookPathInvalid(name) =>
      name == t.name && !repeats && !lost && t.kind.Webhook? && !("/hooks/" <= t.kind.path)
    case TriggerWebhookPathDuplicate(name) =>
      && name == t.name && !repeats && !lost && t.kind.Webhook? && "/hooks/" <= t.kind.path
      && exists k | 0 <= k < i :: c.triggers[k].kind == Webhook(t.kind.path)
    case _ => false
  }

  ghost predicate SidecarBreaks(c: Config, i: nat, e: ConfigError)
    requires i < |c.sidecars|
  {
    var s := c.sidecars[i];
    match e
    case SidecarBlankCommand(name) => name == s.name && IsBlank(s.command)
    case DuplicateSidecar(name) =>
      name == s.name && !IsBlank(s.command) && exists k | 0 <= k < i :: c.sidecars[k].name == s.name
    case _ => false
  }

  /** Some item of the first section that is not sound breaks the rule `e` names. */
  ghost predicate Explains(c: Config, e: ConfigError) {
    if !HeaderSound(c) then HeaderBreaks(c, e)
    else if !McpSound(c) then McpBreaks(c, e)
    else if !JudgesSound(c) then exists i | 0 <= i < |c.judges| :: JudgeBreaks(c, i, e)
    else if !AgentsSound(c) then exists i | 0 <= i < |c.agents| :: AgentBreaks(c, i, e)
    else if !ExperimentsSound(c) then exists i | 0 <= i < |c.experiments| :: ExperimentBreaks(c, i, e)
    else if !SmokeTestsSound(c) then exists i | 0 <= i < |c.smokeTests| :: SmokeBreaks(c, i, e)
    else if !SubagentsSound(c) then
      exists a, k | a in c.agents && 0 <= k < |a.subagents| :: SubagentBreaks(c, a, k, e)
    else if !TriggersSound(c) then
      (e.TriggerSchedule? && !c.cronOk) || exists i | 0 <= i < |c.triggers| :: TriggerBreaks(c, i, e)
    else exists i | 0 <= i < |c.sidecars| :: SidecarBreaks(c, i, e)
  }

  // ---------------------------------------------------------------------
  // What is reported is so
  // ---------------------------------------------------------------------

  lemma ProvidersSpelt(c: Config, s: string)
    ensures ParseProvider(s).None? <==> UnknownProvider(s)
    ensures ParseProvider(s).Some? && ParseProvider(s).value !in c.providers <==> UnconfiguredProvider(c, s)
  {
    assert forall kind :: Spells(s, kind) <==> ParseProvider(s) == Some(kind);
    assert ParseProvider(s).Some? ==> Spells(s, ParseProvider(s).value);
  }

  /** A name repeats an earlier one exactly when an earlier item has it. */
  lemma RepeatsIff<T>(items: seq<T>, names: seq<string>, name: T -> string, i: nat)
    requires i < |items| && names == NamesBy(items, name)
    ensures names[i] in names[..i] <==> exists k | 0 <= k < i :: name(items[k]) == name(items[i])
  {
    if k :| 0 <= k < i && name(items[k]) == name(items[i]) {
      assert names[..i][k] == names[k];
    }
    if names[i] in names[..i] {
      var k :| 0 <= k < i && names[..i][k] == names[i];
      assert name(items[k]) == name(items[i]);
    }
  }

  lemma NamedIff<T(!new)>(items: seq<T>, names: seq<string>, name: T -> string, n: string)
    requires names == NamesBy(items, name)
    ensures n in names <==> exists x | x in items :: name(x) == n
  {
    if x :| x in items && name(x) == n {
      var k :| 0 <= k < |items| && items[k] == x;
      assert names[k] == n;
    }
    if n in names {
      var k :| 0 <= k < |names| && names[k] == n;
      assert items[k] in items && name(items[k]) == n;
    }
  }

  lemma AgentNamed(c: Config, n: string)
    ensures n in AgentNames(c) <==> exists a | a in c.agents :: a.name == n
  {
    NamedIff(c.agents, AgentNames(c), (a: AgentConfig) => a.name, n);
  }

  lemma DeclaredIff(c: Config, n: string)
    ensures Routable(c, n) <==> Declared(c, n)
  {
    AgentNamed(c, n);
    NamedIff(c.experiments, ExperimentNames(c), (x: ExperimentConfig) => x.name, n);
  }

  lemma {:induction false} FirstMissingIs(xs: seq<string>, known: set<string>)
    ensures FirstMissing(xs, known).Some? ==> IsFirstMissing(xs, known, FirstMissing(xs, known).value)
  {
    if xs != [] && xs[0] in known && FirstMissing(xs, known).Some? {
      FirstMissingIs(xs[1..], known);
      var x := FirstMissing(xs, known).value;
      var k :| 0 <= k < |xs[1..]| && xs[1..][k] == x && x !in known && forall l | 0 <= l < k :: xs[1..][l] in known;
      forall l | 0 <= l < k + 1 ensures xs[l] in known {
        assert l > 0 ==> xs[1..][l - 1] == xs[l];
      }
      assert xs[k + 1] == x;
    }
  }

  lemma JudgeFaultMeans(c: Config, i: nat, e: ConfigError)
    requires i < |c.judges| && JudgeFault(c, i) == Some(e)
    ensures JudgeBreaks(c, i, e)
  {
    hide UnknownProvider, UnconfiguredProvider;
    RepeatsIff(c.judges, JudgeNames(c), (j: JudgeConfig) => j.name, i);
    ProvidersSpelt(c, c.judges[i].provider);
  }

  lemma AgentFaultMeans(c: Config, i: nat, e: ConfigError)
    requires i < |c.agents| && AgentFault(c, i) == Some(e)
    ensures AgentBreaks(c, i, e)
  {
    var a, judges := c.agents[i], set j | j in c.judges :: j.name;
    RepeatsIff(c.agents, AgentNames(c), (a: AgentConfig) => a.name, i);
    FirstMissingIs(a.mcpServers, c.mcp.Keys);
    assert ToSet(JudgeNames(c)) == judges by {
      forall n ensures n in JudgeNames(c) <==> n in judges {
        NamedIff(c.judges, JudgeNames(c), (j: JudgeConfig) => j.name, n);
      }
    }
    FirstMissingIs(a.judges, judges);
  }

  lemma ArmFits(c: Config, x: ExperimentConfig, k: nat)
    requires k < |x.variants| && ArmsBefore(c, x, k) && x.variants[k].weight > 0.0
    requires (exists a | a in c.agents :: a.name == x.variants[k].agent)
    requires forall j | 0 <= j < k :: x.variants[j].agent != x.variants[k].agent
    ensures ArmsBefore(c, x, k + 1)
  {
  }

  lemma {:induction false} VariantFaultMeans(c: Config, x: ExperimentConfig, k: nat)
    requires k <= |x.variants| && ArmsBefore(c, x, k)
    ensures var fault := VariantFault(c, x, k);
            if fault.Some? then exists l | k <= l < |x.variants| :: ArmBreaks(c, x, l, fault.value)
            else ArmsBefore(c, x, |x.variants|)
    decreases |x.variants| - k
  {
    hide ArmsBefore;
    if k < |x.variants| {
      var v := x.variants[k];
      AgentNamed(c, v.agent);
      if v.weight > 0.0 && v.agent in AgentNames(c) && !exists j | 0 <= j < k :: x.variants[j].agent == v.agent {
        ArmFits(c, x, k);
        VariantFaultMeans(c, x, k + 1);
      } else {
        assert ArmBreaks(c, x, k, VariantFault(c, x, k).value);
      }
    }
  }

  lemma {:induction false} MetricVariantFaultMeans(
      c: Config, x: ExperimentConfig, judge: string, k: nat, e: ConfigError)
    requires Distinct(AgentNames(c)) && ArmsBefore(c, x, |x.variants|)
    requires k <= |x.variants| && MetricVariantFault(c, x, judge, k) == Some(e)
    requires forall l | 0 <= l < k :: ScoredBy(c, x.variants[l].agent, judge)
    ensures e.MetricVariantMissingJudge? && e.name == x.name && FirstUnscored(c, x, judge, e.agent)
    decreases |x.variants| - k
  {
    hide ArmsBefore, ScoredBy;
    if k < |x.variants| {
      ScoredByIff(c, x.variants[k].agent, judge);
      ArmDeclared(c, x, k);
      if ScoredBy(c, x.variants[k].agent, judge) {
        MetricVariantFaultMeans(c, x, judge, k + 1, e);
      }
    }
  }

  lemma ArmDeclared(c: Config, x: ExperimentConfig, k: nat)
    requires ArmsBefore(c, x, |x.variants|) && k < |x.variants|
    ensures exists a | a in c.agents :: a.name == x.variants[k].agent
  {
    assert x.variants[k].weight > 0.0;
  }

  lemma BanditFaultMeans(c: Config, x: ExperimentConfig, e: ConfigError)
    requires Distinct(AgentNames(c)) && Distinct(JudgeNames(c)) && ArmsBefore(c, x, |x.variants|)
    requires BanditFault(c, x) == Some(e)
    ensures BanditBreaks(c, x, e)
  {
    hide ArmsBefore, FirstUnscored, ScoredBy, MetricSound, MetricVariantFault, Find, FindJudge, Judged, InUnit;
    if NoShadowFields(x) && x.metric.Some? {
      var metric := x.metric.value;
      if Find(metric, ".").None? {
        NoDot(metric);
      } else {
        var dot := Find(metric, ".").value;
        var found := FindJudge(c.judges, metric[..dot]);
        DotSplits(metric, dot);
        assert Names(x, metric[..dot], metric[dot + 1..]);
        if found.Some? && metric[dot + 1..] in found.value.rubrics {
          JudgedFaultMeans(c, x, found.value, metric[dot + 1..], e);
        }
      }
    }
  }

  /** The last checks of a bandit whose metric names `judge` and one of its criteria. */
  lemma JudgedFaultMeans(c: Config, x: ExperimentConfig, judge: JudgeConfig, criterion: string, e: ConfigError)
    requires Distinct(AgentNames(c)) && ArmsBefore(c, x, |x.variants|) && NoShadowFields(x)
    requires judge in c.judges && criterion in judge.rubrics && Names(x, judge.name, criterion)
    requires var fault := MetricVariantFault(c, x, judge.name, 0);
             || fault == Some(e)
             || (fault.None? && e == InvalidEpsilon(x.name) && x.epsilon.Some? && !InUnit(x.epsilon.value))
    ensures BanditBreaks(c, x, e)
  {
    hide ArmsBefore, FirstUnscored, ScoredBy;
    assert Judged(x, judge);
    if MetricVariantFault(c, x, judge.name, 0) == Some(e) {
      MetricVariantFaultMeans(c, x, judge.name, 0, e);
    } else {
      MetricVariantFaultIff(c, x, judge.name, 0);
      assert MetricSound(c, x) by {
        forall v | v in x.variants ensures ScoredBy(c, v.agent, judge.name) {
          var l :| 0 <= l < |x.variants| && x.variants[l] == v;
        }
      }
    }
  }

  lemma NoDot(metric: string)
    requires Find(metric, ".").None?
    ensures '.' !in metric
  {
    FindIsFirst(metric, ".");
    forall k | 0 <= k < |metric| ensures metric[k] != '.' {
      assert !At(metric, k, ".") && metric[k..k + 1] == [metric[k]];
    }
  }

  lemma ExperimentFaultMeans(c: Config, i: nat, e: ConfigError)
    requires Distinct(AgentNames(c)) && Distinct(JudgeNames(c))
    requires i < |c.experiments| && ExperimentFault(c, i) == Some(e)
    ensures ExperimentBreaks(c, i, e)
  {
    hide RoutingBreaks, StrategyFault, VariantFault;
    var x := c.experiments[i];
    RepeatsIff(c.experiments, ExperimentNames(c), (x: ExperimentConfig) => x.name, i);
    AgentNamed(c, x.name);
    if VariantFault(c, x, 0) == Some(e) || (VariantFault(c, x, 0).None? && StrategyFault(c, x) == Some(e)) {
      RoutingFaultMeans(c, x, e);
    }
  }

  lemma RoutingFaultMeans(c: Config, x: ExperimentConfig, e: ConfigError)
    requires Distinct(AgentNames(c)) && Distinct(JudgeNames(c))
    requires var fault := VariantFault(c, x, 0);
             fault == Some(e) || (fault.None? && StrategyFault(c, x) == Some(e))
    ensures RoutingBreaks(c, x, e)
  {
    hide ArmsBefore, ArmBreaks, BanditBreaks, BanditFault, VariantFault;
    NoArms(c, x);
    VariantFaultMeans(c, x, 0);
    if VariantFault(c, x, 0).None? && x.strategy.Bandit? {
      BanditFaultMeans(c, x, e);
    }
  }

  lemma NoArms(c: Config, x: ExperimentConfig)
    ensures ArmsBefore(c, x, 0)
  {
  }

  lemma SmokeFaultMeans(c: Config, i: nat, e: ConfigError)
    requires i < |c.smokeTests| && SmokeFault(c, i) == Some(e)
    ensures SmokeBreaks(c, i, e)
  {
    hide UnknownProvider, UnconfiguredProvider, Declared, Routable;
    RepeatsIff(c.smokeTests, SmokeNames(c), (t: SmokeTest) => t.name, i);
    ProvidersSpelt(c, c.smokeTests[i].personaProvider);
    DeclaredIff(c, c.smokeTests[i].target);
  }

  lemma {:induction false} SubagentFaultMeans(c: Config, a: AgentConfig, k: nat, e: ConfigError)
    requires k <= |a.subagents| && SubagentListFault(c, a, k) == Some(e) && SubagentsBefore(c, a, k)
    ensures exists l | k <= l < |a.subagents| :: SubagentBreaks(c, a, l, e)
    decreases |a.subagents| - k
  {
    if k < |a.subagents| {
      var s := a.subagents[k];
      DeclaredIff(c, s);
      if s != a.name && Declared(c, s) && s !in a.subagents[..k] {
        SubagentFaultMeans(c, a, k + 1, e);
      } else {
        assert SubagentBreaks(c, a, k, e);
      }
    }
  }

  lemma TriggerFaultMeans(c: Config, i: nat, e: ConfigError)
    requires i < |c.triggers| && TriggerFault(c, i) == Some(e)
    ensures TriggerBreaks(c, i, e)
  {
    hide Declared, Routable, Contains;
    RepeatsIff(c.triggers, TriggerNames(c), (t: Trigger) => t.name, i);
    DeclaredIff(c, c.triggers[i].agent);
  }

  lemma SidecarFaultMeans(c: Config, i: nat, e: ConfigError)
    requires i < |c.sidecars| && SidecarFault(c, i) == Some(e)
    ensures SidecarBreaks(c, i, e)
  {
    RepeatsIff(c.sidecars, SidecarNames(c), (s: Sidecar) => s.name, i);
  }

  lemma ReportedJudge(c: Config, e: ConfigError)
    requires FirstJudge(c, Some(e))
    ensures exists i | 0 <= i < |c.judges| :: JudgeBreaks(c, i, e)
  {
    hide JudgeBreaks, JudgeFault;
    var i :| 0 <= i < |c.judges| && JudgeFault(c, i) == Some(e);
    JudgeFaultMeans(c, i, e);
  }

  lemma ReportedExperiment(c: Config, e: ConfigError)
    requires Distinct(AgentNames(c)) && Distinct(JudgeNames(c))
    requires FirstExperiment(c, Some(e))
    ensures exists i | 0 <= i < |c.experiments| :: ExperimentBreaks(c, i, e)
  {
    hide ExperimentBreaks, ExperimentFault;
    var i :| 0 <= i < |c.experiments| && ExperimentFault(c, i) == Some(e);
    ExperimentFaultMeans(c, i, e);
  }

  lemma ReportedSmoke(c: Config, e: ConfigError)
    requires FirstSmokeTest(c, Some(e))
    ensures exists i | 0 <= i < |c.smokeTests| :: SmokeBreaks(c, i, e)
  {
    hide SmokeBreaks, SmokeFault;
    var i :| 0 <= i < |c.smokeTests| && SmokeFault(c, i) == Some(e);
    SmokeFaultMeans(c, i, e);
  }

  lemma ReportedAgent(c: Config, e: ConfigError)
    requires FirstAgent(c, Some(e))
    ensures exists i | 0 <= i < |c.agents| :: AgentBreaks(c, i, e)
  {
    hide AgentBreaks, AgentFault;
    var i :| 0 <= i < |c.agents| && AgentFault(c, i) == Some(e);
    AgentFaultMeans(c, i, e);
  }

  lemma ReportedTrigger(c: Config, e: ConfigError)
    requires FirstTrigger(c, Some(e))
    ensures exists i | 0 <= i < |c.triggers| :: TriggerBreaks(c, i, e)
  {
    hide TriggerBreaks, TriggerFault;
    var i :| 0 <= i < |c.triggers| && TriggerFault(c, i) == Some(e);
    TriggerFaultMeans(c, i, e);
  }

  lemma ReportedSidecar(c: Config, e: ConfigError)
    requires FirstSidecar(c, Some(e))
    ensures exists i | 0 <= i < |c.sidecars| :: SidecarBreaks(c, i, e)
  {
    hide SidecarBreaks, SidecarFault;
    var i :| 0 <= i < |c.sidecars| && SidecarFault(c, i) == Some(e);
    SidecarFaultMeans(c, i, e);
  }

  lemma ReportedSubagent(c: Config, e: ConfigError)
    requires FirstSubagent(c, Some(e))
    ensures exists a, k | a in c.agents && 0 <= k < |a.subagents| :: SubagentBreaks(c, a, k, e)
  {
    hide SubagentBreaks, SubagentListFault;
    var i :| 0 <= i < |c.agents| && SubagentFault(c, i) == Some(e);
    SubagentFaultMeans(c, c.agents[i], 0, e);
    assert c.agents[i] in c.agents;
  }

  /** Whatever is reported is a rule the config breaks, the earlier rules being kept. */
  lemma ReportedIsTrue(c: Config, e: ConfigError)
    requires Reported(c, e) && !Sound(c)
    ensures Explains(c, e)
  {
    hide McpOk, JudgesOk, AgentsOk, ExperimentsOk, SmokeTestsOk, SubagentsOk, SidecarsOk;
    hide McpSound, JudgesSound, AgentsSound, ExperimentsSound, SmokeTestsSound, SubagentsSound, TriggersSound;
    hide SidecarsSound;
    hide JudgeBreaks, AgentBreaks, ExperimentBreaks, SmokeBreaks, SubagentBreaks, TriggerBreaks, SidecarBreaks;
    hide FirstJudge, FirstAgent, FirstExperiment, FirstSmokeTest, FirstSubagent, FirstTrigger, FirstSidecar;
    SectionsAgree(c);
    if !HeaderSound(c) || !McpSound(c) {
    } else if !JudgesSound(c) {
      ReportedJudge(c, e);
    } else if !AgentsSound(c) {
      ReportedAgent(c, e);
    } else if !ExperimentsSound(c) {
      NamesDistinct(c);
      ReportedExperiment(c, e);
    } else if !SmokeTestsSound(c) {
      ReportedSmoke(c, e);
    } else if !SubagentsSound(c) {
      ReportedSubagent(c, e);
    } else if !TriggersSound(c) {
      ReportedTriggers(c, e);
    } else {
      ReportedSidecar(c, e);
    }
  }

  lemma ReportedTriggers(c: Config, e: ConfigError)
    requires TriggerReported(c, e) && !TriggersSound(c)
    ensures (e.TriggerSchedule? && !c.cronOk) || exists i | 0 <= i < |c.triggers| :: TriggerBreaks(c, i, e)
  {
    hide TriggersSound, TriggerBreaks, TriggerFault, FirstTrigger;
    TriggersOkIff(c);
    if !forall i | 0 <= i < |c.triggers| :: TriggerFault(c, i).None? {
      ReportedTrigger(c, e);
    }
  }

  lemma NamesDistinct(c: Config)
    requires JudgesSound(c) && AgentsSound(c)
    ensures Distinct(AgentNames(c)) && Distinct(JudgeNames(c))
  {
  }

  lemma SectionsAgree(c: Config)
    ensures McpOk(c) == McpSound(c) && JudgesOk(c) == JudgesSound(c) && AgentsOk(c) == AgentsSound(c)
    ensures JudgesSound(c) && AgentsSound(c) ==> ExperimentsOk(c) == ExperimentsSound(c)
    ensures SmokeTestsOk(c) == SmokeTestsSound(c) && SubagentsOk(c) == SubagentsSound(c)
    ensures TriggersOk(c) == TriggersSound(c) && SidecarsOk(c) == SidecarsSound(c)
  {
    hide McpOk, JudgesOk, AgentsOk, ExperimentsOk, SmokeTestsOk, SubagentsOk, TriggersOk, SidecarsOk;
    hide McpSound, JudgesSound, AgentsSound, ExperimentsSound, SmokeTestsSound, SubagentsSound, TriggersSound;
    hide SidecarsSound;
    McpOkIff(c);
    JudgesOkIff(c);
    AgentsOkIff(c);
    ExperimentsOkIffGiven(c);
    SmokeTestsOkIff(c);
    SubagentsOkIff(c);
    TriggersOkIff(c);
    SidecarsOkIff(c);
  }
}
