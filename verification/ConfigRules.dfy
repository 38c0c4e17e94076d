/** The rules of `coulisse.yaml`: what each section's checks report, one item at a time, and
    what a sound config is, all at once. */
module ConfigRules {
  import opened Outcomes
  import opened Experiments
  import opened Lex
  import opened Text

  datatype ProviderKind = Anthropic | Cohere | Deepseek | Gemini | Groq | Openai

  function ParseProvider(s: string): Option<ProviderKind> {
    match s
    case "anthropic" => Some(Anthropic)
    case "cohere" => Some(Cohere)
    case "deepseek" => Some(Deepseek)
    case "gemini" => Some(Gemini)
    case "groq" => Some(Groq)
    case "openai" => Some(Openai)
    case _ => None
  }

  datatype AgentConfig = AgentConfig(
    name: string, provider: ProviderKind, judges: seq<string>, mcpServers: seq<string>, subagents: seq<string>)
  datatype JudgeConfig = JudgeConfig(name: string, provider: string, rubrics: set<string>, samplingRate: real)
  datatype SmokeTest = SmokeTest(name: string, maxTurns: nat, repetitions: nat, personaProvider: string, target: string)
  datatype TriggerKind = Boot | Cron(schedule: string) | Webhook(path: string)
  datatype Trigger = Trigger(name: string, agent: string, kind: TriggerKind)
  datatype Sidecar = Sidecar(name: string, command: string)
  datatype McpOAuth =
    | Discover
    | Static(authorizationUrl: string, clientId: string, clientSecret: string, redirectUri: string, tokenUrl: string)

  /** `authOk` and `cronOk` are the verdicts of the auth and trigger crates on their own
      sections; `credentialIdentity` says proxy users come from the credential. */
  datatype Config = Config(
    agents: seq<AgentConfig>, experiments: seq<ExperimentConfig>, judges: seq<JudgeConfig>,
    mcp: map<string, Option<McpOAuth>>, providers: set<ProviderKind>,
    smokeTests: seq<SmokeTest>, triggers: seq<Trigger>, sidecars: seq<Sidecar>,
    defaultUserId: Option<string>, authOk: bool, credentialIdentity: bool, cronOk: bool)

  datatype ConfigError =
    | NoAgents | BlankDefaultUserId | Auth | CredentialIdentityWithDefaultUser | TriggerSchedule
    | McpOAuthBlankField(field: string, server: string)
    | DuplicateJudge(name: string) | JudgeWithoutRubrics(name: string) | InvalidSamplingRate(name: string)
    | JudgeUnknownProvider(name: string) | JudgeProviderNotConfigured(name: string)
    | DuplicateAgent(name: string) | ProviderNotConfigured(name: string)
    | McpServerNotConfigured(name: string, server: string) | JudgeNotConfigured(name: string, judge: string)
    | ExperimentAgentNameCollision(name: string) | ExperimentNameCollision(name: string)
    | ExperimentWithoutVariants(name: string)
    | ExperimentUnknownVariant(name: string, agent: string) | ExperimentDuplicateVariant(name: string, agent: string)
    | ExperimentInvalidWeight(name: string, agent: string)
    | FieldStrategyMismatch(name: string, field: string)
    | BanditWithoutMetric(name: string) | MetricMalformed(name: string)
    | MetricUnknownJudge(name: string, judge: string) | MetricUnknownCriterion(name: string, criterion: string)
    | MetricVariantMissingJudge(name: string, agent: string) | InvalidEpsilon(name: string)
    | ShadowWithoutPrimary(name: string) | PrimaryNotVariant(name: string) | ExperimentInvalidSamplingRate(name: string)
    | DuplicateSmokeTest(name: string) | SmokeMaxTurnsZero(name: string) | SmokeRepetitionsZero(name: string)
    | SmokePersonaUnknownProvider(name: string) | SmokePersonaProviderNotConfigured(name: string)
    | SmokeUnknownTarget(name: string, target: string)
    | SelfSubagent(name: string) | UnknownSubagent(name: string, subagent: string)
    | DuplicateSubagent(name: string, subagent: string)
    | DuplicateTrigger(name: string) | TriggerUnknownAgent(name: string, agent: string)
    | TriggerWebhookPathInvalid(name: string) | TriggerWebhookPathDuplicate(name: string)
    | SidecarBlankCommand(name: string) | DuplicateSidecar(name: string)

  type Fault = Option<ConfigError>

  // ---------------------------------------------------------------------
  // Names
  // ---------------------------------------------------------------------

  function AgentNames(c: Config): seq<string> { NamesBy(c.agents, (a: AgentConfig) => a.name) }
  function ExperimentNames(c: Config): seq<string> { NamesBy(c.experiments, (e: ExperimentConfig) => e.name) }
  function JudgeNames(c: Config): seq<string> { NamesBy(c.judges, (j: JudgeConfig) => j.name) }
  function SmokeNames(c: Config): seq<string> { NamesBy(c.smokeTests, (t: SmokeTest) => t.name) }
  function TriggerNames(c: Config): seq<string> { NamesBy(c.triggers, (t: Trigger) => t.name) }
  function SidecarNames(c: Config): seq<string> { NamesBy(c.sidecars, (s: Sidecar) => s.name) }

  /** An agent or an experiment: anything a name may route to. */
  predicate Routable(c: Config, name: string) {
    name in AgentNames(c) || name in ExperimentNames(c)
  }

  /** The first of `xs` not in `known`. */
  function FirstMissing(xs: seq<string>, known: set<string>): (r: Option<string>)
    ensures r.None? <==> forall x | x in xs :: x in known
    ensures r.Some? ==> r.value in xs && r.value !in known
  {
    if xs == [] then None else if xs[0] !in known then Some(xs[0]) else FirstMissing(xs[1..], known)
  }

  predicate InUnit(r: real) { 0.0 <= r <= 1.0 }

  // ---------------------------------------------------------------------
  // The checks, item by item, in the order they are made
  // ---------------------------------------------------------------------

  function JudgeFault(c: Config, i: nat): Fault
    requires i < |c.judges|
  {
    var j := c.judges[i];
    if j.name in JudgeNames(c)[..i] then Some(DuplicateJudge(j.name))
    else if j.rubrics == {} then Some(JudgeWithoutRubrics(j.name))
    else if !InUnit(j.samplingRate) then Some(InvalidSamplingRate(j.name))
    else if ParseProvider(j.provider).None? then Some(JudgeUnknownProvider(j.name))
    else if ParseProvider(j.provider).value !in c.providers then Some(JudgeProviderNotConfigured(j.name))
    else None
  }

  function AgentFault(c: Config, i: nat): Fault
    requires i < |c.agents|
  {
    var a := c.agents[i];
    if a.name in AgentNames(c)[..i] then Some(DuplicateAgent(a.name))
    else if a.provider !in c.providers then Some(ProviderNotConfigured(a.name))
    else
      match FirstMissing(a.mcpServers, c.mcp.Keys)
      case Some(server) => Some(McpServerNotConfigured(a.name, server))
      case None =>
        match FirstMissing(a.judges, ToSet(JudgeNames(c)))
        case Some(judge) => Some(JudgeNotConfigured(a.name, judge))
        case None => None
  }

  function VariantFault(c: Config, e: ExperimentConfig, k: nat): Fault
    requires k <= |e.variants|
    decreases |e.variants| - k
  {
    if k == |e.variants| then None
    else
      var v := e.variants[k];
      if v.agent !in AgentNames(c) then Some(ExperimentUnknownVariant(e.name, v.agent))
      else if exists j | 0 <= j < k :: e.variants[j].agent == v.agent
      then Some(ExperimentDuplicateVariant(e.name, v.agent))
      else if v.weight <= 0.0 then Some(ExperimentInvalidWeight(e.name, v.agent))
      else VariantFault(c, e, k + 1)
  }

  /** The first field of another strategy that is set. */
  function ShadowOnlyField(e: ExperimentConfig): Option<string> {
    if e.primary.Some? then Some("primary") else if e.samplingRate.Some? then Some("sampling_rate") else None
  }

  function BanditOnlyField(e: ExperimentConfig): Option<string> {
    if e.metric.Some? then Some("metric")
    else if e.epsilon.Some? then Some("epsilon")
    else if e.minSamples.Some? then Some("min_samples")
    else if e.banditWindowSeconds.Some? then Some("bandit_window_seconds")
    else None
  }

  function FindJudge(judges: seq<JudgeConfig>, name: string): (r: Option<JudgeConfig>)
    ensures r.Some? ==> r.value in judges && r.value.name == name
    ensures r.None? ==> forall j | j in judges :: j.name != name
  {
    if judges == [] then None else if judges[0].name == name then Some(judges[0]) else FindJudge(judges[1..], name)
  }

  function FindAgent(agents: seq<AgentConfig>, name: string): (r: Option<AgentConfig>)
    ensures r.Some? ==> r.value in agents && r.value.name == name
    ensures r.None? ==> forall a | a in agents :: a.name != name
  {
    if agents == [] then None else if agents[0].name == name then Some(agents[0]) else FindAgent(agents[1..], name)
  }

  function MetricVariantFault(c: Config, e: ExperimentConfig, judge: string, k: nat): Fault
    requires k <= |e.variants|
    decreases |e.variants| - k
  {
    if k == |e.variants| then None
    else
      match FindAgent(c.agents, e.variants[k].agent)
      case None => Some(ExperimentUnknownVariant(e.name, e.variants[k].agent))
      case Some(a) =>
        if judge !in a.judges then Some(MetricVariantMissingJudge(e.name, a.name))
        else MetricVariantFault(c, e, judge, k + 1)
  }

  function BanditFault(c: Config, e: ExperimentConfig): Fault {
    if ShadowOnlyField(e).Some? then Some(FieldStrategyMismatch(e.name, ShadowOnlyField(e).value))
    else if e.metric.None? then Some(BanditWithoutMetric(e.name))
    else
      var metric := e.metric.value;
      match Find(metric, ".")
      case None => Some(MetricMalformed(e.name))
      case Some(dot) =>
        var judgeName, criterion := metric[..dot], metric[dot + 1..];
        match FindJudge(c.judges, judgeName)
        case None => Some(MetricUnknownJudge(e.name, judgeName))
        case Some(judge) =>
          if criterion !in judge.rubrics then Some(MetricUnknownCriterion(e.name, criterion))
          else
            match MetricVariantFault(c, e, judgeName, 0)
            case Some(fault) => Some(fault)
            case None => if e.epsilon.Some? && !InUnit(e.epsilon.value) then Some(InvalidEpsilon(e.name)) else None
  }

  function ShadowFault(e: ExperimentConfig): Fault {
    if BanditOnlyField(e).Some? then Some(FieldStrategyMismatch(e.name, BanditOnlyField(e).value))
    else if e.primary.None? then Some(ShadowWithoutPrimary(e.name))
    else if forall v | v in e.variants :: v.agent != e.primary.value then Some(PrimaryNotVariant(e.name))
    else if e.samplingRate.Some? && !InUnit(e.samplingRate.value) then Some(ExperimentInvalidSamplingRate(e.name))
    else None
  }

  function SplitFault(e: ExperimentConfig): Fault {
    if ShadowOnlyField(e).Some? then Some(FieldStrategyMismatch(e.name, ShadowOnlyField(e).value))
    else if BanditOnlyField(e).Some? then Some(FieldStrategyMismatch(e.name, BanditOnlyField(e).value))
    else None
  }

  function StrategyFault(c: Config, e: ExperimentConfig): Fault {
    match e.strategy
    case Bandit => BanditFault(c, e)
    case Shadow => ShadowFault(e)
    case Split => SplitFault(e)
  }

  function ExperimentFault(c: Config, i: nat): Fault
    requires i < |c.experiments|
  {
    var e := c.experiments[i];
    if e.name in AgentNames(c) then Some(ExperimentAgentNameCollision(e.name))
    else if e.name in ExperimentNames(c)[..i] then Some(ExperimentNameCollision(e.name))
    else if e.variants == [] then Some(ExperimentWithoutVariants(e.name))
    else if VariantFault(c, e, 0).Some? then VariantFault(c, e, 0)
    else StrategyFault(c, e)
  }

  function SmokeFault(c: Config, i: nat): Fault
    requires i < |c.smokeTests|
  {
    var t := c.smokeTests[i];
    if t.name in SmokeNames(c)[..i] then Some(DuplicateSmokeTest(t.name))
    else if t.maxTurns == 0 then Some(SmokeMaxTurnsZero(t.name))
    else if t.repetitions == 0 then Some(SmokeRepetitionsZero(t.name))
    else if ParseProvider(t.personaProvider).None? then Some(SmokePersonaUnknownProvider(t.name))
    else if ParseProvider(t.personaProvider).value !in c.providers then Some(SmokePersonaProviderNotConfigured(t.name))
    else if !Routable(c, t.target) then Some(SmokeUnknownTarget(t.name, t.target))
    else None
  }

  function SubagentListFault(c: Config, a: AgentConfig, k: nat): Fault
    requires k <= |a.subagents|
    decreases |a.subagents| - k
  {
    if k == |a.subagents| then None
    else
      var s := a.subagents[k];
      if s == a.name then Some(SelfSubagent(a.name))
      else if !Routable(c, s) then Some(UnknownSubagent(a.name, s))
      else if s in a.subagents[..k] then Some(DuplicateSubagent(a.name, s))
      else SubagentListFault(c, a, k + 1)
  }

  function SubagentFault(c: Config, i: nat): Fault
    requires i < |c.agents|
  {
    SubagentListFault(c, c.agents[i], 0)
  }

  /** A template's target is only known when its webhook fires. */
  predicate Templated(t: Trigger) {
    Contains(t.agent, "{{")
  }

  function TriggerFault(c: Config, i: nat): Fault
    requires i < |c.triggers|
  {
    var t := c.triggers[i];
    if t.name in TriggerNames(c)[..i] then Some(DuplicateTrigger(t.name))
    else if !Templated(t) && !Routable(c, t.agent) then Some(TriggerUnknownAgent(t.name, t.agent))
    else if !t.kind.Webhook? then None
    else if !("/hooks/" <= t.kind.path) then Some(TriggerWebhookPathInvalid(t.name))
    else if exists j | 0 <= j < i :: c.triggers[j].kind == t.kind then Some(TriggerWebhookPathDuplicate(t.name))
    else None
  }

  function SidecarFault(c: Config, i: nat): Fault
    requires i < |c.sidecars|
  {
    var s := c.sidecars[i];
    if IsBlank(s.command) then Some(SidecarBlankCommand(s.name))
    else if s.name in SidecarNames(c)[..i] then Some(DuplicateSidecar(s.name))
    else None
  }

  function BlankField(oauth: Option<McpOAuth>): Option<string> {
    match oauth
    case None => None
    case Some(Discover) => None
    case Some(Static(authorizationUrl, clientId, clientSecret, redirectUri, tokenUrl)) =>
      if authorizationUrl == "" then Some("authorization_url")
      else if clientId == "" then Some("client_id")
      else if clientSecret == "" then Some("client_secret")
      else if redirectUri == "" then Some("redirect_uri")
      else if tokenUrl == "" then Some("token_url")
      else None
  }

  // ---------------------------------------------------------------------
  // What success means
  // ---------------------------------------------------------------------

  predicate JudgesOk(c: Config) { forall i | 0 <= i < |c.judges| :: JudgeFault(c, i).None? }
  predicate AgentsOk(c: Config) { forall i | 0 <= i < |c.agents| :: AgentFault(c, i).None? }
  predicate ExperimentsOk(c: Config) { forall i | 0 <= i < |c.experiments| :: ExperimentFault(c, i).None? }
  predicate SmokeTestsOk(c: Config) { forall i | 0 <= i < |c.smokeTests| :: SmokeFault(c, i).None? }
  predicate SubagentsOk(c: Config) { forall i | 0 <= i < |c.agents| :: SubagentFault(c, i).None? }
  predicate TriggersOk(c: Config) { c.cronOk && forall i | 0 <= i < |c.triggers| :: TriggerFault(c, i).None? }
  predicate SidecarsOk(c: Config) { forall i | 0 <= i < |c.sidecars| :: SidecarFault(c, i).None? }
  predicate McpOk(c: Config) { forall server | server in c.mcp :: BlankField(c.mcp[server]).None? }

  function HeaderFault(c: Config): Fault {
    if c.agents == [] then Some(NoAgents)
    else if c.defaultUserId.Some? && IsBlank(c.defaultUserId.value) then Some(BlankDefaultUserId)
    else if !c.authOk then Some(Auth)
    else if c.defaultUserId.Some? && c.credentialIdentity then Some(CredentialIdentityWithDefaultUser)
    else None
  }

  predicate Validated(c: Config) {
    && HeaderFault(c).None? && McpOk(c) && JudgesOk(c) && AgentsOk(c) && ExperimentsOk(c)
    && SmokeTestsOk(c) && SubagentsOk(c) && TriggersOk(c) && SidecarsOk(c)
  }

  // The fault of the first item of a section that has one.

  ghost predicate FirstJudge(c: Config, fault: Fault) {
    exists i ::
      0 <= i < |c.judges| && JudgeFault(c, i) == fault && forall j | 0 <= j < i :: JudgeFault(c, j).None?
  }

  ghost predicate FirstAgent(c: Config, fault: Fault) {
    exists i ::
      0 <= i < |c.agents| && AgentFault(c, i) == fault && forall j | 0 <= j < i :: AgentFault(c, j).None?
  }

  ghost predicate FirstExperiment(c: Config, fault: Fault) {
    exists i ::
      0 <= i < |c.experiments| && ExperimentFault(c, i) == fault && forall j | 0 <= j < i :: ExperimentFault(c, j).None?
  }

  ghost predicate FirstSmokeTest(c: Config, fault: Fault) {
    exists i ::
      0 <= i < |c.smokeTests| && SmokeFault(c, i) == fault && forall j | 0 <= j < i :: SmokeFault(c, j).None?
  }

  ghost predicate FirstSubagent(c: Config, fault: Fault) {
    exists i ::
      0 <= i < |c.agents| && SubagentFault(c, i) == fault && forall j | 0 <= j < i :: SubagentFault(c, j).None?
  }

  ghost predicate FirstTrigger(c: Config, fault: Fault) {
    exists i ::
      0 <= i < |c.triggers| && TriggerFault(c, i) == fault && forall j | 0 <= j < i :: TriggerFault(c, j).None?
  }

  ghost predicate FirstSidecar(c: Config, fault: Fault) {
    exists i ::
      0 <= i < |c.sidecars| && SidecarFault(c, i) == fault && forall j | 0 <= j < i :: SidecarFault(c, j).None?
  }

  /** Schedules are checked after every trigger's own fields. */
  ghost predicate TriggerReported(c: Config, e: ConfigError) {
    if forall i | 0 <= i < |c.triggers| :: TriggerFault(c, i).None? then e == TriggerSchedule
    else FirstTrigger(c, Some(e))
  }

  /** `e` is the first fault of the first section, in the order they are visited, that has
      one (of the MCP servers, which are a hash map, any). */
  ghost predicate Reported(c: Config, e: ConfigError) {
    if HeaderFault(c).Some? then HeaderFault(c) == Some(e)
    else if !McpOk(c) then McpReported(c, e)
    else if !JudgesOk(c) then FirstJudge(c, Some(e))
    else if !AgentsOk(c) then FirstAgent(c, Some(e))
    else if !ExperimentsOk(c) then FirstExperiment(c, Some(e))
    else if !SmokeTestsOk(c) then FirstSmokeTest(c, Some(e))
    else if !SubagentsOk(c) then FirstSubagent(c, Some(e))
    else if !TriggersOk(c) then TriggerReported(c, e)
    else FirstSidecar(c, Some(e))
  }

  ghost predicate McpReported(c: Config, e: ConfigError) {
    exists server, field ::
      server in c.mcp && BlankField(c.mcp[server]) == Some(field) && e == McpOAuthBlankField(field, server)
  }

  // ---------------------------------------------------------------------
  // What a sound config is
  // ---------------------------------------------------------------------

  predicate ProviderConfigured(c: Config, provider: string) {
    ParseProvider(provider).Some? && ParseProvider(provider).value in c.providers
  }

  predicate JudgesSound(c: Config) {
    && Distinct(JudgeNames(c))
    && forall j | j in c.judges :: j.rubrics != {} && InUnit(j.samplingRate) && ProviderConfigured(c, j.provider)
  }

  predicate AgentsSound(c: Config) {
    && Distinct(AgentNames(c))
    && forall a | a in c.agents ::
         && a.provider in c.providers
         && (forall s | s in a.mcpServers :: s in c.mcp)
         && (forall j | j in a.judges :: j in JudgeNames(c))
  }

  /** Every arm is declared once, with a positive weight. */
  predicate VariantsSound(c: Config, e: ExperimentConfig) {
    && e.variants != [] && DistinctAgents(e.variants) && PositiveWeights(e.variants)
    && forall v | v in e.variants :: v.agent in AgentNames(c)
  }

  predicate NoShadowFields(e: ExperimentConfig) {
    e.primary.None? && e.samplingRate.None?
  }

  predicate NoBanditFields(e: ExperimentConfig) {
    e.metric.None? && e.epsilon.None? && e.minSamples.None? && e.banditWindowSeconds.None?
  }

  predicate RateSound(rate: Option<real>) {
    rate.Some? ==> InUnit(rate.value)
  }

  /** The metric reads `judge.criterion`, for a declared judge that scores every arm. */
  ghost predicate MetricSound(c: Config, e: ExperimentConfig) {
    exists judge, criterion ::
      && judge in c.judges && criterion in judge.rubrics && '.' !in judge.name
      && e.metric == Some(judge.name + "." + criterion)
      && forall v | v in e.variants :: ScoredBy(c, v.agent, judge.name)
  }

  predicate ScoredBy(c: Config, agent: string, judge: string) {
    exists a | a in c.agents :: a.name == agent && judge in a.judges
  }

  ghost predicate StrategySound(c: Config, e: ExperimentConfig) {
    match e.strategy
    case Bandit => NoShadowFields(e) && MetricSound(c, e) && RateSound(e.epsilon)
    case Shadow =>
      && NoBanditFields(e) && RateSound(e.samplingRate)
      && e.primary.Some? && exists v | v in e.variants :: v.agent == e.primary.value
    case Split => NoShadowFields(e) && NoBanditFields(e)
  }

  ghost predicate ExperimentsSound(c: Config) {
    && Distinct(ExperimentNames(c))
    && forall e | e in c.experiments :: e.name !in AgentNames(c) && VariantsSound(c, e) && StrategySound(c, e)
  }

  predicate SmokeTestsSound(c: Config) {
    && Distinct(SmokeNames(c))
    && forall t | t in c.smokeTests ::
         t.maxTurns > 0 && t.repetitions > 0 && ProviderConfigured(c, t.personaProvider) && Routable(c, t.target)
  }

  predicate SubagentsSound(c: Config) {
    forall a | a in c.agents ::
      Distinct(a.subagents) && forall s | s in a.subagents :: s != a.name && Routable(c, s)
  }

  predicate TriggersSound(c: Config) {
    && c.cronOk && Distinct(TriggerNames(c))
    && (forall t | t in c.triggers ::
          && (Templated(t) || Routable(c, t.agent))
          && (t.kind.Webhook? ==> "/hooks/" <= t.kind.path))
    && forall i, j | 0 <= i < j < |c.triggers| && c.triggers[i].kind.Webhook? ::
         c.triggers[i].kind != c.triggers[j].kind
  }

  predicate SidecarsSound(c: Config) {
    Distinct(SidecarNames(c)) && forall s | s in c.sidecars :: !IsBlank(s.command)
  }

  predicate McpSound(c: Config) {
    forall server | server in c.mcp ::
      match c.mcp[server]
      case Some(Static(authorizationUrl, clientId, clientSecret, redirectUri, tokenUrl)) =>
        "" !in {authorizationUrl, clientId, clientSecret, redirectUri, tokenUrl}
      case _ => true
  }

  predicate HeaderSound(c: Config) {
    && c.agents != [] && c.authOk
    && (c.defaultUserId.Some? ==> !IsBlank(c.defaultUserId.value) && !c.credentialIdentity)
  }

  /** Names are distinct, references resolve, numbers are in range, and each experiment
      carries its own strategy's fields and no other's. */
  ghost predicate Sound(c: Config) {
    && HeaderSound(c) && McpSound(c) && JudgesSound(c) && AgentsSound(c) && ExperimentsSound(c)
    && SmokeTestsSound(c) && SubagentsSound(c) && TriggersSound(c) && SidecarsSound(c)
  }

  // ---------------------------------------------------------------------
  // No check fires exactly on sound configs
  // ---------------------------------------------------------------------

  lemma JudgesOkIff(c: Config)
    ensures JudgesOk(c) <==> JudgesSound(c)
  {
    DistinctIff(JudgeNames(c));
    forall i | 0 <= i < |c.judges|
      ensures JudgeFault(c, i).None? <==>
              var j := c.judges[i];
              && JudgeNames(c)[i] !in JudgeNames(c)[..i]
              && j.rubrics != {} && InUnit(j.samplingRate) && ProviderConfigured(c, j.provider)
    {
    }
  }

  lemma AgentsOkIff(c: Config)
    ensures AgentsOk(c) <==> AgentsSound(c)
  {
    DistinctIff(AgentNames(c));
    forall i | 0 <= i < |c.agents|
      ensures AgentFault(c, i).None? <==>
              var a := c.agents[i];
              && AgentNames(c)[i] !in AgentNames(c)[..i] && a.provider in c.providers
              && (forall s | s in a.mcpServers :: s in c.mcp) && (forall j | j in a.judges :: j in JudgeNames(c))
    {
    }
  }

  lemma {:induction false} VariantFaultIff(c: Config, e: ExperimentConfig, k: nat)
    requires k <= |e.variants|
    ensures VariantFault(c, e, k).None? <==>
            forall i | k <= i < |e.variants| ::
              && e.variants[i].agent in AgentNames(c) && e.variants[i].weight > 0.0
              && forall j | 0 <= j < i :: e.variants[j].agent != e.variants[i].agent
    decreases |e.variants| - k
  {
    if k < |e.variants| {
      VariantFaultIff(c, e, k + 1);
    }
  }

  lemma VariantsOkIff(c: Config, e: ExperimentConfig)
    ensures e.variants != [] && VariantFault(c, e, 0).None? <==> VariantsSound(c, e)
  {
    VariantFaultIff(c, e, 0);
    if VariantsSound(c, e) {
      forall i | 0 <= i < |e.variants|
        ensures e.variants[i].agent in AgentNames(c) && e.variants[i].weight > 0.0
      {
        assert e.variants[i] in e.variants;
      }
    }
  }

  lemma {:induction false} MetricVariantFaultIff(c: Config, e: ExperimentConfig, judge: string, k: nat)
    requires Distinct(AgentNames(c)) && k <= |e.variants|
    ensures MetricVariantFault(c, e, judge, k).None? <==>
            forall i | k <= i < |e.variants| :: ScoredBy(c, e.variants[i].agent, judge)
    decreases |e.variants| - k
  {
    if k < |e.variants| {
      MetricVariantFaultIff(c, e, judge, k + 1);
      ScoredByIff(c, e.variants[k].agent, judge);
    }
  }

  lemma ScoredByIff(c: Config, agent: string, judge: string)
    requires Distinct(AgentNames(c))
    ensures ScoredBy(c, agent, judge) <==>
            FindAgent(c.agents, agent).Some? && judge in FindAgent(c.agents, agent).value.judges
  {
    if a :| a in c.agents && a.name == agent && judge in a.judges {
      var b := FindAgent(c.agents, agent).value;
      var i :| 0 <= i < |c.agents| && c.agents[i] == a;
      var j :| 0 <= j < |c.agents| && c.agents[j] == b;
      assert AgentNames(c)[i] == AgentNames(c)[j];
    }
  }

  /** With distinct names the first judge of a name is the only one. */
  lemma JudgeIsFound(c: Config, judge: JudgeConfig)
    requires Distinct(JudgeNames(c)) && judge in c.judges
    ensures FindJudge(c.judges, judge.name) == Some(judge)
  {
    var found := FindJudge(c.judges, judge.name).value;
    var i :| 0 <= i < |c.judges| && c.judges[i] == judge;
    var j :| 0 <= j < |c.judges| && c.judges[j] == found;
    assert JudgeNames(c)[i] == JudgeNames(c)[j];
  }

  /** The first dot of `name.criterion` ends a name without dots. */
  lemma {:induction false} FirstDot(name: string, criterion: string, i: nat)
    requires '.' !in name && i <= |name|
    ensures FindFrom(name + "." + criterion, ".", i) == Some(|name|)
    decreases |name| - i
  {
    var s := name + "." + criterion;
    assert s[i..i + 1] == [s[i]];
    if i < |name| {
      FirstDot(name, criterion, i + 1);
    }
  }

  /** The bandit checks, once its fields are the right ones, are about the metric. */
  predicate MetricPasses(c: Config, e: ExperimentConfig) {
    e.metric.Some? &&
    var metric := e.metric.value;
    match Find(metric, ".")
    case None => false
    case Some(dot) =>
      match FindJudge(c.judges, metric[..dot])
      case None => false
      case Some(judge) =>
        metric[dot + 1..] in judge.rubrics && MetricVariantFault(c, e, metric[..dot], 0).None?
  }

  lemma BanditFaultIff(c: Config, e: ExperimentConfig)
    ensures BanditFault(c, e).None? <==> NoShadowFields(e) && MetricPasses(c, e) && RateSound(e.epsilon)
  {
  }

  lemma PassingMetricIsSound(c: Config, e: ExperimentConfig)
    requires Distinct(AgentNames(c)) && MetricPasses(c, e)
    ensures MetricSound(c, e)
  {
    var metric := e.metric.value;
    var dot := Find(metric, ".").value;
    var judge := FindJudge(c.judges, metric[..dot]).value;
    DotSplits(metric, dot);
    MetricVariantFaultIff(c, e, judge.name, 0);
    assert judge in c.judges && metric[dot + 1..] in judge.rubrics;
    assert e.metric == Some(judge.name + "." + metric[dot + 1..]);
  }

  lemma SoundMetricPasses(c: Config, e: ExperimentConfig, judge: JudgeConfig, criterion: string)
    requires Distinct(AgentNames(c)) && Distinct(JudgeNames(c))
    requires judge in c.judges && criterion in judge.rubrics && '.' !in judge.name
    requires e.metric == Some(judge.name + "." + criterion)
    requires forall v | v in e.variants :: ScoredBy(c, v.agent, judge.name)
    ensures MetricPasses(c, e)
  {
    var metric := e.metric.value;
    FirstDot(judge.name, criterion, 0);
    JudgeIsFound(c, judge);
    assert metric[..|judge.name|] == judge.name && metric[|judge.name| + 1..] == criterion;
    MetricVariantFaultIff(c, e, judge.name, 0);
  }

  lemma MetricPassesIff(c: Config, e: ExperimentConfig)
    requires Distinct(AgentNames(c)) && Distinct(JudgeNames(c))
    ensures MetricPasses(c, e) <==> MetricSound(c, e)
  {
    if MetricPasses(c, e) {
      PassingMetricIsSound(c, e);
    }
    if MetricSound(c, e) {
      var judge, criterion :|
        && judge in c.judges && criterion in judge.rubrics && '.' !in judge.name
        && e.metric == Some(judge.name + "." + criterion)
        && forall v | v in e.variants :: ScoredBy(c, v.agent, judge.name);
      SoundMetricPasses(c, e, judge, criterion);
    }
  }

  lemma DotSplits(metric: string, dot: nat)
    requires Find(metric, ".") == Some(dot)
    ensures metric == metric[..dot] + "." + metric[dot + 1..] && '.' !in metric[..dot]
  {
    FindSplits(metric, ".");
    forall k | 0 <= k < dot ensures metric[k] != '.' {
      FindIsFirst(metric, ".");
      assert !At(metric, k, ".") && metric[k..k + 1] == [metric[k]];
    }
  }

  lemma StrategyOkIff(c: Config, e: ExperimentConfig)
    requires Distinct(AgentNames(c)) && Distinct(JudgeNames(c))
    ensures StrategyFault(c, e).None? <==> StrategySound(c, e)
  {
    match e.strategy
    case Bandit =>
      BanditFaultIff(c, e);
      MetricPassesIff(c, e);
    case Shadow =>
    case Split =>
  }

  lemma ExperimentFaultIff(c: Config, i: nat)
    requires Distinct(AgentNames(c)) && Distinct(JudgeNames(c)) && i < |c.experiments|
    ensures ExperimentFault(c, i).None? <==>
            var e := c.experiments[i];
            && ExperimentNames(c)[i] !in ExperimentNames(c)[..i]
            && e.name !in AgentNames(c) && VariantsSound(c, e) && StrategySound(c, e)
  {
    VariantsOkIff(c, c.experiments[i]);
    StrategyOkIff(c, c.experiments[i]);
  }

  lemma ExperimentsOkIff(c: Config)
    requires Distinct(AgentNames(c)) && Distinct(JudgeNames(c))
    ensures ExperimentsOk(c) <==> ExperimentsSound(c)
  {
    DistinctIff(ExperimentNames(c));
    forall i | 0 <= i < |c.experiments|
      ensures ExperimentFault(c, i).None? <==>
              var e := c.experiments[i];
              && ExperimentNames(c)[i] !in ExperimentNames(c)[..i]
              && e.name !in AgentNames(c) && VariantsSound(c, e) && StrategySound(c, e)
    {
      ExperimentFaultIff(c, i);
    }
  }

  lemma SmokeTestsOkIff(c: Config)
    ensures SmokeTestsOk(c) <==> SmokeTestsSound(c)
  {
    DistinctIff(SmokeNames(c));
    forall i | 0 <= i < |c.smokeTests|
      ensures SmokeFault(c, i).None? <==>
              var t := c.smokeTests[i];
              && SmokeNames(c)[i] !in SmokeNames(c)[..i]
              && t.maxTurns > 0 && t.repetitions > 0
              && ProviderConfigured(c, t.personaProvider) && Routable(c, t.target)
    {
    }
  }

  lemma {:induction false} SubagentListFaultIff(c: Config, a: AgentConfig, k: nat)
    requires k <= |a.subagents|
    ensures SubagentListFault(c, a, k).None? <==>
            forall i | k <= i < |a.subagents| ::
              a.subagents[i] != a.name && Routable(c, a.subagents[i]) && a.subagents[i] !in a.subagents[..i]
    decreases |a.subagents| - k
  {
    if k < |a.subagents| {
      SubagentListFaultIff(c, a, k + 1);
    }
  }

  lemma SubagentsOkIff(c: Config)
    ensures SubagentsOk(c) <==> SubagentsSound(c)
  {
    forall i | 0 <= i < |c.agents|
      ensures SubagentFault(c, i).None? <==>
              var a := c.agents[i];
              Distinct(a.subagents) && forall s | s in a.subagents :: s != a.name && Routable(c, s)
    {
      var subagents := c.agents[i].subagents;
      SubagentListFaultIff(c, c.agents[i], 0);
      DistinctIff(subagents);
      assert forall k | 0 <= k < |subagents| :: subagents[k] in subagents;
    }
  }

  lemma TriggersOkIff(c: Config)
    ensures TriggersOk(c) <==> TriggersSound(c)
  {
    DistinctIff(TriggerNames(c));
    forall i | 0 <= i < |c.triggers|
      ensures TriggerFault(c, i).None? <==>
              var t := c.triggers[i];
              && TriggerNames(c)[i] !in TriggerNames(c)[..i] && (Templated(t) || Routable(c, t.agent))
              && (t.kind.Webhook? ==>
                    && "/hooks/" <= t.kind.path
                    && forall j | 0 <= j < i :: c.triggers[j].kind != t.kind)
    {
    }
  }

  lemma SidecarsOkIff(c: Config)
    ensures SidecarsOk(c) <==> SidecarsSound(c)
  {
    DistinctIff(SidecarNames(c));
    forall i | 0 <= i < |c.sidecars|
      ensures SidecarFault(c, i).None? <==>
              SidecarNames(c)[i] !in SidecarNames(c)[..i] && !IsBlank(c.sidecars[i].command)
    {
    }
  }

  lemma McpOkIff(c: Config)
    ensures McpOk(c) <==> McpSound(c)
  {
  }

  /** The same, when judges and agents are still to be checked. */
  lemma ExperimentsOkIffGiven(c: Config)
    ensures JudgesSound(c) && AgentsSound(c) ==> (ExperimentsOk(c) <==> ExperimentsSound(c))
  {
    if JudgesSound(c) && AgentsSound(c) {
      ExperimentsOkIff(c);
    }
  }

  /** No check fires exactly when the config is sound. */
  lemma ValidatedIffSound(c: Config)
    ensures Validated(c) <==> Sound(c)
  {
    hide McpOk, JudgesOk, AgentsOk, ExperimentsOk, SmokeTestsOk, SubagentsOk, TriggersOk, SidecarsOk;
    hide McpSound, JudgesSound, AgentsSound, ExperimentsSound, SmokeTestsSound, SubagentsSound, TriggersSound;
    hide SidecarsSound;
    McpOkIff(c);
    JudgesOkIff(c);
    AgentsOkIff(c);
    ExperimentsOkIffGiven(c);
    SmokeTestsOkIff(c);
    SubagentsOkIff(c);
    TriggersOkIff(c);
    SidecarsOkIff(c);
  }
}
