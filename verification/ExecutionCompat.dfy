/** Legacy provider configurations to schema v4 and back
    (src/execraft/agents/execution_compat.py). */
module ExecutionCompat {
  import opened Json
  import opened LegacyConfig
  import Text

  // ----- Schema v4 -----

  datatype RuntimeKind = Native | OpenClaw

  datatype RuntimeConfig = RuntimeConfig(id: string, kind: RuntimeKind, adapter: string, binary: string)

  datatype ModelRouteConfig = ModelRouteConfig(
    id: string, provider: string, model: string, providerAlias: string, endpoint: string, credentialRef: string,
    apiFamily: string, contextWindow: Option<int>, capabilities: set<string>, defaultTarget: string)

  datatype ExecutionTargetConfig = ExecutionTargetConfig(id: string, kind: string, concurrencyGroup: string)

  datatype AgentExecutionPolicy = AgentExecutionPolicy(
    timeoutSeconds: int,
    inactivityTimeoutSeconds: int,
    outputSilenceTimeoutSeconds: int,
    firstOutputTimeoutSeconds: int,
    maxOutputBytes: int,
    maxInternalRetryDelaySeconds: int,
    liveSessions: bool,
    autoApprove: bool,
    sandbox: string,
    permissionMode: string,
    agentByCapability: seq<(Capability, string)>,
    formatRepairAgent: string,
    effort: string,
    effortByCapability: seq<(Capability, string)>,
    dangerouslySkipPermissions: bool,
    sandboxEnabled: bool,
    policyPaths: seq<string>)

  datatype AgentProfileConfig = AgentProfileConfig(
    id: string,
    name: string,
    enabled: bool,
    capabilities: set<Capability>,
    runtimeId: string,
    modelRouteId: string,
    targetId: string,
    aliases: seq<string>,
    priority: int,
    capabilityWeight: int,
    capabilityWeights: seq<(Capability, int)>,
    maxComplexity: int,
    maxComplexityByCapability: seq<(Capability, int)>,
    concurrencyGroup: string,
    skillSet: seq<string>,
    policy: AgentExecutionPolicy)

  datatype ExecutionArchitectureConfig = ExecutionArchitectureConfig(
    agents: seq<AgentProfileConfig>,
    runtimes: seq<RuntimeConfig>,
    modelRoutes: seq<ModelRouteConfig>,
    targets: seq<ExecutionTargetConfig>,
    sourceSchemaVersion: int)

  // config.runtime, config.model_route, config.target: the first one with the id

  function FindRuntime(runtimes: seq<RuntimeConfig>, id: string): Option<RuntimeConfig> {
    if runtimes == [] then None
    else if runtimes[0].id == id then Some(runtimes[0])
    else FindRuntime(runtimes[1..], id)
  }

  function FindRoute(routes: seq<ModelRouteConfig>, id: string): Option<ModelRouteConfig> {
    if routes == [] then None
    else if routes[0].id == id then Some(routes[0])
    else FindRoute(routes[1..], id)
  }

  function FindTarget(targets: seq<ExecutionTargetConfig>, id: string): Option<ExecutionTargetConfig> {
    if targets == [] then None
    else if targets[0].id == id then Some(targets[0])
    else FindTarget(targets[1..], id)
  }

  // ----- To schema v4 -----

  function LegacyModelParts(config: AgentProviderConfig): (string, string) {
    var k := FirstSlash(config.model);
    if config.model == "" then ("", "")
    else if k < |config.model| then (config.model[..k], config.model[k + 1..])
    else if config.adapter in {"claude", "claude-code"} then ("anthropic", config.model)
    else if config.adapter == "codex" then ("openai", config.model)
    else if config.adapter in {"antigravity", "antigravity-cli"} then ("antigravity", config.model)
    else (config.adapter, config.model)
  }

  function RuntimeId(config: AgentProviderConfig): string {
    "legacy-runtime:" + config.providerId
  }

  function RouteId(config: AgentProviderConfig): string {
    if config.model == "" then "" else "legacy-model:" + config.providerId
  }

  function RuntimeFromLegacy(config: AgentProviderConfig): RuntimeConfig {
    RuntimeConfig(RuntimeId(config), Native, config.adapter, config.binary)
  }

  function RouteFromLegacy(config: AgentProviderConfig): ModelRouteConfig {
    var (provider, model) := LegacyModelParts(config);
    ModelRouteConfig(RouteId(config), provider, model, "", "", "", "", None, {}, "")
  }

  function ProfileFromLegacy(config: AgentProviderConfig): AgentProfileConfig {
    AgentProfileConfig(
      config.providerId, config.name, config.enabled, config.capabilities, RuntimeId(config), RouteId(config), "",
      config.aliases, config.priority, config.capabilityWeight, config.capabilityWeights, config.maxComplexity,
      config.maxComplexityByCapability, config.concurrencyGroup, [],
      AgentExecutionPolicy(
        config.timeoutSeconds, config.inactivityTimeoutSeconds, config.outputSilenceTimeoutSeconds,
        config.firstOutputTimeoutSeconds, config.maxOutputBytes, config.maxInternalRetryDelaySeconds,
        config.liveSessions, config.autoApprove, config.sandbox, config.permissionMode, config.agentByCapability,
        config.formatRepairAgent, config.effort, config.effortByCapability, config.dangerouslySkipPermissions,
        config.sandboxEnabled, config.policyPaths))
  }

  function Profiles(configs: seq<AgentProviderConfig>): seq<AgentProfileConfig> {
    if configs == [] then [] else [ProfileFromLegacy(configs[0])] + Profiles(configs[1..])
  }

  function Runtimes(configs: seq<AgentProviderConfig>): seq<RuntimeConfig> {
    if configs == [] then [] else [RuntimeFromLegacy(configs[0])] + Runtimes(configs[1..])
  }

  /** Only a config that names a model has a route. */
  function Routes(configs: seq<AgentProviderConfig>): seq<ModelRouteConfig> {
    if configs == [] then []
    else (if configs[0].model == "" then [] else [RouteFromLegacy(configs[0])]) + Routes(configs[1..])
  }

  function Normalized(configs: seq<AgentProviderConfig>, version: int): ExecutionArchitectureConfig {
    ExecutionArchitectureConfig(Profiles(configs), Runtimes(configs), Routes(configs), [], version)
  }

  lemma {:induction false} NormalizedAppend(a: seq<AgentProviderConfig>, b: AgentProviderConfig)
    ensures Profiles(a + [b]) == Profiles(a) + [ProfileFromLegacy(b)]
    ensures Runtimes(a + [b]) == Runtimes(a) + [RuntimeFromLegacy(b)]
  {
    hide ProfileFromLegacy, RuntimeFromLegacy;
    if a == [] {
      assert a + [b] == [b];
    } else {
      NormalizedAppend(a[1..], b);
      assert (a + [b])[1..] == a[1..] + [b];
    }
  }

  lemma {:induction false} RoutesAppend(a: seq<AgentProviderConfig>, b: AgentProviderConfig)
    ensures Routes(a + [b]) == Routes(a) + if b.model == "" then [] else [RouteFromLegacy(b)]
  {
    hide RouteFromLegacy;
    if a == [] {
      assert a + [b] == [b];
    } else {
      RoutesAppend(a[1..], b);
      assert (a + [b])[1..] == a[1..] + [b] && (a + [b])[0] == a[0];
      var own := if a[0].model == "" then [] else [RouteFromLegacy(a[0])];
      assert Routes(a + [b]) == own + Routes(a[1..] + [b]);
    }
  }

  method NormalizeLegacyAgentConfigs(configs: seq<AgentProviderConfig>, version: int)
    returns (normalized: ExecutionArchitectureConfig)
    ensures normalized == Normalized(configs, version)
  {
    hide ProfileFromLegacy, RuntimeFromLegacy, RouteFromLegacy;
    var agents: seq<AgentProfileConfig> := [];
    var runtimes: seq<RuntimeConfig> := [];
    var routes: seq<ModelRouteConfig> := [];
    for i := 0 to |configs|
      invariant agents == Profiles(configs[..i]) && runtimes == Runtimes(configs[..i]) && routes == Routes(configs[..i])
    {
      var config := configs[i];
      NormalizedAppend(configs[..i], config);
      RoutesAppend(configs[..i], config);
      assert configs[..i + 1] == configs[..i] + [config];
      agents := agents + [ProfileFromLegacy(config)];
      runtimes := runtimes + [RuntimeFromLegacy(config)];
      if config.model != "" {
        routes := routes + [RouteFromLegacy(config)];
      }
    }
    assert configs[..|configs|] == configs;
    normalized := ExecutionArchitectureConfig(agents, runtimes, routes, [], version);
  }

  // ----- Back to provider configs -----

  datatype ProjectionError =
    | UnknownId(id: string)
    | NotNative(agent: string)
    | ModelRouteRequired(agent: string)

  function ReferenceForNativeAdapter(route: ModelRouteConfig, adapter: string): string {
    if adapter == "opencode" then
      (if route.providerAlias != "" then route.providerAlias else route.provider) + "/" + route.model
    else route.model
  }

  function ProjectProfile(config: ExecutionArchitectureConfig, profile: AgentProfileConfig)
    : Result<AgentProviderConfig, ProjectionError>
  {
    var runtime := FindRuntime(config.runtimes, profile.runtimeId);
    var route := FindRoute(config.modelRoutes, profile.modelRouteId);
    if runtime == None then Err(UnknownId(profile.runtimeId))
    else if runtime.value.kind != Native then Err(NotNative(profile.id))
    else if profile.modelRouteId != "" && route == None then Err(UnknownId(profile.modelRouteId))
    else
      var adapter := runtime.value.adapter;
      var routed := profile.modelRouteId != "";
      var model := if routed then ReferenceForNativeAdapter(route.value, adapter) else "";
      if adapter == "opencode" && model == "" then Err(ModelRouteRequired(profile.id))
      else
        var targetId := if profile.targetId != "" then profile.targetId
                        else if routed then route.value.defaultTarget else "";
        var target := FindTarget(config.targets, targetId);
        if targetId != "" && target == None then Err(UnknownId(targetId))
        else Ok(Assembled(runtime.value, profile, model,
          Metadata(
            profile.id, runtime.value.id, adapter,
            if routed then route.value.id else "", if routed then route.value.provider else "",
            targetId,
            if targetId != "" then target.value.kind else "",
            if targetId != "" then target.value.concurrencyGroup else "")))
  }

  function Assembled(runtime: RuntimeConfig, profile: AgentProfileConfig, model: string, metadata: Metadata)
    : AgentProviderConfig
  {
    var policy := profile.policy;
    AgentProviderConfig(
      profile.name, runtime.adapter, profile.enabled, profile.id, runtime.binary, profile.capabilities, model,
      policy.timeoutSeconds, policy.inactivityTimeoutSeconds, policy.outputSilenceTimeoutSeconds,
      policy.firstOutputTimeoutSeconds, policy.maxOutputBytes, policy.maxInternalRetryDelaySeconds,
      policy.liveSessions, profile.priority, policy.autoApprove, policy.sandbox, policy.permissionMode,
      profile.aliases, policy.agentByCapability, policy.formatRepairAgent, profile.capabilityWeight,
      profile.capabilityWeights, profile.maxComplexity, profile.maxComplexityByCapability, policy.effort,
      policy.effortByCapability, policy.dangerouslySkipPermissions, policy.sandboxEnabled, policy.policyPaths,
      profile.concurrencyGroup, metadata)
  }

  // ----- What the projection of any profile is -----

  /** The first runtime, route and target of the configuration with an id. */
  predicate IsRuntime(config: ExecutionArchitectureConfig, id: string, k: nat) {
    k < |config.runtimes| && config.runtimes[k].id == id && forall j :: 0 <= j < k ==> config.runtimes[j].id != id
  }

  predicate IsRoute(config: ExecutionArchitectureConfig, id: string, k: nat) {
    k < |config.modelRoutes| && config.modelRoutes[k].id == id && forall j :: 0 <= j < k ==> config.modelRoutes[j].id != id
  }

  predicate IsTarget(config: ExecutionArchitectureConfig, id: string, k: nat) {
    k < |config.targets| && config.targets[k].id == id && forall j :: 0 <= j < k ==> config.targets[j].id != id
  }

  lemma {:induction false} RuntimeFound(runtimes: seq<RuntimeConfig>, id: string)
    ensures match FindRuntime(runtimes, id)
            case Some(runtime) =>
              exists k :: 0 <= k < |runtimes| && runtimes[k] == runtime && runtime.id == id
                && forall j :: 0 <= j < k ==> runtimes[j].id != id
            case None => forall k :: 0 <= k < |runtimes| ==> runtimes[k].id != id
  {
    if runtimes != [] && runtimes[0].id != id {
      RuntimeFound(runtimes[1..], id);
      if FindRuntime(runtimes, id).Some? {
        var k :| 0 <= k < |runtimes[1..]| && runtimes[1..][k] == FindRuntime(runtimes, id).value
          && forall j :: 0 <= j < k ==> runtimes[1..][j].id != id;
        assert runtimes[k + 1] == runtimes[1..][k];
        assert forall j :: 1 <= j < k + 1 ==> runtimes[j] == runtimes[1..][j - 1];
      }
    }
  }

  lemma {:induction false} RouteFound(routes: seq<ModelRouteConfig>, id: string)
    ensures match FindRoute(routes, id)
            case Some(route) =>
              exists k :: 0 <= k < |routes| && routes[k] == route && route.id == id && forall j :: 0 <= j < k ==> routes[j].id != id
            case None => forall k :: 0 <= k < |routes| ==> routes[k].id != id
  {
    if routes != [] && routes[0].id != id {
      RouteFound(routes[1..], id);
      if FindRoute(routes, id).Some? {
        var k :| 0 <= k < |routes[1..]| && routes[1..][k] == FindRoute(routes, id).value
          && forall j :: 0 <= j < k ==> routes[1..][j].id != id;
        assert routes[k + 1] == routes[1..][k];
        assert forall j :: 1 <= j < k + 1 ==> routes[j] == routes[1..][j - 1];
      }
    }
  }

  lemma {:induction false} TargetFound(targets: seq<ExecutionTargetConfig>, id: string)
    ensures match FindTarget(targets, id)
            case Some(target) =>
              exists k :: 0 <= k < |targets| && targets[k] == target && target.id == id && forall j :: 0 <= j < k ==> targets[j].id != id
            case None => forall k :: 0 <= k < |targets| ==> targets[k].id != id
  {
    if targets != [] && targets[0].id != id {
      TargetFound(targets[1..], id);
      if FindTarget(targets, id).Some? {
        var k :| 0 <= k < |targets[1..]| && targets[1..][k] == FindTarget(targets, id).value
          && forall j :: 0 <= j < k ==> targets[1..][j].id != id;
        assert targets[k + 1] == targets[1..][k];
        assert forall j :: 1 <= j < k + 1 ==> targets[j] == targets[1..][j - 1];
      }
    }
  }

  /** What a profile on runtime `n` and, if it names one, route `k` becomes: the model in the syntax
      of the adapter, under the route's alias if it has one, and on its own target or the route's. */
  lemma ProjectionExactly(config: ExecutionArchitectureConfig, profile: AgentProfileConfig, n: nat, k: nat)
    requires IsRuntime(config, profile.runtimeId, n)
    requires profile.modelRouteId != "" ==> IsRoute(config, profile.modelRouteId, k)
    ensures var one, runtime, routed := ProjectProfile(config, profile), config.runtimes[n], profile.modelRouteId != "";
      var targetId := if profile.targetId != "" then profile.targetId else if routed then config.modelRoutes[k].defaultTarget else "";
      && (one.Ok? <==>
            && runtime.kind == Native && (runtime.adapter == "opencode" ==> routed)
            && (targetId != "" ==> exists i: nat :: IsTarget(config, targetId, i)))
      && (one.Ok? ==>
            && one.value.adapter == runtime.adapter && one.value.metadata.runtimeId == runtime.id
            && one.value.model ==
                 (if !routed then "" else
                  var route := config.modelRoutes[k];
                  if runtime.adapter != "opencode" then route.model
                  else if route.providerAlias == "" then route.provider + "/" + route.model
                  else route.providerAlias + "/" + route.model)
            && one.value.metadata.modelProviderSemantic == (if routed then config.modelRoutes[k].provider else "")
            && one.value.metadata.targetId == targetId
            && forall i: nat :: targetId != "" && IsTarget(config, targetId, i) ==>
                 && one.value.metadata.targetKind == config.targets[i].kind
                 && one.value.metadata.targetConcurrencyGroup == config.targets[i].concurrencyGroup)
  {
    RuntimeFound(config.runtimes, profile.runtimeId);
    RouteFound(config.modelRoutes, profile.modelRouteId);
    hide FindRuntime, FindRoute, FindTarget;
    var routed := profile.modelRouteId != "";
    var targetId := if profile.targetId != "" then profile.targetId else if routed then config.modelRoutes[k].defaultTarget else "";
    TargetFound(config.targets, targetId);
    if FindTarget(config.targets, targetId).Some? {
      var i :| 0 <= i < |config.targets| && config.targets[i] == FindTarget(config.targets, targetId).value
        && forall j :: 0 <= j < i ==> config.targets[j].id != targetId;
      assert IsTarget(config, targetId, i);
    }
  }

  /** Every profile in turn; the first failure ends it. */
  function ProjectAll(config: ExecutionArchitectureConfig, n: nat): Result<seq<AgentProviderConfig>, ProjectionError>
    requires n <= |config.agents|
  {
    if n == 0 then Ok([])
    else match ProjectAll(config, n - 1)
      case Err(error) => Err(error)
      case Ok(sofar) =>
        match ProjectProfile(config, config.agents[n - 1])
        case Err(error) => Err(error)
        case Ok(projected) => Ok(sofar + [projected])
  }

  function Projected(config: ExecutionArchitectureConfig): Result<seq<AgentProviderConfig>, ProjectionError> {
    match ProjectAll(config, |config.agents|)
    case Err(error) => Err(error)
    case Ok(projected) => Ok(PrioritySort(projected))
  }

  lemma {:induction false} FailureStays(config: ExecutionArchitectureConfig, n: nat, m: nat)
    requires n <= m <= |config.agents| && ProjectAll(config, n).Err?
    ensures ProjectAll(config, m) == ProjectAll(config, n)
  {
    if n < m {
      FailureStays(config, n, m - 1);
    }
  }

  method ProjectNativeLegacyConfigs(config: ExecutionArchitectureConfig)
    returns (result: Result<seq<AgentProviderConfig>, ProjectionError>)
    ensures result == Projected(config)
  {
    hide ProjectProfile, PrioritySort;
    var projected: seq<AgentProviderConfig> := [];
    for index := 0 to |config.agents|
      invariant ProjectAll(config, index) == Ok(projected)
    {
      var one := ProjectProfile(config, config.agents[index]);
      if one.Err? {
        FailureStays(config, index + 1, |config.agents|);
        return Err(one.error);
      }
      projected := projected + [one.value];
    }
    var sorted := SortByPriority(projected);
    return Ok(sorted);
  }

  // ----- What survives -----

  /** A model reference that fits its adapter: with a slash for OpenCode, without one for
      the others. */
  predicate Carries(config: AgentProviderConfig) {
    config.adapter == "opencode" <==> '/' in config.model
  }

  /** The model the round trip gives back. */
  function Returned(config: AgentProviderConfig): string {
    if config.model == "" then "" else ReferenceForNativeAdapter(RouteFromLegacy(config), config.adapter)
  }

  lemma ReturnedExactly(config: AgentProviderConfig)
    requires config.adapter == "opencode" ==> config.model != ""
    ensures Returned(config) == config.model <==> Carries(config)
    ensures config.adapter != "opencode" && '/' in config.model ==>
      Returned(config) == config.model[FirstSlash(config.model) + 1..]
    ensures config.adapter == "opencode" && '/' !in config.model ==> Returned(config) == "opencode/" + config.model
  {
    hide FirstSlash;
    var k := FirstSlash(config.model);
    if k < |config.model| {
      assert config.model == config.model[..k] + "/" + config.model[k + 1..];
      assert |config.model[k + 1..]| < |config.model|;
    } else {
      assert "opencode/" == "opencode" + "/";
      assert |"opencode/" + config.model| > |config.model|;
    }
  }

  lemma {:induction false} OwnRuntime(configs: seq<AgentProviderConfig>, i: nat)
    requires UniqueIds(configs) && i < |configs|
    ensures FindRuntime(Runtimes(configs), RuntimeId(configs[i])) == Some(RuntimeFromLegacy(configs[i]))
  {
    if i > 0 {
      OwnRuntime(configs[1..], i - 1);
      assert RuntimeId(configs[0])[15..] == configs[0].providerId && RuntimeId(configs[i])[15..] == configs[i].providerId;
    }
  }

  lemma {:induction false} OwnRoute(configs: seq<AgentProviderConfig>, i: nat)
    requires UniqueIds(configs) && i < |configs| && configs[i].model != ""
    ensures FindRoute(Routes(configs), RouteId(configs[i])) == Some(RouteFromLegacy(configs[i]))
  {
    if i > 0 {
      OwnRoute(configs[1..], i - 1);
      if configs[0].model != "" {
        assert RouteId(configs[0])[13..] == configs[0].providerId && RouteId(configs[i])[13..] == configs[i].providerId;
        assert Routes(configs) == [RouteFromLegacy(configs[0])] + Routes(configs[1..]);
      } else {
        assert Routes(configs) == Routes(configs[1..]);
      }
    }
  }

  lemma {:induction false} ProfileAt(configs: seq<AgentProviderConfig>, i: nat)
    requires i < |configs|
    ensures |Profiles(configs)| == |configs| && Profiles(configs)[i] == ProfileFromLegacy(configs[i])
  {
    hide ProfileFromLegacy;
    if i > 0 {
      ProfileAt(configs[1..], i - 1);
    } else if |configs| > 1 {
      ProfileAt(configs[1..], 0);
    }
  }

  /** What one config becomes: itself but for the model, or an error when OpenCode has none. */
  lemma OneProjected(configs: seq<AgentProviderConfig>, version: int, i: nat)
    requires UniqueIds(configs) && i < |configs|
    ensures var one := ProjectProfile(Normalized(configs, version), ProfileFromLegacy(configs[i]));
      if configs[i].adapter == "opencode" && configs[i].model == "" then one.Err?
      else one.Ok? && one.value == configs[i].(model := Returned(configs[i]), metadata := one.value.metadata)
  {
    hide LegacyModelParts, FirstSlash, Runtimes, Routes, FindRuntime, FindRoute;
    OwnRuntime(configs, i);
    if configs[i].model != "" {
      OwnRoute(configs, i);
    }
  }

  lemma NoProfiles()
    ensures Profiles([]) == []
  {
  }

  lemma {:induction false} AllProjected(configs: seq<AgentProviderConfig>, version: int, n: nat)
    requires UniqueIds(configs) && n <= |configs|
    ensures var config := Normalized(configs, version);
      && |config.agents| == |configs|
      && (ProjectAll(config, n).Ok? <==>
            forall i :: 0 <= i < n ==> !(configs[i].adapter == "opencode" && configs[i].model == ""))
      && (ProjectAll(config, n).Ok? ==>
            && |ProjectAll(config, n).value| == n
            && forall i :: 0 <= i < n ==>
                 var one := ProjectAll(config, n).value[i];
                 one == configs[i].(model := Returned(configs[i]), metadata := one.metadata))
  {
    hide ProjectProfile, Returned, ProfileFromLegacy, Runtimes, Routes, UniqueIds, Profiles;
    if configs != [] {
      ProfileAt(configs, 0);
    } else {
      NoProfiles();
    }
    if n > 0 {
      AllProjected(configs, version, n - 1);
      OneProjected(configs, version, n - 1);
      ProfileAt(configs, n - 1);
    }
  }

  /** The round trip gives back the priority sort of the list exactly when each config
      carries a model reference that fits its adapter. */
  lemma RoundTripExactly(configs: seq<AgentProviderConfig>, version: int)
    requires UniqueIds(configs)
    ensures var back := Projected(Normalized(configs, version));
      (back.Ok? && SameAll(back.value, PrioritySort(configs))) <==> forall c :: c in configs ==> Carries(c)
  {
    hide Returned, Carries, ProjectAll, Order;
    var config := Normalized(configs, version);
    AllProjected(configs, version, |configs|);
    forall i | 0 <= i < |configs| && !(configs[i].adapter == "opencode" && configs[i].model == "")
      ensures Returned(configs[i]) == configs[i].model <==> Carries(configs[i])
    {
      ReturnedExactly(configs[i]);
    }
    forall c: AgentProviderConfig | c.adapter == "opencode" && c.model == ""
      ensures !Carries(c)
    {
      EmptyDoesNotCarry(c);
    }
    var all := ProjectAll(config, |configs|);
    if all.Ok? {
      assert Priorities(all.value) == Priorities(configs);
      SameArranged(all.value, configs);
    }
  }

  lemma EmptyDoesNotCarry(config: AgentProviderConfig)
    requires config.adapter == "opencode" && config.model == ""
    ensures !Carries(config)
  {
  }

  lemma SameArranged(xs: seq<AgentProviderConfig>, ys: seq<AgentProviderConfig>)
    requires |xs| == |ys| && Priorities(xs) == Priorities(ys)
    ensures SameAll(PrioritySort(xs), PrioritySort(ys)) <==> SameAll(xs, ys)
  {
    hide Same, Order, PrioritySort;
    var order := Order(Priorities(xs));
    PrioritySortStable(xs);
    PrioritySortStable(ys);
    if SameAll(PrioritySort(xs), PrioritySort(ys)) {
      forall i: nat | i < |xs|
        ensures Same(xs[i], ys[i])
      {
        assert i in order;
        var k :| 0 <= k < |order| && order[k] == i;
        assert Same(PrioritySort(xs)[k], PrioritySort(ys)[k]);
      }
    }
  }

  /** For a list from the legacy parser nothing may drift, order included, exactly when no
      adapter but OpenCode names a model with a slash. */
  lemma ParsedRoundTrip(declared: seq<AgentProviderConfig>, includeDisabled: bool, version: int)
    requires Acceptable(declared)
    ensures var parsed := PrioritySort(Selected(declared, includeDisabled));
      var back := Projected(Normalized(parsed, version));
      (back.Ok? && SameAll(back.value, parsed)) <==>
        forall c :: c in parsed && c.adapter != "opencode" ==> '/' !in c.model
  {
    var parsed := PrioritySort(Selected(declared, includeDisabled));
    ParsedList(declared, includeDisabled);
    SortedExactly(parsed);
    RoundTripExactly(parsed, version);
    hide Projected, Normalized, PrioritySort;
    forall c | c in parsed && c.adapter == "opencode"
      ensures '/' in c.model
    {
      assert Fit(c);
    }
  }

  // A Claude provider whose model is written with its vendor.

  predicate WithVendor(config: AgentProviderConfig) {
    config.adapter == "claude" && config.providerId == "c" && config.aliases == [] && config.model == "anthropic/x"
  }

  lemma VendorAccepted(config: AgentProviderConfig)
    requires WithVendor(config)
    ensures Acceptable([config])
  {
  }

  lemma VendorReturned(config: AgentProviderConfig)
    requires WithVendor(config)
    ensures Returned(config) == "x" && !Carries(config)
  {
    var k := FirstSlash(config.model);
    assert config.model[9] == '/';
    forall j | 0 <= j < k
      ensures config.model[j] != '/'
    {
      assert config.model[..k][j] == config.model[j];
    }
    assert k == 9;
    ReturnedExactly(config);
  }

  /** It passes the legacy parser and loses the vendor on the way back. */
  lemma VendorIsLost(config: AgentProviderConfig, version: int)
    requires WithVendor(config)
    ensures Acceptable([config]) && Returned(config) == "x"
    ensures var back := Projected(Normalized([config], version));
      !(back.Ok? && SameAll(back.value, PrioritySort([config])))
  {
    VendorAccepted(config);
    VendorReturned(config);
    hide Projected, Normalized, PrioritySort, Carries, Returned;
    RoundTripExactly([config], version);
    assert config in [config];
  }
}
