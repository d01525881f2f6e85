/** Legacy provider configurations (src/execraft/agents/legacy_config.py): the record, the
    namespace of agent ids and aliases, and the priority order of the parsed list. */
module LegacyConfig {
  import opened Json
  import opened Sequences
  import Text

  type Capability = string

  /** The fields excluded from comparison. */
  datatype Metadata = Metadata(
    candidateId: string, runtimeId: string, runtimeBackend: string, modelRouteId: string,
    modelProviderSemantic: string, targetId: string, targetKind: string, targetConcurrencyGroup: string)

  datatype AgentProviderConfig = AgentProviderConfig(
    name: string,
    adapter: string,
    enabled: bool,
    providerId: string,
    binary: string,
    capabilities: set<Capability>,
    model: string,
    timeoutSeconds: int,
    inactivityTimeoutSeconds: int,
    outputSilenceTimeoutSeconds: int,
    firstOutputTimeoutSeconds: int,
    maxOutputBytes: int,
    maxInternalRetryDelaySeconds: int,
    liveSessions: bool,
    priority: int,
    autoApprove: bool,
    sandbox: string,
    permissionMode: string,
    aliases: seq<string>,
    agentByCapability: seq<(Capability, string)>,
    formatRepairAgent: string,
    capabilityWeight: int,
    capabilityWeights: seq<(Capability, int)>,
    maxComplexity: int,
    maxComplexityByCapability: seq<(Capability, int)>,
    effort: string,
    effortByCapability: seq<(Capability, string)>,
    dangerouslySkipPermissions: bool,
    sandboxEnabled: bool,
    policyPaths: seq<string>,
    concurrencyGroup: string,
    metadata: Metadata)

  /** Dataclass equality. */
  predicate Same(a: AgentProviderConfig, b: AgentProviderConfig) {
    a.(metadata := b.metadata) == b
  }

  ghost predicate SameAll(xs: seq<AgentProviderConfig>, ys: seq<AgentProviderConfig>) {
    |xs| == |ys| && forall i :: 0 <= i < |xs| ==> Same(xs[i], ys[i])
  }

  ghost predicate UniqueIds(configs: seq<AgentProviderConfig>) {
    forall i, j :: 0 <= i < j < |configs| ==> configs[i].providerId != configs[j].providerId
  }

  // ----- configs.sort(key=lambda item: (-item[1].priority, item[0])) -----

  /** Higher priority first, the earlier declaration first among equals. */
  predicate Before(priorities: seq<int>, i: nat, j: nat)
    requires i < |priorities| && j < |priorities|
  {
    priorities[i] > priorities[j] || (priorities[i] == priorities[j] && i < j)
  }

  predicate Indices(n: nat, order: seq<nat>) {
    forall k :: 0 <= k < |order| ==> order[k] < n
  }

  function Precedes(priorities: seq<int>): (nat, nat) -> bool {
    (i: nat, j: nat) => i < |priorities| && j < |priorities| && Before(priorities, i, j)
  }

  /** The positions of the sorted list, for the first `n` elements. */
  function OrderTo(priorities: seq<int>, n: nat): (r: seq<nat>)
    requires n <= |priorities|
    ensures Indices(|priorities|, r)
  {
    if n == 0 then []
    else
      var order := InsertBy<nat>(Precedes(priorities), OrderTo(priorities, n - 1), n - 1);
      assert forall k :: 0 <= k < |order| ==> order[k] in order;
      order
  }

  function Order(priorities: seq<int>): (r: seq<nat>)
    ensures Indices(|priorities|, r)
  {
    OrderTo(priorities, |priorities|)
  }

  lemma NextHasPlace(priorities: seq<int>, order: seq<nat>, n: nat)
    requires n < |priorities| && forall x :: x in order ==> x < n
    ensures HasPlace<nat>(Precedes(priorities), order, n)
  {
  }

  lemma {:induction false} OrderToAscends(priorities: seq<int>, n: nat)
    requires n <= |priorities|
    ensures OrderedBy<nat>(Precedes(priorities), OrderTo(priorities, n)) && |OrderTo(priorities, n)| == n
    ensures forall x: nat :: x in OrderTo(priorities, n) <==> x < n
  {
    hide Precedes, HasPlace, InsertBy;
    if n > 0 {
      OrderToAscends(priorities, n - 1);
      NextHasPlace(priorities, OrderTo(priorities, n - 1), n - 1);
      InsertOrdered<nat>(Precedes(priorities), OrderTo(priorities, n - 1), n - 1);
    }
  }

  function Priorities(configs: seq<AgentProviderConfig>): (r: seq<int>)
    ensures |r| == |configs|
  {
    seq(|configs|, i requires 0 <= i < |configs| => configs[i].priority)
  }

  function Arranged<T>(xs: seq<T>, order: seq<nat>): seq<T>
    requires Indices(|xs|, order)
  {
    seq(|order|, k requires 0 <= k < |order| => assert Indices(|xs|, order); xs[order[k]])
  }

  function PrioritySort(configs: seq<AgentProviderConfig>): seq<AgentProviderConfig> {
    Arranged(configs, Order(Priorities(configs)))
  }

  /** Sorting rearranges: every position is taken once, in order of priority and then of
      declaration. */
  lemma PrioritySortStable(configs: seq<AgentProviderConfig>)
    ensures var order := Order(Priorities(configs));
      && |order| == |configs| == |PrioritySort(configs)|
      && (forall i: nat :: i in order <==> i < |configs|)
      && (forall k :: 0 <= k < |configs| ==> PrioritySort(configs)[k] == configs[order[k]])
      && (forall j, k :: 0 <= j < k < |configs| ==>
            order[j] != order[k] && (configs[order[j]].priority > configs[order[k]].priority
            || (configs[order[j]].priority == configs[order[k]].priority && order[j] < order[k])))
  {
    OrderToAscends(Priorities(configs), |configs|);
  }

  ghost predicate ByPriority(configs: seq<AgentProviderConfig>) {
    forall j, k :: 0 <= j < k < |configs| ==> configs[j].priority >= configs[k].priority
  }

  lemma {:induction false} OrderToIsCounting(configs: seq<AgentProviderConfig>, n: nat)
    requires ByPriority(configs) && n <= |configs|
    ensures OrderTo(Priorities(configs), n) == seq(n, i => i)
  {
    hide Precedes, Priorities, InsertBy;
    if n > 0 {
      OrderToIsCounting(configs, n - 1);
      NothingFollows(configs, n - 1);
      InsertAtEnd<nat>(Precedes(Priorities(configs)), OrderTo(Priorities(configs), n - 1), n - 1);
    }
  }

  lemma NothingFollows(configs: seq<AgentProviderConfig>, n: nat)
    requires ByPriority(configs) && n < |configs|
    ensures forall x: nat :: x < n ==> !Precedes(Priorities(configs))(n, x)
  {
  }

  /** A list is left alone exactly when it was in order already. */
  lemma SortedExactly(configs: seq<AgentProviderConfig>)
    ensures PrioritySort(configs) == configs <==> ByPriority(configs)
  {
    PrioritySortStable(configs);
    if ByPriority(configs) {
      OrderToIsCounting(configs, |configs|);
    }
    if PrioritySort(configs) == configs {
      forall j, k | 0 <= j < k < |configs|
        ensures configs[j].priority >= configs[k].priority
      {
        assert configs[j] == configs[Order(Priorities(configs))[j]];
      }
    }
  }

  lemma SortIsIdempotent(configs: seq<AgentProviderConfig>)
    ensures ByPriority(PrioritySort(configs))
    ensures PrioritySort(PrioritySort(configs)) == PrioritySort(configs)
  {
    PrioritySortStable(configs);
    SortedExactly(PrioritySort(configs));
  }

  /** The in-place sort, one insertion for each element. */
  method SortByPriority(configs: seq<AgentProviderConfig>) returns (sorted: seq<AgentProviderConfig>)
    ensures sorted == PrioritySort(configs)
  {
    var priorities := Priorities(configs);
    var order: seq<nat> := [];
    for n := 0 to |configs|
      invariant order == OrderTo(priorities, n)
    {
      order := InsertBy<nat>(Precedes(priorities), order, n);
    }
    sorted := Arranged(configs, order);
  }

  // ----- The namespace of agent ids -----

  const ADAPTERS := {"codex", "claude", "claude-code", "opencode", "antigravity", "antigravity-cli"}

  datatype ParseError =
    | UnsupportedAdapter
    | EmptyProviderId
    | DuplicateProviderId(id: string)
    | AlreadyDeclared(id: string)
    | EmptyAlias
    | DuplicateAlias(alias: string)
    | ModelFormat

  function FirstSlash(s: string): (k: nat)
    ensures k <= |s| && '/' !in s[..k] && (k < |s| ==> s[k] == '/')
    ensures k < |s| <==> '/' in s
  {
    if s == "" || s[0] == '/' then 0
    else
      var k := FirstSlash(s[1..]);
      assert s[..k + 1] == [s[0]] + s[1..][..k];
      assert s == [s[0]] + s[1..];
      k + 1
  }

  /** OpenCode wants `provider/model`, both non-empty. */
  predicate ModelFits(adapter: string, model: string) {
    adapter == "opencode" ==> 0 < FirstSlash(model) < |model| - 1
  }

  predicate Fit(config: AgentProviderConfig) {
    && config.adapter in ADAPTERS
    && config.providerId != ""
    && "" !in config.aliases
    && ModelFits(config.adapter, config.model)
  }

  function Names(config: AgentProviderConfig): seq<string> {
    [config.providerId] + config.aliases
  }

  function AllNames(configs: seq<AgentProviderConfig>): seq<string> {
    if configs == [] then [] else AllNames(Text.Init(configs)) + Names(Text.Last(configs))
  }

  /** Each config may be used, and no id or alias is declared twice anywhere. */
  ghost predicate Acceptable(configs: seq<AgentProviderConfig>) {
    (forall i :: 0 <= i < |configs| ==> Fit(configs[i])) && NoRepeats(AllNames(configs))
  }

  lemma {:induction false} AcceptablePrefix(configs: seq<AgentProviderConfig>, n: nat)
    requires Acceptable(configs) && n <= |configs|
    ensures Acceptable(configs[..n])
    decreases |configs|
  {
    if n == |configs| {
      assert configs[..n] == configs;
    } else {
      NoRepeatsAppend(AllNames(Text.Init(configs)), Names(Text.Last(configs)));
      AcceptablePrefix(Text.Init(configs), n);
      assert Text.Init(configs)[..n] == configs[..n];
    }
  }

  lemma AllNamesOn(configs: seq<AgentProviderConfig>, config: AgentProviderConfig)
    ensures AllNames(configs + [config]) == AllNames(configs) + Names(config)
  {
    assert Text.Init(configs + [config]) == configs;
  }

  lemma AcceptableGrows(configs: seq<AgentProviderConfig>, config: AgentProviderConfig)
    requires Acceptable(configs)
    ensures Acceptable(configs + [config]) <==>
      Fit(config) && NoRepeats(Names(config)) && forall x :: x in Names(config) ==> x !in AllNames(configs)
    ensures AllNames(configs + [config]) == AllNames(configs) + Names(config)
  {
    hide Fit, NoRepeats, Names, AllNames;
    AllNamesOn(configs, config);
    NoRepeatsAppend(AllNames(configs), Names(config));
    var more := configs + [config];
    assert forall i :: 0 <= i < |configs| ==> more[i] == configs[i];
    assert more[|configs|] == config;
  }

  lemma {:induction false} NamesListed(configs: seq<AgentProviderConfig>, i: nat)
    requires i < |configs|
    ensures configs[i].providerId in AllNames(configs)
  {
    if i == |configs| - 1 {
      assert Names(configs[i])[0] == configs[i].providerId;
    } else {
      NamesListed(Text.Init(configs), i);
    }
  }

  lemma {:induction false} AcceptableUnique(configs: seq<AgentProviderConfig>)
    requires Acceptable(configs)
    ensures UniqueIds(configs)
  {
    if configs != [] {
      var n := |configs| - 1;
      NoRepeatsAppend(AllNames(Text.Init(configs)), Names(Text.Last(configs)));
      assert Acceptable(Text.Init(configs));
      AcceptableUnique(Text.Init(configs));
      forall i | 0 <= i < n
        ensures configs[i].providerId != configs[n].providerId
      {
        NamesListed(Text.Init(configs), i);
        assert Names(configs[n])[0] == configs[n].providerId;
      }
    }
  }

  function Selected(configs: seq<AgentProviderConfig>, includeDisabled: bool): seq<AgentProviderConfig> {
    if configs == [] then []
    else
      Selected(Text.Init(configs), includeDisabled)
      + if Text.Last(configs).enabled || includeDisabled then [Text.Last(configs)] else []
  }

  /** The alias loop of `_aliases`. */
  method CheckAliases(config: AgentProviderConfig, seen: set<string>) returns (error: Option<ParseError>)
    requires config.providerId !in seen
    ensures error == None <==>
      && "" !in config.aliases && NoRepeats(Names(config))
      && forall x :: x in Names(config) ==> x !in seen
  {
    var aliases: seq<string> := [];
    for i := 0 to |config.aliases|
      invariant aliases == config.aliases[..i]
      invariant "" !in aliases && NoRepeats([config.providerId] + aliases)
      invariant forall x :: x in [config.providerId] + aliases ==> x !in seen
    {
      var alias := config.aliases[i];
      assert Names(config)[i + 1] == alias && alias in config.aliases;
      if alias == "" {
        return Some(EmptyAlias);
      }
      NoRepeatsAppend([config.providerId] + aliases, [alias]);
      assert [config.providerId] + aliases + [alias] == [config.providerId] + (aliases + [alias]);
      if alias == config.providerId || alias in seen || alias in aliases {
        assert alias in [config.providerId] + aliases || alias in seen;
        assert alias in [alias] && alias in Names(config);
        ghost var rest := config.aliases[i + 1..];
        assert Names(config) == ([config.providerId] + aliases + [alias]) + rest;
        NoRepeatsAppend([config.providerId] + aliases + [alias], rest);
        return Some(DuplicateAlias(alias));
      }
      aliases := aliases + [alias];
    }
    assert aliases == config.aliases;
    return None;
  }

  /** One round of the parser's loop: the declaration is accepted exactly when it is fit
      and brings only new names. */
  method CheckProvider(config: AgentProviderConfig, seenProviders: set<string>, seen: set<string>)
    returns (error: Option<ParseError>)
    requires seenProviders <= seen
    ensures error == None <==>
      Fit(config) && NoRepeats(Names(config)) && forall x :: x in Names(config) ==> x !in seen
  {
    assert Names(config)[0] == config.providerId;
    if config.adapter !in ADAPTERS {
      return Some(UnsupportedAdapter);
    }
    if config.providerId == "" {
      return Some(EmptyProviderId);
    }
    if config.providerId in seenProviders {
      return Some(DuplicateProviderId(config.providerId));
    }
    if config.providerId in seen {
      return Some(AlreadyDeclared(config.providerId));
    }
    error := CheckAliases(config, seen);
    if error == None && !ModelFits(config.adapter, config.model) {
      return Some(ModelFormat);
    }
  }

  /** `parse_legacy_agent_configs` on the declarations of the resolver */
  method ParseLegacyAgentConfigs(declared: seq<AgentProviderConfig>, includeDisabled: bool)
    returns (result: Result<seq<AgentProviderConfig>, ParseError>)
    ensures result.Ok? <==> Acceptable(declared)
    ensures result.Ok? ==> result.value == PrioritySort(Selected(declared, includeDisabled))
  {
    assert Acceptable(declared[..0]);
    hide Fit, NoRepeats, PrioritySort, Acceptable;
    var configs: seq<AgentProviderConfig> := [];
    var seenProviders: set<string>, seen: set<string> := {}, {};
    for i := 0 to |declared|
      invariant Acceptable(declared[..i]) && configs == Selected(declared[..i], includeDisabled)
      invariant seenProviders <= seen && forall x :: x in seen <==> x in AllNames(declared[..i])
    {
      var config := declared[i];
      assert declared[..i + 1] == declared[..i] + [config];
      AcceptableGrows(declared[..i], config);
      var error := CheckProvider(config, seenProviders, seen);
      if error.Some? {
        if Acceptable(declared) {
          AcceptablePrefix(declared, i + 1);
        }
        return Err(error.value);
      }
      assert Text.Init(declared[..i + 1]) == declared[..i];
      if config.enabled || includeDisabled {
        configs := configs + [config];
      }
      seenProviders := seenProviders + {config.providerId};
      seen := seen + {config.providerId} + (set alias | alias in config.aliases);
    }
    assert declared[..|declared|] == declared;
    var sorted := SortByPriority(configs);
    return Ok(sorted);
  }

  lemma {:induction false} SelectedFrom(configs: seq<AgentProviderConfig>, includeDisabled: bool)
    requires Acceptable(configs)
    ensures UniqueIds(Selected(configs, includeDisabled))
    ensures forall c :: c in Selected(configs, includeDisabled) ==> c in configs
  {
    if configs != [] {
      var n, prior := |configs| - 1, Selected(Text.Init(configs), includeDisabled);
      AcceptablePrefix(configs, n);
      AcceptableUnique(configs);
      SelectedFrom(Text.Init(configs), includeDisabled);
      forall k | 0 <= k < |prior|
        ensures prior[k].providerId != configs[n].providerId
      {
        assert prior[k] in Text.Init(configs);
      }
    }
  }

  lemma SortKeeps(configs: seq<AgentProviderConfig>)
    ensures forall c :: c in PrioritySort(configs) <==> c in configs
    ensures UniqueIds(configs) ==> UniqueIds(PrioritySort(configs))
  {
    PrioritySortStable(configs);
    var order := Order(Priorities(configs));
    forall c | c in configs
      ensures c in PrioritySort(configs)
    {
      var i: nat :| i < |configs| && configs[i] == c;
      assert i in order;
      var k :| 0 <= k < |order| && order[k] == i;
      assert PrioritySort(configs)[k] == c;
    }
  }

  /** What the round trip may rely on: a parsed list is in priority order, its ids are
      unique and each of its configs is fit. */
  lemma ParsedList(declared: seq<AgentProviderConfig>, includeDisabled: bool)
    requires Acceptable(declared)
    ensures var parsed := PrioritySort(Selected(declared, includeDisabled));
      ByPriority(parsed) && UniqueIds(parsed) && forall c :: c in parsed ==> Fit(c)
  {
    var selected := Selected(declared, includeDisabled);
    SelectedFrom(declared, includeDisabled);
    SortKeeps(selected);
    SortIsIdempotent(selected);
  }

  // ----- What the parser accepts and keeps, spelled out -----

  /** The name of a config: its id, or one of its aliases. */
  predicate CalledBy(config: AgentProviderConfig, name: string) {
    name == config.providerId || exists k :: 0 <= k < |config.aliases| && config.aliases[k] == name
  }

  /** A supported adapter, names that are not empty, and for OpenCode a model with a provider
      before its first slash and something after it. */
  ghost predicate Usable(config: AgentProviderConfig) {
    && (config.adapter == "codex" || config.adapter == "claude" || config.adapter == "claude-code"
        || config.adapter == "opencode" || config.adapter == "antigravity" || config.adapter == "antigravity-cli")
    && (forall name :: CalledBy(config, name) ==> name != "")
    && (config.adapter == "opencode" ==> Referenced(config.model))
  }

  predicate Referenced(model: string) {
    exists k :: 0 < k < |model| - 1 && model[k] == '/' && forall j :: 0 <= j < k ==> model[j] != '/'
  }

  ghost predicate OwnNamesDiffer(config: AgentProviderConfig) {
    forall k :: 0 <= k < |config.aliases| ==>
      config.aliases[k] != config.providerId && forall j :: 0 <= j < k ==> config.aliases[j] != config.aliases[k]
  }

  ghost predicate NamesApart(configs: seq<AgentProviderConfig>) {
    forall i, j, name :: 0 <= i < j < |configs| && CalledBy(configs[i], name) ==> !CalledBy(configs[j], name)
  }

  /** A list is accepted exactly when every config is usable and no name occurs twice in it,
      neither in one config nor in two. */
  lemma {:induction false} AcceptableExactly(configs: seq<AgentProviderConfig>)
    ensures Acceptable(configs) <==>
      && (forall i :: 0 <= i < |configs| ==> Usable(configs[i]) && OwnNamesDiffer(configs[i]))
      && NamesApart(configs)
    ensures forall name :: name in AllNames(configs) <==> exists i :: 0 <= i < |configs| && CalledBy(configs[i], name)
  {
    if configs != [] {
      var earlier, last := Text.Init(configs), Text.Last(configs);
      AcceptableExactly(earlier);
      assert configs == earlier + [last];
      FitExactly(last);
      NamesExactly(last);
      AllNamesOn(earlier, last);
      if Acceptable(configs) {
        AcceptablePrefix(configs, |earlier|);
      }
      if Acceptable(earlier) {
        AcceptableGrows(earlier, last);
      }
      hide Fit, NoRepeats, Names, AllNames, Acceptable, Usable, OwnNamesDiffer, CalledBy;
      ApartOn(earlier, last);
    }
  }

  lemma ApartOn(configs: seq<AgentProviderConfig>, config: AgentProviderConfig)
    ensures NamesApart(configs + [config]) <==>
      NamesApart(configs) && forall i, name :: 0 <= i < |configs| && CalledBy(configs[i], name) ==> !CalledBy(config, name)
  {
    hide CalledBy;
    var more := configs + [config];
    assert more[|configs|] == config && forall i :: 0 <= i < |configs| ==> more[i] == configs[i];
  }

  lemma FitExactly(config: AgentProviderConfig)
    ensures Fit(config) <==> Usable(config)
  {
    if config.adapter == "opencode" {
      FirstSlashExactly(config.model);
    }
    assert CalledBy(config, "") <==> config.providerId == "" || "" in config.aliases;
    hide Referenced, CalledBy;
  }

  lemma FirstSlashExactly(model: string)
    ensures 0 < FirstSlash(model) < |model| - 1 <==> Referenced(model)
  {
    var k := FirstSlash(model);
    assert forall j :: 0 <= j < k ==> model[..k][j] == model[j];
    if k < |model| {
      assert forall j :: 0 <= j < k ==> model[j] != '/';
    }
  }

  lemma NamesExactly(config: AgentProviderConfig)
    ensures forall name :: name in Names(config) <==> CalledBy(config, name)
    ensures NoRepeats(Names(config)) <==> OwnNamesDiffer(config)
  {
    var names := Names(config);
    assert names[0] == config.providerId && forall k :: 0 <= k < |config.aliases| ==> names[k + 1] == config.aliases[k];
    if OwnNamesDiffer(config) {
      forall i, j | 0 <= i < j < |names|
        ensures names[i] != names[j]
      {
        assert names[j] == config.aliases[j - 1];
        assert i > 0 ==> names[i] == config.aliases[i - 1];
      }
    }
    if NoRepeats(names) {
      forall k | 0 <= k < |config.aliases|
        ensures config.aliases[k] != config.providerId && forall j :: 0 <= j < k ==> config.aliases[j] != config.aliases[k]
      {
        assert names[0] != names[k + 1];
        forall j | 0 <= j < k
          ensures config.aliases[j] != config.aliases[k]
        {
          assert names[j + 1] != names[k + 1];
        }
      }
    }
  }

  /** Exactly the enabled configs are kept, or all of them, in the order in which they were declared. */
  lemma {:induction false} SelectedExactly(configs: seq<AgentProviderConfig>, includeDisabled: bool) returns (kept: seq<nat>)
    ensures |kept| == |Selected(configs, includeDisabled)|
    ensures forall k :: 0 <= k < |kept| ==> kept[k] < |configs| && Selected(configs, includeDisabled)[k] == configs[kept[k]]
    ensures forall j, k :: 0 <= j < k < |kept| ==> kept[j] < kept[k]
    ensures forall i: nat :: i in kept <==> i < |configs| && (configs[i].enabled || includeDisabled)
  {
    kept := [];
    if configs != [] {
      kept := SelectedExactly(Text.Init(configs), includeDisabled);
      if Text.Last(configs).enabled || includeDisabled {
        kept := kept + [|configs| - 1];
      }
    }
  }
}
