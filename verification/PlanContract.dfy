/** The declarative PLAN.graph contract (src/execraft/plan_contract.py): strict validation,
    and the projection of known runtime fields out of an older graph. */
module PlanContract {
  import opened Json
  import opened Sequences
  import Text

  // ----- Field sets -----

  function DeclarativePackageFields(): set<string> {
    {
      "id", "title", "dependencies", "requirements", "acceptance_criteria", "affected_repositories", "kind",
      "repository_sync", "risk", "priority", "complexity", "verification_profile", "agent_preferences",
      "skill_preferences", "parallel_safe", "read_scope", "write_scope", "conflict_keys"
    }
  }

  function DeclarativeCriterionFields(): set<string> {
    {"id", "description"}
  }

  function LegacyPackageFields(): set<string> {
    {
      "stage", "status", "agent_id", "reviewer_id", "final_reviewer_id", "last_fixer_id", "agent_history",
      "verification_attempts", "review_cycles", "review_findings", "review_recovery_cycles",
      "review_recovery_fingerprint", "review_recovery_origin_stage", "implementation_summary",
      "last_implementation", "last_verification", "last_review", "last_agent_attempts", "last_invocation_id",
      "execution_mode", "parent_id", "shard_key", "generated_by", "decomposition_status",
      "decomposition_origin_stage", "decomposition_reason", "decomposition_agent_id", "decomposition_plan_hash",
      "shard_ids", "operator_paused", "operator_pause_reason", "operator_paused_at", "pause_before_start",
      "pause_before_start_reason", "pause_before_start_requested_at", "pause_before_start_reached_at",
      "pause_after_completion", "pause_after_completion_reason", "pause_after_completion_requested_at",
      "pause_after_completion_reached_at", "decomposition_required", "decomposition_required_reason",
      "decomposition_required_at", "decomposition_required_consumed_at"
    }
  }

  function LegacyCriterionFields(): set<string> {
    {"verified", "evidence"}
  }

  // ----- The canonical graph -----

  function Mapped(items: seq<Json>, f: Json -> Json): (r: seq<Json>)
    ensures |r| == |items|
  {
    seq(|items|, i requires 0 <= i < |items| => f(items[i]))
  }

  /** A criterion without its runtime fields; anything but a mapping is kept. */
  function CanonicalCriterion(criterion: Json): Json {
    match criterion case Obj(fields) => Obj(fields - LegacyCriterionFields()) case _ => criterion
  }

  function CanonicalCriteria(criteria: Json): Json {
    match criteria case Arr(items) => Arr(Mapped(items, CanonicalCriterion)) case _ => criteria
  }

  function CanonicalFields(fields: Fields): Fields {
    var kept := fields - LegacyPackageFields();
    if "acceptance_criteria" in kept then
      kept["acceptance_criteria" := CanonicalCriteria(kept["acceptance_criteria"])]
    else kept
  }

  function CanonicalPackage(package: Json): Json {
    match package case Obj(fields) => Obj(CanonicalFields(fields)) case _ => package
  }

  function CanonicalPackages(packages: Json): Json {
    match packages case Arr(items) => Arr(Mapped(items, CanonicalPackage)) case _ => packages
  }

  const PACKAGE_KEYS: seq<string> := ["work_packages", "packages"]

  function Canonical(raw: Fields): Fields {
    map key | key in raw :: if key in PACKAGE_KEYS then CanonicalPackages(raw[key]) else raw[key]
  }

  // ----- The labels of what is removed, and the completed packages -----

  /** `str(mapping.get("id", index)).strip() or str(index)` */
  function Label(render: Json -> string, fields: Fields, index: nat): string {
    var id := Text.Strip(Shown(render, fields, "id", Text.Decimal(index)));
    if id == "" then Text.Decimal(index) else id
  }

  function Shown(render: Json -> string, fields: Fields, key: string, missing: string): string {
    if key !in fields then missing
    else match fields[key] case Str(s) => s case other => render(other)
  }

  function Prefixed(prefix: string, names: set<string>): set<string> {
    set name | name in names :: prefix + name
  }

  /** One label for each runtime field present. */
  function FieldLabels(prefix: string, fields: Fields, legacy: set<string>): multiset<string> {
    multiset(Prefixed(prefix, fields.Keys * legacy))
  }

  function CriterionPrefix(render: Json -> string, packageId: string, fields: Fields, index: nat): string {
    packageId + ".acceptance_criteria[" + Label(render, fields, index) + "]."
  }

  function CriterionLabels(render: Json -> string, packageId: string, criterion: Json, index: nat): multiset<string> {
    match criterion
    case Obj(fields) => FieldLabels(CriterionPrefix(render, packageId, fields, index), fields, LegacyCriterionFields())
    case _ => multiset{}
  }

  function CriteriaLabels(render: Json -> string, packageId: string, items: seq<Json>): multiset<string> {
    if items == [] then multiset{}
    else CriteriaLabels(render, packageId, Text.Init(items)) + CriterionLabels(render, packageId, Text.Last(items), |items|)
  }

  function PackageLabels(render: Json -> string, package: Json, index: nat): multiset<string> {
    match package
    case Obj(fields) =>
      var id := Label(render, fields, index);
      FieldLabels(id + ".", fields, LegacyPackageFields())
      + (match Get(fields - LegacyPackageFields(), "acceptance_criteria")
         case Arr(items) => CriteriaLabels(render, id, items)
         case _ => multiset{})
    case _ => multiset{}
  }

  function PackagesLabels(render: Json -> string, items: seq<Json>): multiset<string> {
    if items == [] then multiset{}
    else PackagesLabels(render, Text.Init(items)) + PackageLabels(render, Text.Last(items), |items|)
  }

  function ListLabels(render: Json -> string, raw: Fields, key: string): multiset<string> {
    match Get(raw, key) case Arr(items) => PackagesLabels(render, items) case _ => multiset{}
  }

  function RemovedLabels(render: Json -> string, raw: Fields): multiset<string> {
    ListLabels(render, raw, "work_packages") + ListLabels(render, raw, "packages")
  }

  /** `str(...).strip().lower() == "completed"` for the stage or the status */
  predicate Completed(render: Json -> string, fields: Fields) {
    || Text.LowerCase(Text.Strip(Shown(render, fields, "stage", ""))) == "completed"
    || Text.LowerCase(Text.Strip(Shown(render, fields, "status", ""))) == "completed"
  }

  function CompletedOne(render: Json -> string, package: Json, index: nat): seq<string> {
    match package
    case Obj(fields) => if Completed(render, fields) then [Label(render, fields, index)] else []
    case _ => []
  }

  function CompletedIn(render: Json -> string, items: seq<Json>): seq<string> {
    if items == [] then []
    else CompletedIn(render, Text.Init(items)) + CompletedOne(render, Text.Last(items), |items|)
  }

  function CompletedUnder(render: Json -> string, raw: Fields, key: string): seq<string> {
    match Get(raw, key) case Arr(items) => CompletedIn(render, items) case _ => []
  }

  // ----- Which packages count as completed -----

  /** `text` spells `word`, in any case of its letters, between white space. */
  predicate Spells(text: string, word: string) {
    var trimmed := Text.Strip(text);
    && |trimmed| == |word|
    && forall k :: 0 <= k < |word| ==>
         trimmed[k] == word[k] || ('A' <= trimmed[k] <= 'Z' && word[k] as int == trimmed[k] as int + 32)
  }

  function TextAt(render: Json -> string, fields: Fields, key: string): string {
    if key !in fields then "" else match fields[key] case Str(s) => s case other => render(other)
  }

  /** A package whose stage or status says so. */
  predicate SaysCompleted(render: Json -> string, package: Json) {
    package.Obj? && (Spells(TextAt(render, package.fields, "stage"), "completed")
                     || Spells(TextAt(render, package.fields, "status"), "completed"))
  }

  lemma LowerSpells(text: string)
    ensures Text.LowerCase(Text.Strip(text)) == "completed" <==> Spells(text, "completed")
  {
    var trimmed, word := Text.Strip(text), "completed";
    assert forall k :: 0 <= k < |word| ==> 'a' <= word[k] <= 'z';
    if |trimmed| == |word| {
      forall k | 0 <= k < |word|
        ensures Text.LowerCase(trimmed)[k] == word[k] <==>
          trimmed[k] == word[k] || ('A' <= trimmed[k] <= 'Z' && word[k] as int == trimmed[k] as int + 32)
      {
        assert Text.LowerCase(trimmed)[k] == Text.Lower(trimmed[k]);
      }
    }
  }

  /** Package `i` of a list is completed and labelled `id`. */
  predicate CompletedAs(render: Json -> string, package: Json, i: nat, id: string) {
    SaysCompleted(render, package) && Label(render, package.fields, i + 1) == id
  }

  predicate CompletedAmong(render: Json -> string, items: seq<Json>, id: string) {
    exists i :: 0 <= i < |items| && CompletedAs(render, items[i], i, id)
  }

  lemma AmongOn(render: Json -> string, items: seq<Json>, id: string)
    requires items != []
    ensures CompletedAmong(render, items, id) <==>
      CompletedAmong(render, Text.Init(items), id) || CompletedAs(render, Text.Last(items), |items| - 1, id)
  {
    hide CompletedAs;
    assert forall i :: 0 <= i < |items| - 1 ==> Text.Init(items)[i] == items[i];
  }

  lemma InEither(a: seq<string>, b: seq<string>, id: string)
    ensures id in a + b <==> id in a || id in b
  {
  }

  /** The completed ids are the labels of exactly those packages. */
  lemma {:induction false} CompletedExactly(render: Json -> string, items: seq<Json>, id: string)
    ensures id in CompletedIn(render, items) <==> CompletedAmong(render, items, id)
  {
    if items != [] {
      hide CompletedAs, CompletedAmong, CompletedOne;
      CompletedExactly(render, Text.Init(items), id);
      CompletedLast(render, items, id);
      AmongOn(render, items, id);
      InEither(CompletedIn(render, Text.Init(items)), CompletedOne(render, Text.Last(items), |items|), id);
    }
  }

  lemma CompletedLast(render: Json -> string, items: seq<Json>, id: string)
    requires items != []
    ensures id in CompletedOne(render, Text.Last(items), |items|) <==> CompletedAs(render, Text.Last(items), |items| - 1, id)
  {
    hide Label, Spells;
    if Text.Last(items).Obj? {
      var fields := Text.Last(items).fields;
      LowerSpells(TextAt(render, fields, "stage"));
      LowerSpells(TextAt(render, fields, "status"));
    }
  }

  // ----- canonicalize_legacy_plan_graph_mapping -----

  datatype PlanGraphCanonicalization = PlanGraphCanonicalization(
    graph: Fields, removedFields: seq<string>, legacyCompletedPackageIds: seq<string>)
  {
    predicate Changed() {
      removedFields != []
    }
  }

  lemma PrefixedOn(prefix: string, names: set<string>, name: string)
    requires name !in names
    ensures Prefixed(prefix, names + {name}) == Prefixed(prefix, names) + {prefix + name}
    ensures prefix + name !in Prefixed(prefix, names)
  {
    forall other | other in names
      ensures prefix + other != prefix + name
    {
      assert (prefix + other)[|prefix|..] == other && (prefix + name)[|prefix|..] == name;
    }
  }

  /** The loop over the known runtime fields; the order of a set is not specified. */
  method PopFields(fields: Fields, legacy: set<string>, prefix: string) returns (kept: Fields, removed: seq<string>)
    ensures kept == fields - legacy && multiset(removed) == FieldLabels(prefix, fields, legacy)
  {
    hide FieldLabels;
    kept, removed := fields, [];
    var rest := legacy;
    NoLabels(prefix, fields);
    assert legacy - rest == {};
    while rest != {}
      invariant rest <= legacy && kept == fields - (legacy - rest)
      invariant multiset(removed) == FieldLabels(prefix, fields, legacy - rest)
    {
      var field :| field in rest;
      ghost var done := legacy - rest;
      rest := rest - {field};
      assert legacy - rest == done + {field};
      OneMoreLabel(prefix, fields, done, field);
      if field in kept {
        kept := kept - {field};
        removed := removed + [prefix + field];
      }
    }
    assert legacy - rest == legacy;
  }

  lemma NoLabels(prefix: string, fields: Fields)
    ensures FieldLabels(prefix, fields, {}) == multiset{}
  {
    assert fields.Keys * {} == {};
  }

  lemma OneMoreLabel(prefix: string, fields: Fields, done: set<string>, field: string)
    requires field !in done
    ensures FieldLabels(prefix, fields, done + {field})
         == FieldLabels(prefix, fields, done) + if field in fields then multiset{prefix + field} else multiset{}
  {
    if field in fields {
      PrefixedOn(prefix, fields.Keys * done, field);
      assert fields.Keys * (done + {field}) == fields.Keys * done + {field};
    } else {
      assert fields.Keys * (done + {field}) == fields.Keys * done;
    }
  }

  method CanonicalizeCriteria(render: Json -> string, packageId: string, criteria: seq<Json>)
    returns (normalized: seq<Json>, removed: seq<string>)
    ensures normalized == Mapped(criteria, CanonicalCriterion)
    ensures multiset(removed) == CriteriaLabels(render, packageId, criteria)
  {
    hide FieldLabels, CriterionPrefix, LegacyCriterionFields;
    normalized, removed := [], [];
    for i := 0 to |criteria|
      invariant normalized == Mapped(criteria[..i], CanonicalCriterion)
      invariant multiset(removed) == CriteriaLabels(render, packageId, criteria[..i])
    {
      var original := criteria[i];
      assert criteria[..i + 1] == criteria[..i] + [original];
      MappedOn(criteria[..i], original, CanonicalCriterion);
      assert Text.Init(criteria[..i + 1]) == criteria[..i] && Text.Last(criteria[..i + 1]) == original;
      if original.Obj? {
        var prefix := CriterionPrefix(render, packageId, original.fields, i + 1);
        var kept, popped := PopFields(original.fields, LegacyCriterionFields(), prefix);
        removed := removed + popped;
        normalized := normalized + [Obj(kept)];
      } else {
        normalized := normalized + [original];
      }
    }
    assert criteria[..|criteria|] == criteria;
  }

  method CanonicalizePackage(render: Json -> string, original: Fields, index: nat)
    returns (package: Fields, removed: seq<string>)
    ensures package == CanonicalFields(original)
    ensures multiset(removed) == PackageLabels(render, Obj(original), index)
  {
    hide FieldLabels, LegacyPackageFields, CriteriaLabels, Label;
    var id := Label(render, original, index);
    package, removed := PopFields(original, LegacyPackageFields(), id + ".");
    if "acceptance_criteria" in package && package["acceptance_criteria"].Arr? {
      var normalized, popped := CanonicalizeCriteria(render, id, package["acceptance_criteria"].items);
      package := package["acceptance_criteria" := Arr(normalized)];
      removed := removed + popped;
    } else if "acceptance_criteria" in package {
      assert package["acceptance_criteria" := package["acceptance_criteria"]] == package;
    }
  }

  method CanonicalizeEntry(render: Json -> string, original: Json, index: nat)
    returns (normalized: Json, removed: seq<string>, completed: seq<string>)
    ensures normalized == CanonicalPackage(original)
    ensures multiset(removed) == PackageLabels(render, original, index)
    ensures completed == CompletedOne(render, original, index)
  {
    hide CanonicalFields, Completed, Label;
    normalized, removed, completed := original, [], [];
    if original.Obj? {
      if Completed(render, original.fields) {
        completed := [Label(render, original.fields, index)];
      }
      var package;
      package, removed := CanonicalizePackage(render, original.fields, index);
      normalized := Obj(package);
    }
  }

  lemma PackagesOn(render: Json -> string, items: seq<Json>, item: Json)
    ensures PackagesLabels(render, items + [item]) == PackagesLabels(render, items) + PackageLabels(render, item, |items| + 1)
    ensures CompletedIn(render, items + [item]) == CompletedIn(render, items) + CompletedOne(render, item, |items| + 1)
    ensures Mapped(items + [item], CanonicalPackage) == Mapped(items, CanonicalPackage) + [CanonicalPackage(item)]
  {
    hide PackageLabels, CompletedOne, CanonicalPackage;
    assert Text.Init(items + [item]) == items && Text.Last(items + [item]) == item;
    MappedOn(items, item, CanonicalPackage);
  }

  method CanonicalizePackages(render: Json -> string, packages: seq<Json>)
    returns (normalized: seq<Json>, removed: seq<string>, completed: seq<string>)
    ensures normalized == Mapped(packages, CanonicalPackage)
    ensures multiset(removed) == PackagesLabels(render, packages)
    ensures completed == CompletedIn(render, packages)
  {
    normalized, removed, completed := [], [], [];
    assert packages[..0] == [];
    assert PackagesLabels(render, []) == multiset{} && CompletedIn(render, []) == [];
    assert Mapped([], CanonicalPackage) == [];
    hide CanonicalPackage, PackageLabels, CompletedOne, PackagesLabels, CompletedIn, Mapped;
    for i := 0 to |packages|
      invariant normalized == Mapped(packages[..i], CanonicalPackage)
      invariant multiset(removed) == PackagesLabels(render, packages[..i])
      invariant completed == CompletedIn(render, packages[..i])
    {
      assert packages[..i + 1] == packages[..i] + [packages[i]];
      PackagesOn(render, packages[..i], packages[i]);
      var package, popped, ids := CanonicalizeEntry(render, packages[i], i + 1);
      completed := completed + ids;
      removed := removed + popped;
      normalized := normalized + [package];
    }
    assert packages[..|packages|] == packages;
  }

  method CanonicalizeUnder(render: Json -> string, raw: Fields, key: string)
    returns (list: Json, removed: seq<string>, completed: seq<string>)
    ensures list == CanonicalPackages(Get(raw, key))
    ensures multiset(removed) == ListLabels(render, raw, key) && completed == CompletedUnder(render, raw, key)
  {
    hide PackagesLabels, CompletedIn, CanonicalPackage;
    list, removed, completed := Get(raw, key), [], [];
    if list.Arr? {
      var normalized;
      normalized, removed, completed := CanonicalizePackages(render, list.items);
      list := Arr(normalized);
    }
  }

  /** `canonicalize_legacy_plan_graph_mapping` */
  method CanonicalizeLegacyPlanGraphMapping(render: Json -> string, raw: Fields)
    returns (result: PlanGraphCanonicalization)
    ensures result.graph == Canonical(raw)
    ensures multiset(result.removedFields) == RemovedLabels(render, raw)
    ensures result.legacyCompletedPackageIds ==
      Distinct(CompletedUnder(render, raw, "work_packages") + CompletedUnder(render, raw, "packages"))
    ensures result.Changed() <==> result.graph != raw
  {
    hide ListLabels, CompletedUnder, CanonicalPackages, Distinct;
    var graph := raw;
    var removed: seq<string> := [];
    var completed: seq<string> := [];
    for k := 0 to 2
      invariant graph.Keys == raw.Keys
      invariant forall key :: key in raw ==>
        graph[key] == if key in PACKAGE_KEYS[..k] then CanonicalPackages(raw[key]) else raw[key]
      invariant multiset(removed) ==
        (if k > 0 then ListLabels(render, raw, "work_packages") else multiset{})
        + if k > 1 then ListLabels(render, raw, "packages") else multiset{}
      invariant completed ==
        (if k > 0 then CompletedUnder(render, raw, "work_packages") else [])
        + if k > 1 then CompletedUnder(render, raw, "packages") else []
    {
      var key := PACKAGE_KEYS[k];
      assert PACKAGE_KEYS[..k + 1] == PACKAGE_KEYS[..k] + [key];
      var list, popped, ids := CanonicalizeUnder(render, raw, key);
      removed := removed + popped;
      completed := completed + ids;
      if key in graph {
        graph := graph[key := list];
      }
    }
    assert PACKAGE_KEYS[..2] == PACKAGE_KEYS;
    assert graph == Canonical(raw);
    ChangedExactly(render, raw);
    assert multiset(removed) == multiset{} <==> removed == [];
    var unique := Deduplicated(completed);
    result := PlanGraphCanonicalization(graph, removed, unique);
  }

  // ----- What goes and what stays -----

  /** `after` is `before` without the legacy fields, everything else untouched but for what
      `nested` names. */
  ghost predicate Stripped(before: Json, after: Json, legacy: set<string>, nested: string) {
    if before.Obj? then
      && after.Obj?
      && forall field ::
           && (field in after.fields <==> field in before.fields && field !in legacy)
           && (field in after.fields && field != nested ==> after.fields[field] == before.fields[field])
    else after == before
  }

  /** No package is dropped, added or moved, and each loses its known runtime fields only. */
  lemma OnlyLegacyFieldsGo(raw: Fields, key: string, i: nat)
    requires key in raw && key in PACKAGE_KEYS && raw[key].Arr? && i < |raw[key].items|
    ensures Canonical(raw)[key].Arr? && |Canonical(raw)[key].items| == |raw[key].items|
    ensures var before, after := raw[key].items[i], Canonical(raw)[key].items[i];
      && Stripped(before, after, LegacyPackageFields(), "acceptance_criteria")
      && (before.Obj? && "acceptance_criteria" in before.fields ==>
            CriteriaStripped(before.fields["acceptance_criteria"], Get(after.fields, "acceptance_criteria")))
  {
    CriteriaNotLegacy();
    hide LegacyPackageFields, LegacyCriterionFields;
    var before, after := raw[key].items[i], Canonical(raw)[key].items[i];
    assert after == CanonicalPackage(before);
    if before.Obj? && "acceptance_criteria" in before.fields {
      var criteria := before.fields["acceptance_criteria"];
      assert Get(after.fields, "acceptance_criteria") == CanonicalCriteria(criteria);
      if criteria.Arr? {
        assert forall j :: 0 <= j < |criteria.items| ==>
          Mapped(criteria.items, CanonicalCriterion)[j] == CanonicalCriterion(criteria.items[j]);
      }
    }
  }

  ghost predicate CriteriaStripped(before: Json, after: Json) {
    if before.Arr? then
      && after.Arr? && |after.items| == |before.items|
      && forall j :: 0 <= j < |before.items| ==>
           Stripped(before.items[j], after.items[j], LegacyCriterionFields(), "")
    else after == before
  }

  // ----- Nothing is listed exactly when nothing changes -----

  lemma NoFieldLabels(prefix: string, fields: Fields, legacy: set<string>)
    ensures FieldLabels(prefix, fields, legacy) == multiset{} <==> fields - legacy == fields
  {
    if fields.Keys * legacy == {} {
      forall key | key in fields
        ensures key !in legacy
      {
        assert key !in fields.Keys * legacy;
      }
      assert fields - legacy == fields;
    } else {
      var name :| name in fields.Keys * legacy;
      assert name in fields && name !in fields - legacy;
      assert prefix + name in Prefixed(prefix, fields.Keys * legacy);
      assert prefix + name in FieldLabels(prefix, fields, legacy);
    }
  }

  lemma {:induction false} NoCriteriaLabels(render: Json -> string, packageId: string, items: seq<Json>)
    ensures CriteriaLabels(render, packageId, items) == multiset{} <==> Mapped(items, CanonicalCriterion) == items
  {
    hide FieldLabels, CriterionPrefix, LegacyCriterionFields;
    if items != [] {
      NoCriteriaLabels(render, packageId, Text.Init(items));
      NoCriterionLabels(render, packageId, Text.Last(items), |items|);
      MappedGrows(items, CanonicalCriterion);
    }
  }

  lemma NoCriterionLabels(render: Json -> string, packageId: string, criterion: Json, index: nat)
    ensures CriterionLabels(render, packageId, criterion, index) == multiset{} <==> CanonicalCriterion(criterion) == criterion
  {
    hide FieldLabels, CriterionPrefix, LegacyCriterionFields;
    if criterion.Obj? {
      var fields := criterion.fields;
      NoFieldLabels(CriterionPrefix(render, packageId, fields, index), fields, LegacyCriterionFields());
    }
  }

  lemma MappedOn(items: seq<Json>, item: Json, f: Json -> Json)
    ensures Mapped(items + [item], f) == Mapped(items, f) + [f(item)]
  {
  }

  lemma MappedGrows(items: seq<Json>, f: Json -> Json)
    requires items != []
    ensures Mapped(items, f) == items <==>
      Mapped(Text.Init(items), f) == Text.Init(items) && f(Text.Last(items)) == Text.Last(items)
  {
  }

  lemma NoPackageLabels(render: Json -> string, package: Json, index: nat)
    ensures PackageLabels(render, package, index) == multiset{} <==> CanonicalPackage(package) == package
  {
    hide FieldLabels, LegacyPackageFields, CriteriaLabels, Label;
    if package.Obj? {
      var fields := package.fields;
      var id, kept := Label(render, fields, index), fields - LegacyPackageFields();
      NoFieldLabels(id + ".", fields, LegacyPackageFields());
      if "acceptance_criteria" in kept {
        var criteria := kept["acceptance_criteria"];
        if criteria.Arr? {
          NoCriteriaLabels(render, id, criteria.items);
        }
        assert CanonicalFields(fields) == kept["acceptance_criteria" := CanonicalCriteria(criteria)];
        assert CanonicalFields(fields).Keys == kept.Keys;
        SameMap(fields, kept, "acceptance_criteria", CanonicalCriteria(criteria));
      }
    }
  }

  lemma SameMap(fields: Fields, kept: Fields, key: string, value: Json)
    requires key in kept && kept.Keys <= fields.Keys && forall k :: k in kept ==> kept[k] == fields[k]
    ensures kept[key := value] == fields <==> kept == fields && value == kept[key]
  {
  }

  lemma {:induction false} NoPackagesLabels(render: Json -> string, items: seq<Json>)
    ensures PackagesLabels(render, items) == multiset{} <==> Mapped(items, CanonicalPackage) == items
  {
    hide PackageLabels, CanonicalPackage;
    if items != [] {
      NoPackagesLabels(render, Text.Init(items));
      NoPackageLabels(render, Text.Last(items), |items|);
      MappedGrows(items, CanonicalPackage);
    }
  }

  lemma ChangedExactly(render: Json -> string, raw: Fields)
    ensures RemovedLabels(render, raw) == multiset{} <==> Canonical(raw) == raw
  {
    hide PackagesLabels, CanonicalPackage;
    forall key | key in PACKAGE_KEYS
      ensures ListLabels(render, raw, key) == multiset{} <==> (key in raw ==> CanonicalPackages(raw[key]) == raw[key])
    {
      if key in raw && raw[key].Arr? {
        NoPackagesLabels(render, raw[key].items);
      }
    }
    assert PACKAGE_KEYS[0] == "work_packages" && PACKAGE_KEYS[1] == "packages";
  }

  // ----- Idempotence -----

  lemma FieldsTwice(fields: Fields)
    ensures CanonicalFields(CanonicalFields(fields)) == CanonicalFields(fields)
  {
    hide LegacyPackageFields;
    var once := CanonicalFields(fields);
    assert once - LegacyPackageFields() == once;
    if "acceptance_criteria" in once {
      CriteriaTwice(fields["acceptance_criteria"]);
    }
  }

  lemma CriteriaTwice(criteria: Json)
    ensures CanonicalCriteria(CanonicalCriteria(criteria)) == CanonicalCriteria(criteria)
  {
    hide LegacyCriterionFields;
    if criteria.Arr? {
      var once := Mapped(criteria.items, CanonicalCriterion);
      forall i | 0 <= i < |once|
        ensures CanonicalCriterion(once[i]) == once[i]
      {
        assert once[i] == CanonicalCriterion(criteria.items[i]);
        if once[i].Obj? {
          assert once[i].fields - LegacyCriterionFields() == once[i].fields;
        }
      }
      assert Mapped(once, CanonicalCriterion) == once;
    }
  }

  lemma PackagesTwice(packages: Json)
    ensures CanonicalPackages(CanonicalPackages(packages)) == CanonicalPackages(packages)
  {
    hide CanonicalFields;
    if packages.Arr? {
      var once := Mapped(packages.items, CanonicalPackage);
      forall i | 0 <= i < |once|
        ensures CanonicalPackage(once[i]) == once[i]
      {
        assert once[i] == CanonicalPackage(packages.items[i]);
        if packages.items[i].Obj? {
          FieldsTwice(packages.items[i].fields);
        }
      }
      assert Mapped(once, CanonicalPackage) == once;
    }
  }

  lemma CanonicalTwice(raw: Fields)
    ensures Canonical(Canonical(raw)) == Canonical(raw)
  {
    hide CanonicalPackages;
    forall key | key in raw && key in PACKAGE_KEYS
      ensures Canonical(Canonical(raw))[key] == Canonical(raw)[key]
    {
      PackagesTwice(raw[key]);
    }
  }

  // ----- Validation -----

  /** `raw.get("work_packages") or raw.get("packages") or []` */
  function CheckedList(raw: Fields): Json {
    if Truthy(Get(raw, "work_packages")) then Get(raw, "work_packages")
    else if Truthy(Get(raw, "packages")) then Get(raw, "packages")
    else Arr([])
  }

  predicate CriterionWithin(criterion: Json, names: set<string>) {
    criterion.Obj? ==> criterion.fields.Keys <= names
  }

  predicate CriteriaWithin(criteria: Json, names: set<string>) {
    criteria.Arr? ==> forall i :: 0 <= i < |criteria.items| ==> CriterionWithin(criteria.items[i], names)
  }

  predicate PackageWithin(package: Json, names: set<string>, criterionNames: set<string>) {
    package.Obj? ==>
      && package.fields.Keys <= names
      && CriteriaWithin(Get(package.fields, "acceptance_criteria"), criterionNames)
  }

  predicate ListWithin(packages: Json, names: set<string>, criterionNames: set<string>) {
    packages.Arr? ==> forall i :: 0 <= i < |packages.items| ==> PackageWithin(packages.items[i], names, criterionNames)
  }

  /** Every package and criterion of the checked list uses declarative fields only. */
  predicate Declarative(raw: Fields) {
    ListWithin(CheckedList(raw), DeclarativePackageFields(), DeclarativeCriterionFields())
  }

  /** Every package and criterion of the checked list uses declarative or known runtime fields only. */
  predicate DeclarativeOrLegacy(raw: Fields) {
    ListWithin(CheckedList(raw),
      DeclarativePackageFields() + LegacyPackageFields(), DeclarativeCriterionFields() + LegacyCriterionFields())
  }

  datatype Rejection =
    | PackageFields(package: nat, fields: set<string>)
    | CriterionFields(package: nat, fields: set<string>)

  /** `validate_declarative_plan_graph_mapping`: the first package at fault and what it is
      rejected for. */
  method ValidateDeclarativePlanGraphMapping(raw: Fields) returns (rejection: Option<Rejection>)
    ensures rejection == None <==> Declarative(raw)
    ensures rejection.Some? ==>
      && CheckedList(raw).Arr? && rejection.value.package < |CheckedList(raw).items|
      && Faulty(CheckedList(raw).items[rejection.value.package], rejection.value)
      && forall j :: 0 <= j < rejection.value.package ==>
           PackageWithin(CheckedList(raw).items[j], DeclarativePackageFields(), DeclarativeCriterionFields())
  {
    hide DeclarativePackageFields, DeclarativeCriterionFields, CriteriaWithin, CheckedList;
    var packages := CheckedList(raw);
    if !packages.Arr? {
      return None;
    }
    for index := 0 to |packages.items|
      invariant forall j :: 0 <= j < index ==>
        PackageWithin(packages.items[j], DeclarativePackageFields(), DeclarativeCriterionFields())
    {
      var package := packages.items[index];
      if package.Obj? {
        var runtime := package.fields.Keys - DeclarativePackageFields();
        if runtime != {} {
          return Some(PackageFields(index, runtime));
        }
        var forbidden := ForbiddenCriterionFields(Get(package.fields, "acceptance_criteria"));
        if forbidden != {} {
          return Some(CriterionFields(index, forbidden));
        }
        NoneOver(package.fields.Keys, DeclarativePackageFields());
      }
    }
    return None;
  }

  /** What a package is rejected for: all of its own undeclared fields, or, when it has none,
      those of its first criterion that has some. */
  ghost predicate Faulty(package: Json, rejection: Rejection) {
    && package.Obj?
    && rejection.fields != {}
    && var runtime := package.fields.Keys - DeclarativePackageFields();
       match rejection
       case PackageFields(_, fields) => fields == runtime
       case CriterionFields(_, fields) =>
         && runtime == {}
         && FirstForbidden(Get(package.fields, "acceptance_criteria"), fields)
  }

  ghost predicate FirstForbidden(criteria: Json, fields: set<string>) {
    criteria.Arr? && exists k :: 0 <= k < |criteria.items| && FirstForbiddenAt(criteria.items, k, fields)
  }

  predicate FirstForbiddenAt(items: seq<Json>, k: nat, fields: set<string>)
    requires k < |items|
  {
    && items[k].Obj? && fields == items[k].fields.Keys - DeclarativeCriterionFields()
    && forall j :: 0 <= j < k ==> CriterionWithin(items[j], DeclarativeCriterionFields())
  }

  method ForbiddenCriterionFields(criteria: Json) returns (forbidden: set<string>)
    ensures forbidden == {} <==> CriteriaWithin(criteria, DeclarativeCriterionFields())
    ensures forbidden != {} ==> FirstForbidden(criteria, forbidden)
  {
    hide DeclarativeCriterionFields;
    if !criteria.Arr? {
      return {};
    }
    for k := 0 to |criteria.items|
      invariant forall j :: 0 <= j < k ==> CriterionWithin(criteria.items[j], DeclarativeCriterionFields())
    {
      var criterion := criteria.items[k];
      if criterion.Obj? {
        forbidden := criterion.fields.Keys - DeclarativeCriterionFields();
        if forbidden != {} {
          assert !CriterionWithin(criteria.items[k], DeclarativeCriterionFields());
          assert FirstForbiddenAt(criteria.items, k, forbidden);
          return;
        }
        NoneOver(criterion.fields.Keys, DeclarativeCriterionFields());
      }
    }
    return {};
  }

  // ----- What the projection makes valid -----

  lemma CriteriaNotLegacy()
    ensures "acceptance_criteria" !in LegacyPackageFields()
  {
  }

  lemma NoneOver(keys: set<string>, names: set<string>)
    ensures keys - names == {} <==> keys <= names
  {
    if keys - names == {} {
      forall key | key in keys
        ensures key in names
      {
        assert key !in keys - names;
      }
    }
  }

  lemma WithinLess(keys: set<string>, legacy: set<string>, names: set<string>)
    ensures keys - legacy <= names <==> keys <= names + legacy
  {
  }

  lemma CriteriaWithinCanonical(criteria: Json, names: set<string>)
    ensures CriteriaWithin(CanonicalCriteria(criteria), names)
       <==> CriteriaWithin(criteria, names + LegacyCriterionFields())
  {
    hide LegacyCriterionFields;
    if criteria.Arr? {
      var items := criteria.items;
      forall i | 0 <= i < |items|
        ensures CriterionWithin(Mapped(items, CanonicalCriterion)[i], names)
           <==> CriterionWithin(items[i], names + LegacyCriterionFields())
      {
        assert Mapped(items, CanonicalCriterion)[i] == CanonicalCriterion(items[i]);
        if items[i].Obj? {
          assert (items[i].fields - LegacyCriterionFields()).Keys == items[i].fields.Keys - LegacyCriterionFields();
          WithinLess(items[i].fields.Keys, LegacyCriterionFields(), names);
        }
      }
    }
  }

  lemma PackageWithinCanonical(package: Json, names: set<string>, criterionNames: set<string>)
    ensures PackageWithin(CanonicalPackage(package), names, criterionNames)
       <==> PackageWithin(package, names + LegacyPackageFields(), criterionNames + LegacyCriterionFields())
  {
    hide LegacyPackageFields, LegacyCriterionFields, CriteriaWithin, CanonicalCriteria;
    CriteriaNotLegacy();
    if package.Obj? {
      var fields := package.fields;
      assert CanonicalFields(fields).Keys == fields.Keys - LegacyPackageFields();
      var criteria := Get(fields, "acceptance_criteria");
      CriteriaWithinCanonical(criteria, criterionNames);
      assert "acceptance_criteria" in fields ==> Get(CanonicalFields(fields), "acceptance_criteria") == CanonicalCriteria(criteria);
      NullCriteria(criterionNames);
      NullCriteria(criterionNames + LegacyCriterionFields());
    }
  }

  lemma NullCriteria(names: set<string>)
    ensures CriteriaWithin(Null, names)
  {
  }

  lemma CheckedListCanonical(raw: Fields)
    ensures CheckedList(Canonical(raw)) == CanonicalPackages(CheckedList(raw))
  {
    hide CanonicalPackage;
    assert PACKAGE_KEYS[0] == "work_packages" && PACKAGE_KEYS[1] == "packages";
    forall key | key in PACKAGE_KEYS
      ensures Get(Canonical(raw), key) == CanonicalPackages(Get(raw, key))
      ensures Truthy(Get(Canonical(raw), key)) == Truthy(Get(raw, key))
    {
    }
  }

  /** The projected graph validates exactly when every key of the checked list was
      declarative or a known runtime field: an unknown field is never hidden. */
  lemma ValidExactly(raw: Fields)
    ensures Declarative(Canonical(raw)) <==> DeclarativeOrLegacy(raw)
  {
    hide CheckedList, Canonical, PackageWithin, CanonicalPackage, DeclarativePackageFields, DeclarativeCriterionFields,
         LegacyPackageFields, LegacyCriterionFields;
    CheckedListCanonical(raw);
    var packages := CheckedList(raw);
    if packages.Arr? {
      forall i | 0 <= i < |packages.items|
        ensures PackageWithin(Mapped(packages.items, CanonicalPackage)[i], DeclarativePackageFields(), DeclarativeCriterionFields())
           <==> PackageWithin(packages.items[i], DeclarativePackageFields() + LegacyPackageFields(),
                  DeclarativeCriterionFields() + LegacyCriterionFields())
      {
        PackageWithinCanonical(packages.items[i], DeclarativePackageFields(), DeclarativeCriterionFields());
      }
    }
  }
}
