/** Provider profile inheritance (src/execraft/agents/legacy_profiles.py): a memoised
    recursive resolver against a plain fold over the `extends` chain. */
module LegacyProfiles {
  import opened Json
  import opened DeepMerge
  import Text

  type Profiles = map<string, Fields>

  datatype Error =
    | SchemaTooOld
    | NotAString(id: string)
    | Unknown(id: string)
    | Cycle(path: seq<string>)
    | Rejected(id: string)

  // ----- The extends graph -----

  datatype Link = Root | Extends(parent: string) | Undeclared | Malformed

  function ExtendsValue(fields: Fields): Link {
    if "extends" !in fields then Root
    else match fields["extends"]
      case Str(s) => if Text.Strip(s) == "" then Root else Extends(Text.Strip(s))
      case _ => Malformed
  }

  function LinkOf(profiles: Profiles, id: string): Link {
    if id in profiles then ExtendsValue(profiles[id]) else Undeclared
  }

  /** A profile has a parent exactly when its `extends` is a text that is not blank, none when it
      has no `extends` or a blank one, and a malformed one when that is not a text. */
  lemma LinkExactly(profiles: Profiles, id: string, parent: string)
    ensures LinkOf(profiles, id) == Extends(parent) <==>
      && id in profiles && "extends" in profiles[id] && profiles[id]["extends"].Str?
      && parent == Text.Strip(profiles[id]["extends"].s) != ""
    ensures LinkOf(profiles, id) == Root <==>
      && id in profiles
      && ("extends" in profiles[id] ==> profiles[id]["extends"].Str? && forall c :: c in profiles[id]["extends"].s ==> Text.IsSpace(c))
    ensures LinkOf(profiles, id) == Malformed <==> id in profiles && "extends" in profiles[id] && !profiles[id]["extends"].Str?
    ensures LinkOf(profiles, id) == Undeclared <==> id !in profiles
  {
    if id in profiles && "extends" in profiles[id] && profiles[id]["extends"].Str? {
      BlankExactly(profiles[id]["extends"].s);
    }
    hide Text.Strip, Text.IsSpace;
  }

  lemma BlankExactly(text: string)
    ensures Text.Strip(text) == "" <==> forall c :: c in text ==> Text.IsSpace(c)
  {
    Text.Stripped(text);
    if Text.Strip(text) != "" {
      var i, j :| 0 <= i <= j <= |text| && Text.Strip(text) == text[i..j] && (i < j ==> !Text.IsSpace(text[i]));
      assert text[i] in text;
    }
  }

  function Own(fields: Fields): Fields {
    fields - {"extends"}
  }

  /** `chain` follows `extends` from `id`, child first. */
  ghost predicate ChainFrom(profiles: Profiles, id: string, chain: seq<string>) {
    && |chain| > 0 && chain[0] == id
    && forall i :: 0 <= i < |chain| - 1 ==> LinkOf(profiles, chain[i]) == Extends(chain[i + 1])
  }

  ghost predicate EndsIn(profiles: Profiles, id: string, chain: seq<string>, link: Link) {
    ChainFrom(profiles, id, chain) && LinkOf(profiles, Text.Last(chain)) == link
  }

  ghost predicate Repeats(chain: seq<string>) {
    exists i, j :: 0 <= i < j < |chain| && chain[i] == chain[j]
  }

  /** The four things that can become of an inheritance chain. */
  ghost predicate Resolves(profiles: Profiles, id: string) {
    exists chain :: EndsIn(profiles, id, chain, Root)
  }

  ghost predicate HasUnknown(profiles: Profiles, id: string) {
    exists chain :: EndsIn(profiles, id, chain, Undeclared)
  }

  ghost predicate HasMalformed(profiles: Profiles, id: string) {
    exists chain :: EndsIn(profiles, id, chain, Malformed)
  }

  ghost predicate HasCycle(profiles: Profiles, id: string) {
    exists chain :: ChainFrom(profiles, id, chain) && Repeats(chain)
  }

  // ----- The reference result: a left fold of the layers, root first -----

  function FoldLeft(acc: Fields, layers: seq<Fields>): Fields
    decreases |layers|
  {
    if layers == [] then acc else FoldLeft(Merge(acc, layers[0]), layers[1..])
  }

  function RootFirst(profiles: Profiles, chain: seq<string>): seq<Fields>
    requires forall id :: id in chain ==> id in profiles
  {
    if chain == [] then [] else RootFirst(profiles, chain[1..]) + [Own(profiles[chain[0]])]
  }

  ghost predicate IsResolution(profiles: Profiles, id: string, value: Fields) {
    exists chain :: EndsIn(profiles, id, chain, Root)
      && (forall name :: name in chain ==> name in profiles)
      && value == FoldLeft(map[], RootFirst(profiles, chain))
  }

  lemma {:induction false} FoldLeftAppend(acc: Fields, layers: seq<Fields>, layer: Fields)
    ensures FoldLeft(acc, layers + [layer]) == Merge(FoldLeft(acc, layers), layer)
    decreases |layers|
  {
    if layers == [] {
      assert FoldLeft(acc, [layer]) == FoldLeft(Merge(acc, layer), []);
    } else {
      assert (layers + [layer])[1..] == layers[1..] + [layer];
      FoldLeftAppend(Merge(acc, layers[0]), layers[1..], layer);
    }
  }

  // ----- What a resolution reads, over the profiles as they are written -----

  /** `value` says at a path what the first of the layers that has a say about it says. */
  ghost predicate ReadsAt(layers: seq<Fields>, value: Fields, path: seq<string>) {
    && ((forall i :: 0 <= i < |layers| ==> !Touches(layers[i], path)) ==> Leaf(value, path) == None)
    && (forall i :: 0 <= i < |layers| && Touches(layers[i], path) && (forall j :: 0 <= j < i ==> !Touches(layers[j], path)) ==>
          Leaf(value, path) == Leaf(layers[i], path))
  }

  predicate HasKey(layers: seq<Fields>, key: string) {
    exists i :: 0 <= i < |layers| && key in layers[i]
  }

  /** The layers are laid over one another, the first on top, and all but `extends` counts. */
  ghost predicate Reads(layers: seq<Fields>, value: Fields) {
    && (forall key :: key in value <==> key != "extends" && HasKey(layers, key))
    && (forall path :: path != [] && path[0] != "extends" ==> ReadsAt(layers, value, path))
  }

  function Written(profiles: Profiles, chain: seq<string>): seq<Fields>
    requires forall name :: name in chain ==> name in profiles
  {
    seq(|chain|, i requires 0 <= i < |chain| => assert chain[i] in chain; profiles[chain[i]])
  }

  lemma OwnReads(fields: Fields, path: seq<string>)
    requires path != [] && path[0] != "extends"
    ensures Touches(Own(fields), path) <==> Touches(fields, path)
    ensures Leaf(Own(fields), path) == Leaf(fields, path)
  {
  }

  lemma ReadsOverAt(top: Fields, layers: seq<Fields>, below: Fields, path: seq<string>)
    requires path != [] && path[0] != "extends" && ReadsAt(layers, below, path)
    ensures ReadsAt([top] + layers, Merge(below, Own(top)), path)
  {
    hide Touches, Leaf, Merge, Own;
    var all, value := [top] + layers, Merge(below, Own(top));
    OwnReads(top, path);
    MergeByPath(below, Own(top), path);
    assert all[0] == top && forall i :: 0 <= i < |layers| ==> all[i + 1] == layers[i];
    forall i | 0 <= i < |all| && Touches(all[i], path) && (forall j :: 0 <= j < i ==> !Touches(all[j], path))
      ensures Leaf(value, path) == Leaf(all[i], path)
    {
      if i > 0 {
        assert layers[i - 1] == all[i] && !Touches(all[0], path);
        assert forall j :: 0 <= j < i - 1 ==> layers[j] == all[j + 1];
      }
    }
  }

  lemma ReadsOver(top: Fields, layers: seq<Fields>, below: Fields)
    requires Reads(layers, below)
    ensures Reads([top] + layers, Merge(below, Own(top)))
  {
    hide Touches, Leaf, ReadsAt;
    var all := [top] + layers;
    forall path: seq<string> | path != [] && path[0] != "extends"
      ensures ReadsAt(all, Merge(below, Own(top)), path)
    {
      ReadsOverAt(top, layers, below, path);
    }
    forall key
      ensures HasKey(all, key) <==> key in top || HasKey(layers, key)
    {
      assert all[0] == top && forall i :: 0 <= i < |layers| ==> all[i + 1] == layers[i];
    }
  }

  lemma NothingReads()
    ensures Reads([], map[])
  {
  }

  lemma {:induction false} FoldReads(profiles: Profiles, chain: seq<string>)
    requires forall name :: name in chain ==> name in profiles
    ensures Reads(Written(profiles, chain), FoldLeft(map[], RootFirst(profiles, chain)))
  {
    hide Reads;
    if chain == [] {
      NothingReads();
    } else {
      var rest := chain[1..];
      FoldReads(profiles, rest);
      FoldLeftAppend(map[], RootFirst(profiles, rest), Own(profiles[chain[0]]));
      ReadsOver(profiles[chain[0]], Written(profiles, rest), FoldLeft(map[], RootFirst(profiles, rest)));
      assert Written(profiles, chain) == [profiles[chain[0]]] + Written(profiles, rest);
    }
  }

  /** The chain that `extends` makes from a profile to its root, child first, reads as `value`. */
  ghost predicate ProfileReads(profiles: Profiles, id: string, value: Fields) {
    exists chain :: EndsIn(profiles, id, chain, Root) && (forall name :: name in chain ==> name in profiles)
      && Reads(Written(profiles, chain), value)
  }

  lemma ResolutionReads(profiles: Profiles, id: string, value: Fields)
    requires IsResolution(profiles, id, value)
    ensures ProfileReads(profiles, id, value) && "extends" !in value
  {
    hide Reads;
    var chain :| EndsIn(profiles, id, chain, Root) && (forall name :: name in chain ==> name in profiles)
      && value == FoldLeft(map[], RootFirst(profiles, chain));
    FoldReads(profiles, chain);
    NoExtends(Written(profiles, chain), value);
  }

  lemma NoExtends(layers: seq<Fields>, value: Fields)
    requires Reads(layers, value)
    ensures "extends" !in value
  {
    hide ReadsAt, HasKey;
  }

  // ----- A chain is determined by where it starts -----

  lemma {:induction false} ChainsAgree(profiles: Profiles, id: string, p: seq<string>, q: seq<string>)
    requires ChainFrom(profiles, id, p) && ChainFrom(profiles, id, q) && |p| <= |q|
    ensures p == q[..|p|]
    decreases |p|
  {
    if |p| == 1 {
    } else {
      assert LinkOf(profiles, p[0]) == Extends(p[1]) == Extends(q[1]);
      ChainsAgree(profiles, p[1], p[1..], q[1..]);
      assert p == [id] + p[1..];
      assert q[..|p|] == [id] + q[1..][..|p| - 1];
    }
  }

  lemma ProperPrefixGoesOn(profiles: Profiles, id: string, p: seq<string>, q: seq<string>)
    requires ChainFrom(profiles, id, p) && ChainFrom(profiles, id, q) && |p| < |q|
    ensures LinkOf(profiles, Text.Last(p)) == Extends(q[|p|])
  {
    ChainsAgree(profiles, id, p, q);
    assert q[|p| - 1] == p[|p| - 1];
  }

  /** Once a chain has come to an end, every chain from the same profile is a prefix of it. */
  lemma EndedChainIsLongest(profiles: Profiles, id: string, p: seq<string>, link: Link, q: seq<string>)
    requires EndsIn(profiles, id, p, link) && !link.Extends? && ChainFrom(profiles, id, q)
    ensures |q| <= |p| && q == p[..|q|]
  {
    if |q| > |p| {
      ProperPrefixGoesOn(profiles, id, p, q);
    } else {
      ChainsAgree(profiles, id, q, p);
    }
  }

  lemma EndedChainNeverRepeats(profiles: Profiles, id: string, p: seq<string>, link: Link)
    requires EndsIn(profiles, id, p, link) && !link.Extends?
    ensures !Repeats(p)
  {
    if i, j :| 0 <= i < j < |p| && p[i] == p[j] {
      assert Text.Last(p[i..]) == Text.Last(p) && Text.Last(p[j..]) == Text.Last(p);
      EndedChainIsLongest(profiles, p[j], p[j..], link, p[i..]);
    }
  }

  /** The four outcomes exclude one another, and a profile has at most one resolution. */
  lemma OutcomesExclusive(profiles: Profiles, id: string)
    ensures Resolves(profiles, id) ==> !HasUnknown(profiles, id) && !HasMalformed(profiles, id) && !HasCycle(profiles, id)
    ensures HasUnknown(profiles, id) ==> !HasMalformed(profiles, id) && !HasCycle(profiles, id)
    ensures HasMalformed(profiles, id) ==> !HasCycle(profiles, id)
    ensures forall v, w :: IsResolution(profiles, id, v) && IsResolution(profiles, id, w) ==> v == w
  {
    forall p, link | EndsIn(profiles, id, p, link) && !link.Extends?
      ensures !HasCycle(profiles, id)
      ensures forall q, other :: EndsIn(profiles, id, q, other) && !other.Extends? ==> q == p && other == link
    {
      forall q | ChainFrom(profiles, id, q)
        ensures |q| <= |p| && q == p[..|q|] && !Repeats(q)
      {
        EndedChainIsLongest(profiles, id, p, link, q);
        EndedChainNeverRepeats(profiles, id, p, link);
      }
      forall q, other | EndsIn(profiles, id, q, other) && !other.Extends?
        ensures q == p && other == link
      {
        EndedChainIsLongest(profiles, id, q, other, p);
      }
    }
  }

  // ----- What one step up the chain preserves -----

  lemma RootResolves(profiles: Profiles, id: string)
    requires LinkOf(profiles, id) == Root
    ensures IsResolution(profiles, id, Merge(map[], Own(profiles[id])))
  {
    var chain := [id];
    assert EndsIn(profiles, id, chain, Root);
    assert RootFirst(profiles, chain) == [Own(profiles[id])];
    FoldLeftAppend(map[], [], Own(profiles[id]));
    assert [] + [Own(profiles[id])] == [Own(profiles[id])];
  }

  lemma ChildResolves(profiles: Profiles, id: string, parent: string, value: Fields)
    requires LinkOf(profiles, id) == Extends(parent) && IsResolution(profiles, parent, value)
    ensures IsResolution(profiles, id, Merge(value, Own(profiles[id])))
  {
    var rest :| EndsIn(profiles, parent, rest, Root)
      && (forall name :: name in rest ==> name in profiles)
      && value == FoldLeft(map[], RootFirst(profiles, rest));
    var chain := [id] + rest;
    assert chain[1..] == rest;
    assert Text.Last(chain) == Text.Last(rest);
    assert EndsIn(profiles, id, chain, Root);
    FoldLeftAppend(map[], RootFirst(profiles, rest), Own(profiles[id]));
  }

  lemma ChildInherits(profiles: Profiles, id: string, parent: string)
    requires LinkOf(profiles, id) == Extends(parent)
    ensures HasUnknown(profiles, parent) ==> HasUnknown(profiles, id)
    ensures HasMalformed(profiles, parent) ==> HasMalformed(profiles, id)
    ensures HasCycle(profiles, parent) ==> HasCycle(profiles, id)
    ensures Resolves(profiles, parent) ==> Resolves(profiles, id)
  {
    forall rest, link | EndsIn(profiles, parent, rest, link)
      ensures EndsIn(profiles, id, [id] + rest, link)
    {
      assert Text.Last([id] + rest) == Text.Last(rest);
    }
    forall rest | ChainFrom(profiles, parent, rest)
      ensures ChainFrom(profiles, id, [id] + rest)
      ensures Repeats(rest) ==> Repeats([id] + rest)
    {
      if i, j :| 0 <= i < j < |rest| && rest[i] == rest[j] {
        assert ([id] + rest)[i + 1] == ([id] + rest)[j + 1];
      }
    }
  }

  ghost predicate EndsAt(profiles: Profiles, id: string, link: Link, name: string) {
    exists chain :: EndsIn(profiles, id, chain, link) && Text.Last(chain) == name
  }

  /** The inheritance chain of `id` has the fault that the error names, where it says. */
  ghost predicate Reports(profiles: Profiles, id: string, error: Error) {
    match error
    case Unknown(name) => EndsAt(profiles, id, Undeclared, name)
    case NotAString(name) => EndsAt(profiles, id, Malformed, name)
    case Cycle(_) => HasCycle(profiles, id)
    case _ => false
  }

  lemma ResolutionResolves(profiles: Profiles, id: string, value: Fields)
    requires IsResolution(profiles, id, value)
    ensures Resolves(profiles, id)
  {
  }

  // ----- The resolver -----

  class Resolver {
    const profiles: Profiles
    var resolved: map<string, Fields>
    var resolving: seq<string>

    ghost predicate Valid()
      reads this
    {
      && (forall id :: id in resolved ==> IsResolution(profiles, id, resolved[id]))
      && (forall id :: id in resolving ==> id in profiles)
      && !Repeats(resolving)
    }

    /** The stack is the part of a chain above which `id` comes next. */
    ghost predicate LeadsTo(id: string)
      reads this
    {
      resolving == [] || ChainFrom(profiles, resolving[0], resolving + [id])
    }

    constructor (profiles: Profiles)
      ensures this.profiles == profiles && Valid() && resolving == [] && resolved == map[]
    {
      this.profiles := profiles;
      resolved, resolving := map[], [];
    }

    ghost function Unvisited(): set<string>
      reads this
    {
      profiles.Keys - set name | name in resolving
    }

    method Resolve(id: string) returns (r: Result<Fields, Error>)
      requires Valid() && LeadsTo(id)
      modifies this
      ensures r.Ok? ==> Valid() && resolving == old(resolving) && IsResolution(profiles, id, r.value)
      ensures r.Ok? ==> resolved.Keys >= old(resolved).Keys + {id}
      ensures r.Ok? ==> ProfileReads(profiles, id, r.value) && "extends" !in r.value
      ensures r.Err? ==> Reports(profiles, id, r.error)
      ensures r.Err? && r.error.Cycle? ==> old(resolving) + [id] <= r.error.path && Repeats(r.error.path)
      decreases Unvisited(), 1
    {
      hide ProfileReads;
      if id in resolved {
        ResolutionReads(profiles, id, resolved[id]);
        return Ok(resolved[id]);
      }
      if id in resolving {
        CycleFound(profiles, resolving, id);
        return Err(Cycle(resolving + [id]));
      }
      if id !in profiles {
        assert EndsIn(profiles, id, [id], Undeclared);
        return Err(Unknown(id));
      }
      r := ResolveDeclared(id);
      if r.Ok? {
        ResolutionReads(profiles, id, r.value);
      }
    }

    /** The rest of `resolve`, for a declared profile met for the first time. */
    method ResolveDeclared(id: string) returns (r: Result<Fields, Error>)
      requires Valid() && LeadsTo(id) && id in profiles && id !in resolving
      modifies this
      ensures r.Ok? ==> Valid() && resolving == old(resolving) && IsResolution(profiles, id, r.value)
      ensures r.Ok? ==> resolved.Keys >= old(resolved).Keys + {id}
      ensures r.Err? ==> Reports(profiles, id, r.error)
      ensures r.Err? && r.error.Cycle? ==> old(resolving) + [id] <= r.error.path && Repeats(r.error.path)
      decreases Unvisited(), 0
    {
      hide IsResolution, HasUnknown, HasMalformed, HasCycle, Resolves, Repeats, Merge, ChainFrom, EndsIn, Reports, Own;
      var link := ExtendsValue(profiles[id]);
      ghost var stack := resolving;
      PushKeepsDistinct(stack, id);
      resolving := resolving + [id];
      var parent: Fields := map[];
      if link.Malformed? {
        MalformedEnds(profiles, id);
        return Err(NotAString(id));
      } else if link.Root? {
        RootResolves(profiles, id);
      } else {
        StackGrows(profiles, stack, id, link.parent);
        assert Unvisited() == old(Unvisited()) - {id};
        var inherited := Resolve(link.parent);
        if inherited.Err? {
          ReportInherited(profiles, id, link.parent, inherited.error);
          return Err(inherited.error);
        }
        parent := inherited.value;
        ChildResolves(profiles, id, link.parent, parent);
      }
      var merged := MergeMappings(parent, Own(profiles[id]));
      resolving := Text.Init(resolving);
      assert resolving == stack;
      resolved := resolved[id := merged];
      return Ok(merged);
    }
  }

  lemma MalformedEnds(profiles: Profiles, id: string)
    requires LinkOf(profiles, id) == Malformed
    ensures Reports(profiles, id, NotAString(id))
  {
    assert EndsIn(profiles, id, [id], Malformed);
  }

  lemma ReportInherited(profiles: Profiles, id: string, parent: string, error: Error)
    requires LinkOf(profiles, id) == Extends(parent) && Reports(profiles, parent, error)
    ensures Reports(profiles, id, error)
  {
    ChildInherits(profiles, id, parent);
    forall rest, link | EndsIn(profiles, parent, rest, link)
      ensures EndsAt(profiles, id, link, Text.Last(rest))
    {
      assert EndsIn(profiles, id, [id] + rest, link) && Text.Last([id] + rest) == Text.Last(rest);
    }
  }

  lemma PushKeepsDistinct(stack: seq<string>, id: string)
    requires !Repeats(stack) && id !in stack
    ensures !Repeats(stack + [id])
  {
  }

  lemma CycleFound(profiles: Profiles, stack: seq<string>, id: string)
    requires id in stack && ChainFrom(profiles, stack[0], stack + [id])
    ensures HasCycle(profiles, id) && Repeats(stack + [id])
  {
    var i :| 0 <= i < |stack| && stack[i] == id;
    var chain := (stack + [id])[i..];
    assert chain[0] == chain[|chain| - 1];
    assert ChainFrom(profiles, id, chain);
    assert (stack + [id])[i] == (stack + [id])[|stack|];
  }

  lemma StackGrows(profiles: Profiles, stack: seq<string>, id: string, parent: string)
    requires stack == [] || ChainFrom(profiles, stack[0], stack + [id])
    requires LinkOf(profiles, id) == Extends(parent)
    ensures ChainFrom(profiles, (stack + [id])[0], stack + [id] + [parent])
  {
  }

  /** Every profile graph, however tangled, gives each profile one of the four outcomes. */
  lemma {:induction false} OutcomesExhaustive(profiles: Profiles, id: string, stack: seq<string>)
    requires stack == [] || ChainFrom(profiles, stack[0], stack + [id])
    requires forall name :: name in stack ==> name in profiles
    ensures Resolves(profiles, id) || HasUnknown(profiles, id) || HasMalformed(profiles, id) || HasCycle(profiles, id)
    decreases profiles.Keys - set name | name in stack
  {
    if id in stack {
      CycleFound(profiles, stack, id);
    } else {
      match LinkOf(profiles, id)
      case Root => RootResolves(profiles, id);
      case Undeclared => assert EndsIn(profiles, id, [id], Undeclared);
      case Malformed => assert EndsIn(profiles, id, [id], Malformed);
      case Extends(parent) =>
        StackGrows(profiles, stack, id, parent);
        assert (set name | name in stack + [id]) == (set name | name in stack) + {id};
        OutcomesExhaustive(profiles, parent, stack + [id]);
        ChildInherits(profiles, id, parent);
    }
  }

  // ----- The whole resolution -----

  ghost predicate Lists(order: seq<string>, keys: set<string>) {
    forall id :: id in order <==> id in keys
  }

  type Validator = (string, Fields) -> bool

  /** Every declared profile resolves and is accepted by the fragment validator. */
  ghost predicate Sound(profiles: Profiles, valid: Validator) {
    forall id :: id in profiles ==> Acceptable(profiles, valid, id)
  }

  ghost predicate Acceptable(profiles: Profiles, valid: Validator, id: string) {
    exists value :: IsResolution(profiles, id, value) && valid(id, value)
  }

  /** Provider `name` gets `value`: its own fields over its profile's resolution. */
  ghost predicate IsDeclaration(profiles: Profiles, provider: Fields, value: Fields) {
    match ExtendsValue(provider)
    case Root => value == Own(provider)
    case Extends(id) => exists defaults :: IsResolution(profiles, id, defaults) && value == Merge(defaults, Own(provider))
    case _ => false
  }

  ghost predicate Declarable(profiles: Profiles, provider: Fields) {
    exists value :: IsDeclaration(profiles, provider, value)
  }

  /** The provider itself, over the chain of the profile it extends, reads as `value`. */
  ghost predicate ProviderReads(profiles: Profiles, provider: Fields, value: Fields) {
    match ExtendsValue(provider)
    case Root => Reads([provider], value)
    case Extends(id) =>
      exists chain :: EndsIn(profiles, id, chain, Root) && (forall name :: name in chain ==> name in profiles)
        && Reads([provider] + Written(profiles, chain), value)
    case _ => false
  }

  lemma DeclarationReads(profiles: Profiles, provider: Fields, value: Fields)
    requires IsDeclaration(profiles, provider, value)
    ensures ProviderReads(profiles, provider, value) && "extends" !in value
  {
    hide Reads, Merge, Own, EndsIn, ExtendsValue;
    match ExtendsValue(provider)
    case Root =>
      NothingReads();
      ReadsOver(provider, [], map[]);
      MergeIdentity(Own(provider));
      assert [provider] + [] == [provider];
      NoExtends([provider], value);
    case Extends(id) =>
      var defaults :| IsResolution(profiles, id, defaults) && value == Merge(defaults, Own(provider));
      ResolutionReads(profiles, id, defaults);
      var chain :| EndsIn(profiles, id, chain, Root) && (forall name :: name in chain ==> name in profiles)
        && Reads(Written(profiles, chain), defaults);
      ReadsOver(provider, Written(profiles, chain), defaults);
      NoExtends([provider] + Written(profiles, chain), value);
    case _ =>
  }

  lemma DeclarationUnique(profiles: Profiles, provider: Fields, v: Fields, w: Fields)
    requires IsDeclaration(profiles, provider, v) && IsDeclaration(profiles, provider, w)
    ensures v == w
  {
    if ExtendsValue(provider).Extends? {
      OutcomesExclusive(profiles, ExtendsValue(provider).parent);
    }
  }

  /** One profile of the validation loop: resolved and accepted, or the whole call fails. */
  method CheckProfile(resolver: Resolver, id: string, valid: Validator) returns (error: Option<Error>)
    requires resolver.Valid() && resolver.resolving == []
    modifies resolver
    ensures error == None <==> Acceptable(resolver.profiles, valid, id)
    ensures error == None ==> resolver.Valid() && resolver.resolving == []
    ensures error.Some? && !error.value.Rejected? ==> !error.value.SchemaTooOld? && Reports(resolver.profiles, id, error.value)
    ensures error.Some? && error.value.Rejected? ==> Resolves(resolver.profiles, id) && error.value.id == id
  {
    var r := resolver.Resolve(id);
    OutcomesExclusive(resolver.profiles, id);
    if r.Err? {
      return Some(r.error);
    }
    ResolutionResolves(resolver.profiles, id, r.value);
    if !valid(id, r.value) {
      return Some(Rejected(id));
    }
    return None;
  }

  /** A provider is at fault itself, or the profile it extends is. */
  ghost predicate ProviderReports(profiles: Profiles, name: string, provider: Fields, error: Error) {
    match ExtendsValue(provider)
    case Malformed => error == NotAString(name)
    case Extends(id) => Reports(profiles, id, error)
    case _ => false
  }

  /** `defaults = resolve(profile_id) if profile_id else {}`, then the provider's own fields. */
  method Declare(resolver: Resolver, name: string, provider: Fields) returns (r: Result<Fields, Error>)
    requires resolver.Valid() && resolver.resolving == []
    modifies resolver
    ensures r.Ok? <==> Declarable(resolver.profiles, provider)
    ensures r.Ok? ==> resolver.Valid() && resolver.resolving == [] && IsDeclaration(resolver.profiles, provider, r.value)
    ensures r.Ok? ==> ProviderReads(resolver.profiles, provider, r.value) && "extends" !in r.value
    ensures r.Err? ==> !r.error.SchemaTooOld? && !r.error.Rejected? && ProviderReports(resolver.profiles, name, provider, r.error)
  {
    hide ProviderReads, ProfileReads, Reads;
    match ExtendsValue(provider)
    case Malformed => return Err(NotAString(name));
    case Root =>
      MergeIdentity(Own(provider));
      assert IsDeclaration(resolver.profiles, provider, Own(provider));
      DeclarationReads(resolver.profiles, provider, Own(provider));
      var value := MergeMappings(map[], Own(provider));
      return Ok(value);
    case Extends(id) =>
      var defaults := resolver.Resolve(id);
      OutcomesExclusive(resolver.profiles, id);
      if defaults.Err? {
        return Err(defaults.error);
      }
      var value := MergeMappings(defaults.value, Own(provider));
      assert IsDeclaration(resolver.profiles, provider, value);
      DeclarationReads(resolver.profiles, provider, value);
      return Ok(value);
  }

  /** What is wrong when the whole fails: the schema is too old, or some profile or provider
      is at fault in the way the error says. */
  ghost predicate Blames(
    profiles: Profiles, providers: Profiles, schemaVersion: int, valid: Validator, error: Error)
  {
    match error
    case SchemaTooOld => profiles != map[] && schemaVersion < 3
    case Rejected(id) => id in profiles && Resolves(profiles, id) && !Acceptable(profiles, valid, id)
    case _ =>
      || (exists id :: id in profiles && Reports(profiles, id, error))
      || (exists name :: name in providers && ProviderReports(profiles, name, providers[name], error))
  }

  /** `resolve_provider_mappings`: it succeeds exactly when every profile and every
      provider is in order, and the declarations do not depend on the visiting order. */
  method ResolveProviderMappings(
      profiles: Profiles, profileOrder: seq<string>,
      providers: Profiles, providerOrder: seq<string>,
      schemaVersion: int, valid: Validator)
    returns (r: Result<seq<(string, Fields)>, Error>)
    requires Lists(profileOrder, profiles.Keys) && Lists(providerOrder, providers.Keys)
    ensures r.Ok? <==>
      && (profiles == map[] || schemaVersion >= 3)
      && Sound(profiles, valid)
      && forall name :: name in providers ==> Declarable(profiles, providers[name])
    ensures r.Err? ==> Blames(profiles, providers, schemaVersion, valid, r.error)
    ensures r.Ok? ==> |r.value| == |providerOrder|
    ensures r.Ok? ==> forall i :: 0 <= i < |r.value| ==>
      && r.value[i].0 == providerOrder[i]
      && IsDeclaration(profiles, providers[providerOrder[i]], r.value[i].1)
      && ProviderReads(profiles, providers[providerOrder[i]], r.value[i].1) && "extends" !in r.value[i].1
  {
    hide IsResolution, ExtendsValue, Merge, Reports, ProviderReports, ProviderReads;
    if profiles != map[] && schemaVersion < 3 {
      return Err(SchemaTooOld);
    }
    var resolver := new Resolver(profiles);
    for i := 0 to |profileOrder|
      invariant resolver.Valid() && resolver.resolving == [] && resolver.profiles == profiles
      invariant forall k :: 0 <= k < i ==> Acceptable(profiles, valid, profileOrder[k])
    {
      assert profileOrder[i] in profileOrder;
      var error := CheckProfile(resolver, profileOrder[i], valid);
      if error.Some? {
        return Err(error.value);
      }
    }
    var declarations: seq<(string, Fields)> := [];
    for i := 0 to |providerOrder|
      invariant resolver.Valid() && resolver.resolving == [] && resolver.profiles == profiles
      invariant |declarations| == i
      invariant forall k :: 0 <= k < i ==>
        && providerOrder[k] in providers
        && declarations[k].0 == providerOrder[k]
        && IsDeclaration(profiles, providers[providerOrder[k]], declarations[k].1)
        && ProviderReads(profiles, providers[providerOrder[k]], declarations[k].1) && "extends" !in declarations[k].1
    {
      var name := providerOrder[i];
      assert name in providerOrder;
      var value := Declare(resolver, name, providers[name]);
      if value.Err? {
        return Err(value.error);
      }
      declarations := declarations + [(name, value.value)];
    }
    forall name | name in providers
      ensures Declarable(profiles, providers[name])
    {
      var k :| 0 <= k < |providerOrder| && providerOrder[k] == name;
      assert IsDeclaration(profiles, providers[name], declarations[k].1);
    }
    return Ok(declarations);
  }
}
