/** `_codex_compatible_output_schema` (src/execraft/agents/codex_live.py): a recursive
    rewriting of JSON Schemas, its shape guarantees for every JSON value, and its meaning
    in terms of the instances a schema accepts. */
module OutputSchema {
  import opened Json

  // ----- The transformation -----

  /** `key.startswith("x-")` */
  predicate Extension(key: string) {
    |key| >= 2 && key[0] == 'x' && key[1] == '-'
  }

  predicate Kept(key: string) {
    key != "uniqueItems" && !Extension(key)
  }

  function SchemaType(value: Json): Option<string> {
    match value
    case Bool(_) => Some("boolean")
    case Str(_) => Some("string")
    case Int(_) => Some("integer")
    case Float(_) => Some("number")
    case Null => Some("null")
    case _ => None
  }

  ghost function TypesOf(items: seq<Json>): set<string> {
    set item | item in items && SchemaType(item).Some? :: SchemaType(item).value
  }

  ghost function Only(types: set<string>): string
    requires |types| == 1
    ensures Only(types) in types
  {
    var t :| t in types;
    t
  }

  /** The type the source adds to a node that has none. */
  ghost function InferredType(m: Fields): Option<string> {
    if "type" in m then None
    else if "const" in m then SchemaType(m["const"])
    else if "enum" in m && m["enum"].Arr? && |TypesOf(m["enum"].items)| == 1 then
      Some(Only(TypesOf(m["enum"].items)))
    else None
  }

  ghost function WithType(m: Fields): Fields {
    match InferredType(m)
    case Some(t) => m["type" := Str(t)]
    case None => m
  }

  predicate ObjectLike(m: Fields) {
    || ("type" in m && m["type"] == Str("object"))
    || ("properties" in m && m["properties"].Obj?)
  }

  function Properties(m: Fields): Fields {
    if "properties" in m && m["properties"].Obj? then m["properties"].fields else map[]
  }

  /** A listing of the keys of a dictionary. */
  ghost function Listing(keys: set<string>): seq<string> {
    if keys == {} then []
    else
      var key :| key in keys;
      [key] + Listing(keys - {key})
  }

  ghost function Names(keys: set<string>): seq<Json> {
    seq(|Listing(keys)|, i requires 0 <= i < |Listing(keys)| => Str(Listing(keys)[i]))
  }

  ghost function Close(m: Fields): Fields {
    if ObjectLike(m) then
      m["properties" := Obj(Properties(m))]
       ["additionalProperties" := Bool(false)]
       ["required" := Arr(Names(Properties(m).Keys))]
    else m
  }

  ghost function Compatible(value: Json): Json {
    match value
    case Obj(m) => Obj(Close(WithType(map key | key in m && Kept(key) :: Compatible(m[key]))))
    case Arr(items) => Arr(seq(|items|, i requires 0 <= i < |items| => Compatible(items[i])))
    case _ => value
  }

  ghost function Children(m: Fields): Fields {
    map key | key in m && Kept(key) :: Compatible(m[key])
  }

  // ----- Shape: holds for every JSON value -----

  lemma {:induction false} ListingLists(keys: set<string>)
    ensures forall key :: key in Listing(keys) <==> key in keys
    ensures |Listing(keys)| == |keys|
  {
    if keys != {} {
      var key :| key in keys && Listing(keys) == [key] + Listing(keys - {key});
      ListingLists(keys - {key});
    }
  }

  lemma NamesName(keys: set<string>)
    ensures forall name :: Str(name) in Names(keys) <==> name in keys
    ensures |Names(keys)| == |keys|
    ensures forall item :: item in Names(keys) ==> item.Str?
  {
    ListingLists(keys);
    forall name | name in keys
      ensures Str(name) in Names(keys)
    {
      var i :| 0 <= i < |Listing(keys)| && Listing(keys)[i] == name;
      assert Names(keys)[i] == Str(name);
    }
  }

  /** What the native interface takes for an object node. */
  predicate ObjectNode(m: Fields) {
    || ("type" in m && m["type"] == Str("object"))
    || ("properties" in m && m["properties"].Obj?)
  }

  /** A node the native interface accepts: an object node is closed and requires each of
      its properties once. */
  ghost predicate ClosedNode(m: Fields) {
    ObjectNode(m) ==>
      && "properties" in m && m["properties"].Obj?
      && "additionalProperties" in m && m["additionalProperties"] == Bool(false)
      && "required" in m && m["required"].Arr?
      && |m["required"].items| == |m["properties"].fields|
      && forall name :: Str(name) in m["required"].items <==> name in m["properties"].fields
  }

  /** Keywords the native interface does not know. */
  predicate Unwanted(key: string) {
    key == "uniqueItems" || "x-" <= key
  }

  lemma KeptIsWanted(key: string)
    ensures Kept(key) <==> !Unwanted(key)
  {
  }

  ghost predicate ClosedEverywhere(value: Json) {
    match value
    case Obj(m) =>
      && ClosedNode(m)
      && forall key :: key in m ==>
           !Unwanted(key) && ClosedEverywhere(m[key])
    case Arr(items) => forall item :: item in items ==> ClosedEverywhere(item)
    case _ => true
  }

  lemma CloseIsClosed(typed: Fields)
    requires forall key :: key in typed ==> !Unwanted(key) && ClosedEverywhere(typed[key])
    ensures ClosedEverywhere(Obj(Close(typed)))
  {
    hide Names, Unwanted;
    if ObjectLike(typed) {
      var props, result := Properties(typed), Close(typed);
      NamesName(props.Keys);
      assert |props.Keys| == |props|;
      ClosingKeysWanted();
      PropertiesClosed(typed);
      assert ClosedNode(result);
      forall key | key in result
        ensures !Unwanted(key) && ClosedEverywhere(result[key])
      {
        if key !in {"properties", "additionalProperties", "required"} {
          assert key in typed && result[key] == typed[key];
        }
      }
    }
  }

  lemma ClosingKeysWanted()
    ensures !Unwanted("properties") && !Unwanted("additionalProperties") && !Unwanted("required") && !Unwanted("type")
  {
    assert "properties"[0] != "x-"[0] && "additionalProperties"[0] != "x-"[0] && "required"[0] != "x-"[0] && "type"[0] != "x-"[0];
  }

  lemma PropertiesClosed(typed: Fields)
    requires forall key :: key in typed ==> ClosedEverywhere(typed[key])
    requires forall key :: key in typed ==> !Unwanted(key)
    ensures ClosedEverywhere(Obj(Properties(typed)))
  {
    if "properties" in typed && typed["properties"].Obj? {
      assert ClosedEverywhere(typed["properties"]);
    }
  }

  lemma TypedWanted(m: Fields)
    ensures forall key :: key in WithType(Children(m)) ==> !Unwanted(key)
  {
    hide InferredType, Compatible, Unwanted;
    ClosingKeysWanted();
    forall key | key in Children(m)
      ensures !Unwanted(key)
    {
      KeptIsWanted(key);
    }
  }

  lemma {:induction false} CompatibleIsClosed(value: Json)
    ensures ClosedEverywhere(Compatible(value))
  {
    match value
    case Obj(m) =>
      forall key | key in m {
        CompatibleIsClosed(m[key]);
      }
      var typed := WithType(Children(m));
      TypedWanted(m);
      CloseIsClosed(typed);
      assert Compatible(value) == Obj(Close(typed));
    case Arr(items) =>
      forall i | 0 <= i < |items|
        ensures ClosedEverywhere(Compatible(items[i]))
      {
        CompatibleIsClosed(items[i]);
      }
    case _ =>
  }

  lemma FixedNames(keys: set<string>)
    ensures Compatible(Arr(Names(keys))) == Arr(Names(keys))
  {
  }

  /** Every member is already in its final form. */
  ghost predicate Settled(m: Fields) {
    forall key :: key in m ==> Kept(key) && Compatible(m[key]) == m[key]
  }

  lemma SettledChildren(m: Fields)
    requires Settled(m)
    ensures Compatible(Obj(m)) == Obj(Close(WithType(m)))
  {
    assert Children(m) == m;
  }

  lemma ClosingTwice(m: Fields)
    ensures Close(Close(m)) == Close(m)
  {
  }

  lemma PropertiesFixed(m: Fields)
    requires Settled(m)
    ensures Compatible(Obj(Properties(m))) == Obj(Properties(m))
  {
  }

  lemma ClosingSettles(m: Fields)
    requires Settled(m)
    ensures Settled(Close(m))
  {
    var result := Close(m);
    PropertiesFixed(m);
    FixedNames(Properties(m).Keys);
    forall key | key in result
      ensures Kept(key) && Compatible(result[key]) == result[key]
    {
      if ObjectLike(m) && key in {"properties", "additionalProperties", "required"} {
      } else {
        assert key in m && result[key] == m[key];
      }
    }
  }

  lemma TypingSettles(children: Fields)
    requires Settled(children)
    ensures Settled(WithType(children))
    ensures InferredType(Close(WithType(children))) == None
  {
  }

  lemma {:induction false} CompatibleIdempotent(value: Json)
    ensures Compatible(Compatible(value)) == Compatible(value)
  {
    match value
    case Obj(m) =>
      forall key | key in m {
        CompatibleIdempotent(m[key]);
      }
      var children := Children(m);
      TypingSettles(children);
      ClosingSettles(WithType(children));
      ClosingTwice(WithType(children));
      assert Compatible(value) == Obj(Close(WithType(children)));
      SettledChildren(Close(WithType(children)));
    case Arr(items) =>
      forall i | 0 <= i < |items|
        ensures Compatible(Compatible(items[i])) == Compatible(items[i])
      {
        CompatibleIdempotent(items[i]);
      }
      var result := Compatible(value);
      assert Compatible(result).items == result.items;
    case _ =>
  }

  /** Nothing in the value is there to be rewritten: every mapping keeps its keys, infers no
      type, and is no object node that is not closed already. */
  ghost predicate Untouched(value: Json) {
    match value
    case Obj(m) =>
      && (forall key :: key in m ==> Kept(key) && Untouched(m[key]))
      && InferredType(m) == None
      && (ObjectLike(m) ==>
            && "properties" in m && m["properties"].Obj?
            && "additionalProperties" in m && m["additionalProperties"] == Bool(false)
            && "required" in m && m["required"] == Arr(Names(Properties(m).Keys)))
    case Arr(items) => forall item :: item in items ==> Untouched(item)
    case _ => true
  }

  lemma FixedNode(m: Fields)
    ensures Compatible(Obj(m)) == Obj(m) <==> Settled(m) && InferredType(m) == None && Close(m) == m
  {
    hide Compatible, Close, Settled;
    var children := Children(m);
    CompatibleNode(m);
    if Compatible(Obj(m)) == Obj(m) {
      SettledMembers(m);
      TypingSettles(children);
      ClosingSettles(WithType(children));
      ClosingTwice(WithType(children));
    } else if Settled(m) {
      SettledChildren(m);
    }
  }

  lemma SettledMembers(m: Fields)
    ensures Settled(Children(m))
  {
    forall key | key in m {
      CompatibleIdempotent(m[key]);
    }
  }

  lemma ClosedAlready(m: Fields)
    ensures Close(m) == m <==>
      (ObjectLike(m) ==>
         && "properties" in m && m["properties"].Obj?
         && "additionalProperties" in m && m["additionalProperties"] == Bool(false)
         && "required" in m && m["required"] == Arr(Names(Properties(m).Keys)))
  {
    hide Names;
    if ObjectLike(m) && Close(m) == m {
      assert Close(m)["properties"].Obj? && Close(m)["additionalProperties"] == Bool(false);
      assert Close(m)["required"] == Arr(Names(Properties(m).Keys));
    }
  }

  /** The transformation leaves exactly those values alone. */
  lemma {:induction false} FixedExactly(value: Json)
    ensures Compatible(value) == value <==> Untouched(value)
  {
    match value
    case Obj(m) =>
      hide Compatible, InferredType, Close, ObjectLike;
      forall key | key in m {
        FixedExactly(m[key]);
      }
      FixedNode(m);
      ClosedAlready(m);
      FixedMembers(m);
    case Arr(items) =>
      hide Compatible;
      forall i | 0 <= i < |items| {
        FixedExactly(items[i]);
      }
      FixedItems(items);
    case _ =>
  }

  lemma FixedMembers(m: Fields)
    requires forall key :: key in m ==> (Compatible(m[key]) == m[key] <==> Untouched(m[key]))
    ensures Settled(m) <==> forall key :: key in m ==> Kept(key) && Untouched(m[key])
  {
    hide Compatible, Untouched;
  }

  lemma FixedItems(items: seq<Json>)
    ensures Compatible(Arr(items)) == Arr(items) <==> forall i :: 0 <= i < |items| ==> Compatible(items[i]) == items[i]
  {
    var result := Compatible(Arr(items));
    assert |result.items| == |items| && forall i :: 0 <= i < |items| ==> result.items[i] == Compatible(items[i]);
  }

  // ----- Meaning: what an instance must satisfy -----

  predicate JsonEqual(a: Json, b: Json) {
    match (a, b)
    case (Int(i), Float(r)) => i as real == r
    case (Float(r), Int(i)) => i as real == r
    case (Arr(xs), Arr(ys)) => |xs| == |ys| && forall i :: 0 <= i < |xs| ==> JsonEqual(xs[i], ys[i])
    case (Obj(m), Obj(n)) => m.Keys == n.Keys && forall key :: key in m ==> JsonEqual(m[key], n[key])
    case _ => a == b
  }

  predicate HasType(name: string, instance: Json) {
    match instance
    case Null => name == "null"
    case Bool(_) => name == "boolean"
    case Int(_) => name == "integer" || name == "number"
    case Float(r) => name == "number" || (name == "integer" && r == r.Floor as real)
    case Str(_) => name == "string"
    case Arr(_) => name == "array"
    case Obj(_) => name == "object"
  }

  predicate AllowsType(declared: Json, instance: Json) {
    match declared
    case Str(name) => HasType(name, instance)
    case Arr(names) => exists name :: name in names && name.Str? && HasType(name.s, instance)
    case _ => false
  }

  const SPELLED: set<string> := {
    "type", "const", "enum", "uniqueItems", "properties", "required",
    "additionalProperties", "items", "anyOf", "allOf"
  }

  /** Any further assertion keyword (`minLength`, `pattern`, `minimum`, ...), as a parameter. */
  type Keyword = (string, Json, Json) -> bool

  /** The assertions that do not apply a subschema. */
  ghost predicate Asserted(other: Keyword, m: Fields, instance: Json) {
    && ("type" in m ==> AllowsType(m["type"], instance))
    && ("const" in m ==> JsonEqual(m["const"], instance))
    && ("enum" in m && m["enum"].Arr? ==> exists item :: item in m["enum"].items && JsonEqual(item, instance))
    && ("uniqueItems" in m && m["uniqueItems"] == Bool(true) && instance.Arr? ==>
        forall i, j :: 0 <= i < j < |instance.items| ==> !JsonEqual(instance.items[i], instance.items[j]))
    && (forall key :: key in m && key !in SPELLED && !Extension(key) ==> other(key, m[key], instance))
  }

  ghost predicate RequiredPresent(m: Fields, instance: Json) {
    "required" in m && m["required"].Arr? && instance.Obj? ==>
      forall name :: Str(name) in m["required"].items ==> name in instance.fields
  }

  /** `Plain` is JSON Schema. `Native` reads the same schema as Codex does: an object
      node lists exactly the members of the object, and a missing type is inferred. */
  datatype Reading = Plain | Native

  ghost predicate NativeNode(m: Fields, instance: Json) {
    && (ObjectLike(m) && instance.Obj? ==> instance.fields.Keys == Properties(m).Keys)
    && (InferredType(m).Some? ==> HasType(InferredType(m).value, instance))
  }

  predicate Sealed(reading: Reading, m: Fields) {
    reading.Native? && ObjectLike(m)
  }

  ghost predicate Accepts(reading: Reading, other: Keyword, schema: Json, instance: Json)
    decreases schema
  {
    match schema
    case Bool(b) => b
    case Obj(m) =>
      && Asserted(other, m, instance)
      && (reading.Native? ==> NativeNode(m, instance))
      && (Sealed(reading, m) || RequiredPresent(m, instance))
      && (!Sealed(reading, m) && "additionalProperties" in m && instance.Obj? ==>
          forall name :: name in instance.fields && name !in Properties(m) ==>
            Accepts(reading, other, m["additionalProperties"], instance.fields[name]))
      && ("properties" in m && m["properties"].Obj? && instance.Obj? ==>
          forall name :: name in m["properties"].fields && name in instance.fields ==>
            Accepts(reading, other, m["properties"].fields[name], instance.fields[name]))
      && ("items" in m && instance.Arr? ==>
          forall item :: item in instance.items ==> Accepts(reading, other, m["items"], item))
      && ("anyOf" in m && m["anyOf"].Arr? ==>
          exists i :: 0 <= i < |m["anyOf"].items| && Accepts(reading, other, m["anyOf"].items[i], instance))
      && ("allOf" in m && m["allOf"].Arr? ==>
          forall i :: 0 <= i < |m["allOf"].items| ==> Accepts(reading, other, m["allOf"].items[i], instance))
    case _ => false
  }

  /** Property names that the transformation does not mistake for keywords. */
  predicate PlainName(name: string) {
    Kept(name) && name != "properties" && name != "const"
  }

  /** The schemas the meaning results are about. Literals must hold nothing to rewrite, since
      the transformation also descends into `const` and `enum`. */
  ghost predicate Supported(schema: Json) {
    match schema
    case Bool(_) => true
    case Obj(m) =>
      && "uniqueItems" !in m
      && (forall key :: key in m && Literal(key) ==> Untouched(m[key]))
      && ("properties" in m ==> m["properties"].Obj?)
      && (forall name :: name in Properties(m) ==> PlainName(name) && Supported(Properties(m)[name]))
      && ("additionalProperties" in m ==> Supported(m["additionalProperties"]))
      && ("items" in m ==> Supported(m["items"]))
      && ("anyOf" in m ==> m["anyOf"].Arr? && forall s :: s in m["anyOf"].items ==> Supported(s))
      && ("allOf" in m ==> m["allOf"].Arr? && forall s :: s in m["allOf"].items ==> Supported(s))
    case _ => false
  }

  /** Keywords whose value is not a schema. */
  predicate Literal(key: string) {
    key in {"type", "const", "enum", "required"} || (key !in SPELLED && !Extension(key))
  }

  /** At every object node the required names are declared. */
  ghost predicate RequiresDeclared(schema: Json) {
    match schema
    case Obj(m) =>
      && (ObjectLike(m) && "required" in m && m["required"].Arr? ==>
          forall name :: Str(name) in m["required"].items ==> name in Properties(m))
      && (forall name :: name in Properties(m) ==> RequiresDeclared(Properties(m)[name]))
      && ("additionalProperties" in m ==> RequiresDeclared(m["additionalProperties"]))
      && ("items" in m ==> RequiresDeclared(m["items"]))
      && ("anyOf" in m && m["anyOf"].Arr? ==> forall s :: s in m["anyOf"].items ==> RequiresDeclared(s))
      && ("allOf" in m && m["allOf"].Arr? ==> forall s :: s in m["allOf"].items ==> RequiresDeclared(s))
    case _ => true
  }

  // ----- What the transformation makes of a supported node -----

  ghost function Node(m: Fields): Fields {
    Close(WithType(Children(m)))
  }

  lemma CompatibleNode(m: Fields)
    ensures Compatible(Obj(m)) == Obj(Node(m))
  {
  }

  /** The property table comes through name by name. */
  lemma PropertyTable(table: Fields)
    requires forall name :: name in table ==> PlainName(name) && Supported(table[name])
    ensures Compatible(Obj(table)) == Obj(map name | name in table :: Compatible(table[name]))
  {
  }

  lemma NeverInfersObject(m: Fields)
    ensures InferredType(m) != Some("object")
  {
  }

  lemma ChildrenKeepLiterals(m: Fields)
    requires Supported(Obj(m))
    ensures forall key :: key in m && Literal(key) ==> key in Children(m) && Children(m)[key] == m[key]
    ensures InferredType(Children(m)) == InferredType(m)
    ensures ObjectLike(WithType(Children(m))) == ObjectLike(m)
    ensures ObjectLike(Children(m)) == ObjectLike(m)
  {
    NeverInfersObject(m);
    forall key | key in m && Literal(key) {
      FixedExactly(m[key]);
    }
    assert Literal("type") && Literal("const") && Literal("enum");
    assert "type" in Children(m) <==> "type" in m;
    assert "const" in Children(m) <==> "const" in m;
    assert "enum" in Children(m) <==> "enum" in m;
    if "properties" in m {
      CompatibleNode(m["properties"].fields);
    }
  }

  lemma NodeProperties(m: Fields)
    requires Supported(Obj(m))
    ensures Properties(Node(m)) == map name | name in Properties(m) :: Compatible(Properties(m)[name])
    ensures "properties" in m ==> "properties" in Node(m) && Node(m)["properties"].Obj?
  {
    hide Names, InferredType;
    ChildrenKeepLiterals(m);
    if "properties" in m {
      assert Properties(m) == m["properties"].fields;
      PropertyTable(Properties(m));
      assert Children(m)["properties"] == Compatible(m["properties"]);
    } else {
      assert "properties" !in Children(m);
    }
    assert Properties(Node(m)) == Properties(WithType(Children(m)));
  }

  lemma NodeLiterals(m: Fields)
    requires Supported(Obj(m))
    ensures forall key :: key in m && Literal(key) && (key == "required" ==> !ObjectLike(m)) ==>
      key in Node(m) && Node(m)[key] == m[key]
    ensures forall key :: key in Node(m) && Literal(key) && key != "required" && key != "type" ==> key in m
    ensures "uniqueItems" !in Node(m)
  {
    hide Compatible, Names, Untouched;
    ChildrenKeepLiterals(m);
    assert forall key :: key in Children(m) ==> key in m && Kept(key);
  }

  lemma NodeKeys(m: Fields)
    requires Supported(Obj(m))
    ensures forall key :: key in m && Literal(key) && (key == "required" ==> !ObjectLike(m)) ==>
      key in Node(m) && Node(m)[key] == m[key]
    ensures forall key :: key in Node(m) && Literal(key) && key != "required" && key != "type" ==> key in m
    ensures "uniqueItems" !in Node(m)
    ensures "type" in Node(m) <==> "type" in m || InferredType(m).Some?
    ensures "type" !in m && InferredType(m).Some? ==> Node(m)["type"] == Str(InferredType(m).value)
    ensures !ObjectLike(m) ==> ("required" in Node(m) <==> "required" in m)
  {
    hide Compatible, Names, InferredType, Supported, Literal;
    NodeLiterals(m);
    ChildrenKeepLiterals(m);
    assert "type" in Children(m) <==> "type" in m;
  }

  lemma NodeSubschemas(m: Fields, key: string)
    requires Supported(Obj(m))
    requires key in {"items", "anyOf", "allOf"} || (key == "additionalProperties" && !ObjectLike(m))
    ensures key in Node(m) <==> key in m
    ensures key in m ==> Node(m)[key] == Compatible(m[key])
  {
    ChildrenKeepLiterals(m);
    assert Kept(key);
  }

  lemma NodeAssertions(other: Keyword, m: Fields, instance: Json)
    requires Supported(Obj(m))
    ensures Asserted(other, Node(m), instance)
       <==> Asserted(other, m, instance)
            && (InferredType(m).Some? ==> HasType(InferredType(m).value, instance))
  {
    hide Node, Compatible, JsonEqual, HasType, Untouched;
    NodeKeys(m);
    var q := Node(m);
    assert Literal("const") && Literal("enum") && Literal("type");
    assert forall key :: key !in SPELLED && !Extension(key) ==> Literal(key) && key != "required" && key != "type";
  }

  lemma NodeObjects(other: Keyword, m: Fields, instance: Json)
    requires Supported(Obj(m)) && ObjectLike(m) && instance.Obj?
    ensures "additionalProperties" in Node(m) && Node(m)["additionalProperties"] == Bool(false)
    ensures (RequiredPresent(Node(m), instance)
             && forall name :: name in instance.fields ==> name in Properties(Node(m)))
       <==> instance.fields.Keys == Properties(m).Keys
  {
    hide Compatible, Accepts, Supported, Listing, InferredType, WithType, Children;
    ChildrenKeepLiterals(m);
    NodeProperties(m);
    NamesName(Properties(m).Keys);
    var q := Node(m);
    assert Properties(q).Keys == Properties(m).Keys;
    assert q["required"] == Arr(Names(Properties(m).Keys));
    assert RequiredPresent(q, instance) <==> forall name :: name in Properties(m) ==> name in instance.fields;
  }

  // One lemma per applicator: if the subschemas mean the same, so do the clauses.

  ghost predicate Agree(other: Keyword, schema: Json, instance: Json) {
    Accepts(Plain, other, Compatible(schema), instance) <==> Accepts(Native, other, schema, instance)
  }

  ghost predicate PropertiesAccept(reading: Reading, other: Keyword, m: Fields, instance: Json) {
    "properties" in m && m["properties"].Obj? && instance.Obj? ==>
      forall name :: name in m["properties"].fields && name in instance.fields ==>
        Accepts(reading, other, m["properties"].fields[name], instance.fields[name])
  }

  ghost predicate AdditionalAccept(reading: Reading, other: Keyword, m: Fields, instance: Json) {
    !Sealed(reading, m) && "additionalProperties" in m && instance.Obj? ==>
      forall name :: name in instance.fields && name !in Properties(m) ==>
        Accepts(reading, other, m["additionalProperties"], instance.fields[name])
  }

  ghost predicate ItemsAccept(reading: Reading, other: Keyword, m: Fields, instance: Json) {
    "items" in m && instance.Arr? ==>
      forall item :: item in instance.items ==> Accepts(reading, other, m["items"], item)
  }

  ghost predicate ChoicesAccept(reading: Reading, other: Keyword, m: Fields, instance: Json) {
    && ("anyOf" in m && m["anyOf"].Arr? ==>
        exists i :: 0 <= i < |m["anyOf"].items| && Accepts(reading, other, m["anyOf"].items[i], instance))
    && ("allOf" in m && m["allOf"].Arr? ==>
        forall i :: 0 <= i < |m["allOf"].items| ==> Accepts(reading, other, m["allOf"].items[i], instance))
  }

  lemma AcceptsByClauses(reading: Reading, other: Keyword, m: Fields, instance: Json)
    ensures Accepts(reading, other, Obj(m), instance)
       <==> && Asserted(other, m, instance)
            && (reading.Native? ==> NativeNode(m, instance))
            && (Sealed(reading, m) || RequiredPresent(m, instance))
            && AdditionalAccept(reading, other, m, instance)
            && PropertiesAccept(reading, other, m, instance)
            && ItemsAccept(reading, other, m, instance)
            && ChoicesAccept(reading, other, m, instance)
  {
  }

  lemma PropertiesAgree(other: Keyword, m: Fields, instance: Json)
    requires Supported(Obj(m))
    requires instance.Obj? ==>
      forall name :: name in Properties(m) && name in instance.fields ==>
        Agree(other, Properties(m)[name], instance.fields[name])
    ensures PropertiesAccept(Plain, other, Node(m), instance) <==> PropertiesAccept(Native, other, m, instance)
  {
    NodeProperties(m);
    var q := Node(m);
    if instance.Obj? && "properties" in m {
      assert Properties(q) == q["properties"].fields && Properties(m) == m["properties"].fields;
      forall name | name in Properties(m) && name in instance.fields
        ensures Accepts(Plain, other, Properties(q)[name], instance.fields[name])
           <==> Accepts(Native, other, Properties(m)[name], instance.fields[name])
      {
        assert Agree(other, Properties(m)[name], instance.fields[name]);
      }
    }
  }

  lemma ObjectsAgree(other: Keyword, m: Fields, instance: Json)
    requires Supported(Obj(m))
    requires instance.Obj? && "additionalProperties" in m && !ObjectLike(m) ==>
      forall name :: name in instance.fields ==> Agree(other, m["additionalProperties"], instance.fields[name])
    ensures RequiredPresent(Node(m), instance) && AdditionalAccept(Plain, other, Node(m), instance)
       <==> && (Sealed(Native, m) || RequiredPresent(m, instance))
            && AdditionalAccept(Native, other, m, instance)
            && (ObjectLike(m) && instance.Obj? ==> instance.fields.Keys == Properties(m).Keys)
  {
    NodeProperties(m);
    NodeKeys(m);
    if ObjectLike(m) && instance.Obj? {
      NodeObjects(other, m, instance);
    } else if !ObjectLike(m) {
      NodeSubschemas(m, "additionalProperties");
      assert Properties(Node(m)).Keys == Properties(m).Keys;
      assert Literal("required");
    }
  }

  lemma ItemsAgree(other: Keyword, m: Fields, instance: Json)
    requires Supported(Obj(m))
    requires instance.Arr? && "items" in m ==>
      forall item :: item in instance.items ==> Agree(other, m["items"], item)
    ensures ItemsAccept(Plain, other, Node(m), instance) <==> ItemsAccept(Native, other, m, instance)
  {
  }

  lemma ChoicesAgree(other: Keyword, m: Fields, instance: Json)
    requires Supported(Obj(m))
    requires "anyOf" in m ==> forall i :: 0 <= i < |m["anyOf"].items| ==> Agree(other, m["anyOf"].items[i], instance)
    requires "allOf" in m ==> forall i :: 0 <= i < |m["allOf"].items| ==> Agree(other, m["allOf"].items[i], instance)
    ensures ChoicesAccept(Plain, other, Node(m), instance) <==> ChoicesAccept(Native, other, m, instance)
  {
    hide Accepts, Close, WithType, Properties;
    NodeSubschemas(m, "anyOf");
    NodeSubschemas(m, "allOf");
    var q := Node(m);
    if "anyOf" in m {
      var xs, ys := m["anyOf"].items, q["anyOf"].items;
      assert |xs| == |ys| && forall i :: 0 <= i < |xs| ==> ys[i] == Compatible(xs[i]) && Agree(other, xs[i], instance);
    }
    if "allOf" in m {
      var xs, ys := m["allOf"].items, q["allOf"].items;
      assert |xs| == |ys| && forall i :: 0 <= i < |xs| ==> ys[i] == Compatible(xs[i]) && Agree(other, xs[i], instance);
    }
  }

  /** The transformed schema means exactly what the native reading of the original says. */
  lemma {:induction false} TransformedMeansNative(other: Keyword, schema: Json, instance: Json)
    requires Supported(schema)
    ensures Agree(other, schema, instance)
    decreases schema
  {
    if schema.Obj? {
      var m := schema.fields;
      if instance.Obj? {
        forall name | name in Properties(m) && name in instance.fields {
          TransformedMeansNative(other, Properties(m)[name], instance.fields[name]);
        }
        if "additionalProperties" in m {
          forall name | name in instance.fields {
            TransformedMeansNative(other, m["additionalProperties"], instance.fields[name]);
          }
        }
      } else if instance.Arr? && "items" in m {
        forall item | item in instance.items {
          TransformedMeansNative(other, m["items"], item);
        }
      }
      forall key, i | key in {"anyOf", "allOf"} && key in m && 0 <= i < |m[key].items| {
        TransformedMeansNative(other, m[key].items[i], instance);
      }
      PropertiesAgree(other, m, instance);
      ObjectsAgree(other, m, instance);
      ItemsAgree(other, m, instance);
      ChoicesAgree(other, m, instance);
      NodeAssertions(other, m, instance);
      CompatibleNode(m);
      AcceptsByClauses(Plain, other, Node(m), instance);
      AcceptsByClauses(Native, other, m, instance);
    }
  }

  /** An object the native reading takes has its required members, and no undeclared one. */
  lemma NativeObjects(m: Fields, instance: Json)
    requires RequiresDeclared(Obj(m)) && NativeNode(m, instance)
    requires Sealed(Native, m) || RequiredPresent(m, instance)
    ensures RequiredPresent(m, instance)
    ensures ObjectLike(m) && instance.Obj? ==> forall name :: name in instance.fields ==> name in Properties(m)
  {
    hide InferredType;
  }

  ghost predicate Stronger(other: Keyword, schema: Json, instance: Json) {
    Accepts(Native, other, schema, instance) ==> Accepts(Plain, other, schema, instance)
  }

  lemma ObjectsStronger(other: Keyword, m: Fields, instance: Json)
    requires instance.Obj? ==>
      forall name :: name in Properties(m) && name in instance.fields ==> Stronger(other, Properties(m)[name], instance.fields[name])
    requires instance.Obj? && "additionalProperties" in m && !ObjectLike(m) ==>
      forall name :: name in instance.fields ==> Stronger(other, m["additionalProperties"], instance.fields[name])
    requires ObjectLike(m) && instance.Obj? ==> forall name :: name in instance.fields ==> name in Properties(m)
    ensures PropertiesAccept(Native, other, m, instance) ==> PropertiesAccept(Plain, other, m, instance)
    ensures AdditionalAccept(Native, other, m, instance) ==> AdditionalAccept(Plain, other, m, instance)
  {
    hide Accepts;
  }

  lemma ListsStronger(other: Keyword, m: Fields, instance: Json)
    requires instance.Arr? && "items" in m ==> forall item :: item in instance.items ==> Stronger(other, m["items"], item)
    requires forall key, i :: key in {"anyOf", "allOf"} && key in m && m[key].Arr? && 0 <= i < |m[key].items| ==>
      Stronger(other, m[key].items[i], instance)
    ensures ItemsAccept(Native, other, m, instance) ==> ItemsAccept(Plain, other, m, instance)
    ensures ChoicesAccept(Native, other, m, instance) ==> ChoicesAccept(Plain, other, m, instance)
  {
    hide Accepts;
  }

  /** The native reading is never more permissive than JSON Schema's. */
  lemma {:induction false} NativeIsStronger(other: Keyword, schema: Json, instance: Json)
    requires Supported(schema) && RequiresDeclared(schema)
    ensures Stronger(other, schema, instance)
    decreases schema
  {
    hide Untouched, Asserted, NativeNode, Literal, PlainName, RequiredPresent;
    if schema.Obj? && Accepts(Native, other, schema, instance) {
      var m := schema.fields;
      if instance.Obj? {
        forall name | name in Properties(m) && name in instance.fields {
          NativeIsStronger(other, Properties(m)[name], instance.fields[name]);
        }
        if "additionalProperties" in m {
          forall name | name in instance.fields {
            NativeIsStronger(other, m["additionalProperties"], instance.fields[name]);
          }
        }
      } else if instance.Arr? && "items" in m {
        forall item | item in instance.items {
          NativeIsStronger(other, m["items"], item);
        }
      }
      forall key, i | key in {"anyOf", "allOf"} && key in m && 0 <= i < |m[key].items| {
        NativeIsStronger(other, m[key].items[i], instance);
      }
      AcceptsByClauses(Native, other, m, instance);
      AcceptsByClauses(Plain, other, m, instance);
      NativeObjects(m, instance);
      ObjectsStronger(other, m, instance);
      ListsStronger(other, m, instance);
    }
  }

  /** The transformation only ever strengthens a supported schema. */
  lemma TransformationStrengthens(other: Keyword, schema: Json, instance: Json)
    requires Supported(schema) && RequiresDeclared(schema)
    requires Accepts(Plain, other, Compatible(schema), instance)
    ensures Accepts(Plain, other, schema, instance)
  {
    TransformedMeansNative(other, schema, instance);
    NativeIsStronger(other, schema, instance);
  }

  /** An inferred type excludes no instance equal to the `const`, and no member of the
      `enum` exactly when the `enum` holds no array and no object. */
  lemma InferenceExcludes(m: Fields)
    requires InferredType(m).Some?
    ensures "const" in m ==>
      forall instance :: JsonEqual(m["const"], instance) ==> HasType(InferredType(m).value, instance)
    ensures "const" !in m ==>
      ((forall item :: item in m["enum"].items ==> HasType(InferredType(m).value, item))
       <==> forall item :: item in m["enum"].items ==> SchemaType(item).Some?)
  {
    var t := InferredType(m).value;
    NeverInfersObject(m);
    if "const" !in m {
      var types := TypesOf(m["enum"].items);
      forall other | other in types
        ensures other == t
      {
        OnlyMember(types, t, other);
      }
      forall item | item in m["enum"].items && SchemaType(item).Some?
        ensures HasType(t, item)
      {
        assert SchemaType(item).value in types;
      }
      assert t != "array" by {
        assert t in types;
      }
    }
  }

  /** The name of the scalar type of a JSON value. */
  predicate ScalarOf(value: Json, name: string) {
    match value
    case Null => name == "null"
    case Bool(_) => name == "boolean"
    case Int(_) => name == "integer"
    case Float(_) => name == "number"
    case Str(_) => name == "string"
    case Arr(_) => false
    case Obj(_) => false
  }

  /** A type is inferred exactly for a node without one whose `const` is a scalar, or that has no
      `const` and an `enum` whose scalars are all of one type, of which there is at least one. */
  lemma InferredExactly(m: Fields, name: string)
    ensures InferredType(m) == Some(name) <==>
      && "type" !in m
      && if "const" in m then ScalarOf(m["const"], name)
         else "enum" in m && m["enum"].Arr?
              && (exists item :: item in m["enum"].items && ScalarOf(item, name))
              && forall item, other :: item in m["enum"].items && ScalarOf(item, other) ==> other == name
  {
    if "type" !in m && "const" !in m && "enum" in m && m["enum"].Arr? {
      EnumTypes(m["enum"].items, name);
    }
  }

  ghost predicate SomeScalar(items: seq<Json>, name: string) {
    exists item :: item in items && ScalarOf(item, name)
  }

  lemma TypesAreScalars(items: seq<Json>, name: string)
    ensures name in TypesOf(items) <==> SomeScalar(items, name)
  {
    forall item
      ensures ScalarOf(item, name) <==> SchemaType(item) == Some(name)
    {
    }
  }

  lemma EnumTypes(items: seq<Json>, name: string)
    ensures (|TypesOf(items)| == 1 && Only(TypesOf(items)) == name) <==>
      && (exists item :: item in items && ScalarOf(item, name))
      && forall item, other :: item in items && ScalarOf(item, other) ==> other == name
  {
    hide TypesOf, ScalarOf;
    var types := TypesOf(items);
    forall other: string
      ensures other in types <==> SomeScalar(items, other)
    {
      TypesAreScalars(items, other);
    }
    if SomeScalar(items, name) && forall item, other :: item in items && ScalarOf(item, other) ==> other == name {
      assert types == {name};
    }
    if |types| == 1 && Only(types) == name {
      assert SomeScalar(items, name);
      forall item, other | item in items && ScalarOf(item, other)
        ensures other == name
      {
        assert SomeScalar(items, other);
        OnlyMember(types, name, other);
      }
    }
  }

  lemma OnlyMember(types: set<string>, t: string, other: string)
    requires |types| == 1 && t in types && other in types
    ensures t == other
  {
    assert |types - {t}| == 0;
    assert types == {t};
  }

  // ----- Why each condition is there -----

  /** A literal object inside `const` is rewritten as if it were a schema. */
  lemma LiteralIsRewritten(other: Keyword)
    ensures
      var schema := Obj(map["const" := Obj(map["x-a" := Int(1)])]);
      && Accepts(Plain, other, Compatible(schema), Obj(map[]))
      && !Accepts(Plain, other, schema, Obj(map[]))
  {
    hide Names, Accepts;
    var literal: Fields := map["x-a" := Int(1)];
    var m: Fields := map["const" := Obj(literal)];
    assert Children(literal) == map[];
    assert Compatible(Obj(literal)) == Obj(map[]);
    assert Children(m) == map["const" := Obj(map[])];
    assert Compatible(Obj(m)) == Obj(map["const" := Obj(map[])]);
    assert "x-a" in literal;
    assert !JsonEqual(Obj(literal), Obj(map[]));
    AcceptsByClauses(Plain, other, m, Obj(map[]));
    AcceptsByClauses(Plain, other, map["const" := Obj(map[])], Obj(map[]));
  }

  /** A required name that is not a declared property is forgotten. */
  lemma UndeclaredRequirementIsLost(other: Keyword)
    ensures
      var schema := Obj(map["properties" := Obj(map[]), "required" := Arr([Str("a")])]);
      && Accepts(Plain, other, Compatible(schema), Obj(map[]))
      && !Accepts(Plain, other, schema, Obj(map[]))
  {
    hide Compatible, Accepts, Supported, Agree;
    var m: Fields := map["properties" := Obj(map[]), "required" := Arr([Str("a")])];
    RequiringA();
    TransformedMeansNative(other, Obj(m), Obj(map[]));
    AcceptsByClauses(Native, other, m, Obj(map[]));
    RequiredIsMissing(other, m, "a");
  }

  lemma RequiringA()
    ensures Supported(Obj(map["properties" := Obj(map[]), "required" := Arr([Str("a")])]))
  {
  }

  /** `uniqueItems` is dropped. */
  lemma UniqueItemsIsLost(other: Keyword)
    ensures
      var schema := Obj(map["uniqueItems" := Bool(true)]);
      && Accepts(Plain, other, Compatible(schema), Arr([Null, Null]))
      && !Accepts(Plain, other, schema, Arr([Null, Null]))
  {
    var m: Fields := map["uniqueItems" := Bool(true)];
    assert Children(m) == map[];
    assert Compatible(Obj(m)) == Obj(map[]);
    var items := [Null, Null];
    assert JsonEqual(items[0], items[1]);
    assert !Asserted(other, m, Arr(items));
  }

  lemma DroppedName(m: Fields, bare: Fields)
    requires m == map["properties" := Obj(map["x-a" := Bool(true)]), "required" := Arr([Str("x-a")])]
    requires bare == map["properties" := Obj(map[]), "required" := Arr([Str("a")])]
    ensures Properties(Children(m)) == map[] == Properties(Children(bare))
  {
    var table: Fields, empty: Fields := map["x-a" := Bool(true)], map[];
    assert Extension("x-a");
    assert Children(table) == map[] == Children(empty);
    CompatibleNode(table);
    CompatibleNode(empty);
  }

  lemma SameOnceClosed(m: Fields, bare: Fields)
    requires m.Keys == bare.Keys == {"properties", "required"}
    requires Children(m)["properties"].Obj? && Children(bare)["properties"].Obj?
    requires Properties(Children(m)) == Properties(Children(bare))
    ensures Node(m) == Node(bare)
  {
    hide Compatible, Names;
    assert InferredType(Children(m)) == None == InferredType(Children(bare));
    assert Node(m).Keys == {"properties", "required", "additionalProperties"} == Node(bare).Keys;
  }

  /** A required property whose name looks like an extension is dropped, and forgotten. */
  lemma ExtensionNameIsLost(other: Keyword)
    ensures
      var schema := Obj(map["properties" := Obj(map["x-a" := Bool(true)]), "required" := Arr([Str("x-a")])]);
      && Accepts(Plain, other, Compatible(schema), Obj(map[]))
      && !Accepts(Plain, other, schema, Obj(map[]))
  {
    hide Accepts, Names, Compatible, Node, Properties;
    var m: Fields := map["properties" := Obj(map["x-a" := Bool(true)]), "required" := Arr([Str("x-a")])];
    var bare: Fields := map["properties" := Obj(map[]), "required" := Arr([Str("a")])];
    DroppedName(m, bare);
    CompatibleNode(map["x-a" := Bool(true)]);
    CompatibleNode(map[]);
    SameOnceClosed(m, bare);
    CompatibleNode(m);
    CompatibleNode(bare);
    UndeclaredRequirementIsLost(other);
    RequiredIsMissing(other, m, "x-a");
  }

  lemma RequiredIsMissing(other: Keyword, m: Fields, name: string)
    requires "required" in m && m["required"] == Arr([Str(name)])
    ensures !Accepts(Plain, other, Obj(m), Obj(map[]))
  {
    hide Accepts;
    AcceptsByClauses(Plain, other, m, Obj(map[]));
    assert m["required"].items[0] == Str(name);
    assert !RequiredPresent(m, Obj(map[]));
  }

  /** A property table to which the transformation adds an entry asks for a member more. */
  lemma GrownTable(other: Keyword, table: Fields, extra: string, instance: Fields)
    requires extra in Node(table) && extra !in instance
    ensures !Accepts(Plain, other, Compatible(Obj(map["properties" := Obj(table)])), Obj(instance))
  {
    hide Accepts, Names;
    var m: Fields := map["properties" := Obj(table)];
    CompatibleNode(table);
    CompatibleNode(m);
    assert Children(m)["properties"] == Obj(Node(table)) && InferredType(Children(m)) == None;
    NamesName(Node(table).Keys);
    AcceptsByClauses(Plain, other, Node(m), Obj(instance));
    assert Node(m)["required"] == Arr(Names(Node(table).Keys)) && !RequiredPresent(Node(m), Obj(instance));
  }

  lemma OneProperty(other: Keyword, name: string, schema: Json, value: Json)
    requires Accepts(Native, other, schema, value)
    ensures Accepts(Native, other, Obj(map["properties" := Obj(map[name := schema])]), Obj(map[name := value]))
  {
    hide Accepts;
    var m: Fields := map["properties" := Obj(map[name := schema])];
    AcceptsByClauses(Native, other, m, Obj(map[name := value]));
  }

  lemma ConstantTable()
    ensures "type" in Node(map["const" := Bool(true)])
  {
    var table: Fields := map["const" := Bool(true)];
    assert Children(table) == table;
  }

  lemma NestedTable()
    ensures "required" in Node(map["properties" := Obj(map[])])
  {
    var table: Fields := map["properties" := Obj(map[])];
    CompatibleNode(map[]);
    assert "properties" in Children(table) && Children(table)["properties"].Obj?;
    assert InferredType(Children(table)) == None;
  }

  /** Properties called "const" and "properties" are mistaken for keywords. */
  lemma KeywordNamesAreMistaken(other: Keyword)
    ensures !Agree(other, Obj(map["properties" := Obj(map["const" := Bool(true)])]), Obj(map["const" := Null]))
    ensures !Agree(other, Obj(map["properties" := Obj(map["properties" := Obj(map[])])]), Obj(map["properties" := Null]))
  {
    ConstantTable();
    NestedTable();
    AcceptsByClauses(Native, other, map[], Null);
    hide Compatible, Node;
    GrownTable(other, map["const" := Bool(true)], "type", map["const" := Null]);
    GrownTable(other, map["properties" := Obj(map[])], "required", map["properties" := Null]);
    OneProperty(other, "const", Bool(true), Null);
    OneProperty(other, "properties", Obj(map[]), Null);
  }
}
