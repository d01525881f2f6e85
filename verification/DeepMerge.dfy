/** `_deep_merge` (src/execraft/agents/legacy_profiles.py) and the identical
    `_merge_json` (src/execraft/render.py): mappings merge key by key, anything
    else is replaced. */
module DeepMerge {
  import opened Json

  function Merge(base: Fields, override: Fields): Fields
    decreases Obj(override)
  {
    map key | key in base.Keys + override.Keys ::
      if key !in override then base[key]
      else if key in base && base[key].Obj? && override[key].Obj? then
        Obj(Merge(base[key].fields, override[key].fields))
      else override[key]
  }

  /** The loop of the source: a copy of `base` updated one member of `override` at a time. */
  method MergeMappings(base: Fields, override: Fields) returns (result: Fields)
    ensures result == Merge(base, override)
    decreases Obj(override)
  {
    result := base;
    var rest := override.Keys;
    while rest != {}
      invariant rest <= override.Keys
      invariant result.Keys == base.Keys + (override.Keys - rest)
      invariant forall key :: key in result.Keys ==>
        result[key] == if key in rest then base[key] else Merge(base, override)[key]
      decreases rest
    {
      var key :| key in rest;
      var value := override[key];
      if key in result && result[key].Obj? && value.Obj? {
        var merged := MergeMappings(result[key].fields, value.fields);
        result := result[key := Obj(merged)];
      } else {
        result := result[key := value];
      }
      rest := rest - {key};
    }
  }

  // ----- A reference meaning: what stands at each path -----

  /** The non-mapping value at a path, if there is one. */
  function Leaf(m: Fields, path: seq<string>): Option<Json>
    decreases |path|
  {
    if path == [] || path[0] !in m then None
    else if m[path[0]].Obj? then Leaf(m[path[0]].fields, path[1..])
    else if |path| == 1 then Some(m[path[0]])
    else None
  }

  /** `m` has a say about `path`: a value at it, or a non-mapping above it. */
  predicate Touches(m: Fields, path: seq<string>)
    decreases |path|
  {
    path != [] && path[0] in m &&
    (|path| == 1 || !m[path[0]].Obj? || Touches(m[path[0]].fields, path[1..]))
  }

  lemma {:induction false} UntouchedHasNoLeaf(m: Fields, path: seq<string>)
    ensures !Touches(m, path) ==> Leaf(m, path) == None
    decreases |path|
  {
    if path != [] && path[0] in m && m[path[0]].Obj? {
      UntouchedHasNoLeaf(m[path[0]].fields, path[1..]);
    }
  }

  /** At every path the override decides if it has a say, and the base otherwise. */
  lemma {:induction false} MergeByPath(base: Fields, override: Fields, path: seq<string>)
    ensures Leaf(Merge(base, override), path)
         == if Touches(override, path) then Leaf(override, path) else Leaf(base, path)
    decreases |path|
  {
    UntouchedHasNoLeaf(override, path);
    if path != [] && path[0] in base && path[0] in override
       && base[path[0]].Obj? && override[path[0]].Obj? {
      MergeByPath(base[path[0]].fields, override[path[0]].fields, path[1..]);
    }
  }

  // ----- The algebra -----

  lemma {:induction false} MergeIdentity(m: Fields)
    ensures Merge(map[], m) == m && Merge(m, map[]) == m
  {
  }

  lemma {:induction false} MergeIdempotent(m: Fields)
    ensures Merge(m, m) == m
    decreases Obj(m)
  {
    forall key | key in m && m[key].Obj? {
      MergeIdempotent(m[key].fields);
    }
  }

  /** Everything `a` mentions is decided again by `c`. */
  ghost predicate Absorbed(a: Fields, c: Fields)
    decreases Obj(c)
  {
    forall key :: key in a ==>
      key in c && (a[key].Obj? && c[key].Obj? ==> Absorbed(a[key].fields, c[key].fields))
  }

  lemma {:induction false} MergeAbsorbs(a: Fields, c: Fields)
    ensures Merge(a, c) == c <==> Absorbed(a, c)
    decreases Obj(c)
  {
    forall key | key in a && key in c && a[key].Obj? && c[key].Obj? {
      MergeAbsorbs(a[key].fields, c[key].fields);
    }
    if Merge(a, c) == c {
      forall key | key in a
        ensures key in c && (a[key].Obj? && c[key].Obj? ==> Absorbed(a[key].fields, c[key].fields))
      {
        assert key in Merge(a, c);
        if a[key].Obj? && c[key].Obj? {
          assert Merge(a, c)[key] == Obj(Merge(a[key].fields, c[key].fields));
        }
      }
    }
  }

  /** No non-mapping of `b` stands between a mapping of `a` and a mapping of `c`,
      except where `c` decides everything `a` says there. */
  ghost predicate Associable(a: Fields, b: Fields, c: Fields)
    decreases Obj(c)
  {
    forall key :: key in a && key in b && key in c && a[key].Obj? && c[key].Obj? ==>
      if b[key].Obj? then Associable(a[key].fields, b[key].fields, c[key].fields)
      else Absorbed(a[key].fields, c[key].fields)
  }

  /** The middle layer never has a non-mapping where both outer layers have mappings. */
  ghost predicate Unwedged(a: Fields, b: Fields, c: Fields)
    decreases Obj(c)
  {
    forall key :: key in a && key in b && key in c && a[key].Obj? && c[key].Obj? ==>
      b[key].Obj? && Unwedged(a[key].fields, b[key].fields, c[key].fields)
  }

  function LeftNested(a: Fields, b: Fields, c: Fields): Fields {
    Merge(Merge(a, b), c)
  }

  function RightNested(a: Fields, b: Fields, c: Fields): Fields {
    Merge(a, Merge(b, c))
  }

  /** The two groupings at one key. */
  lemma NestedAt(a: Fields, b: Fields, c: Fields, key: string)
    requires key in LeftNested(a, b, c)
    ensures key in RightNested(a, b, c)
    ensures LeftNested(a, b, c)[key] == RightNested(a, b, c)[key] <==>
      (key in a && key in b && key in c && a[key].Obj? && c[key].Obj? ==>
        if b[key].Obj? then LeftNested(a[key].fields, b[key].fields, c[key].fields)
                         == RightNested(a[key].fields, b[key].fields, c[key].fields)
        else Merge(a[key].fields, c[key].fields) == c[key].fields)
  {
  }

  lemma NestedKeys(a: Fields, b: Fields, c: Fields)
    ensures LeftNested(a, b, c).Keys == RightNested(a, b, c).Keys == a.Keys + b.Keys + c.Keys
  {
  }

  /** Merge is associative on exactly the associable triples. */
  lemma {:induction false} MergeAssociativeExactly(a: Fields, b: Fields, c: Fields)
    ensures Merge(Merge(a, b), c) == Merge(a, Merge(b, c)) <==> Associable(a, b, c)
    decreases Obj(c)
  {
    hide Merge;
    NestedKeys(a, b, c);
    forall key | key in LeftNested(a, b, c)
      ensures key in RightNested(a, b, c)
      ensures LeftNested(a, b, c)[key] == RightNested(a, b, c)[key] <==>
        (key in a && key in b && key in c && a[key].Obj? && c[key].Obj? ==>
          if b[key].Obj? then Associable(a[key].fields, b[key].fields, c[key].fields)
          else Absorbed(a[key].fields, c[key].fields))
    {
      NestedAt(a, b, c, key);
      if key in a && key in b && key in c && a[key].Obj? && c[key].Obj? {
        if b[key].Obj? {
          MergeAssociativeExactly(a[key].fields, b[key].fields, c[key].fields);
        } else {
          MergeAbsorbs(a[key].fields, c[key].fields);
        }
      }
    }
  }

  lemma {:induction false} MergeAssociative(a: Fields, b: Fields, c: Fields)
    requires Unwedged(a, b, c)
    ensures Merge(Merge(a, b), c) == Merge(a, Merge(b, c))
  {
    UnwedgedIsAssociable(a, b, c);
    MergeAssociativeExactly(a, b, c);
  }

  lemma {:induction false} UnwedgedIsAssociable(a: Fields, b: Fields, c: Fields)
    requires Unwedged(a, b, c)
    ensures Associable(a, b, c)
    decreases Obj(c)
  {
    forall key | key in a && key in b && key in c && a[key].Obj? && c[key].Obj? {
      UnwedgedIsAssociable(a[key].fields, b[key].fields, c[key].fields);
    }
  }

  /** A scalar in the middle layer makes the grouping matter. */
  lemma MergeNotAssociative()
    ensures
      var a: Fields := map["k" := Obj(map["x" := Int(1)])];
      var b: Fields := map["k" := Null];
      var c: Fields := map["k" := Obj(map[])];
      Merge(Merge(a, b), c) != Merge(a, Merge(b, c))
  {
    var a: Fields := map["k" := Obj(map["x" := Int(1)])];
    var b: Fields := map["k" := Null];
    var c: Fields := map["k" := Obj(map[])];
    assert "x" in a["k"].fields && "x" !in c["k"].fields;
    assert !Absorbed(a["k"].fields, c["k"].fields);
    assert !Associable(a, b, c);
    MergeAssociativeExactly(a, b, c);
  }
}
