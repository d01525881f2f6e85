/** How the projection of an older plan graph labels what it removes
    (src/execraft/plan_contract.py), spelled out package by package and field by field. */
module PlanLabels {
  import opened Json
  import opened PlanContract
  import Text

  // ----- Ids -----

  /** The id of a package or criterion: its own, stripped, unless that is missing or blank;
      its position in the list otherwise. */
  ghost predicate Identified(render: Json -> string, fields: Fields, index: nat, id: string) {
    var own := TextAt(render, fields, "id");
    if "id" in fields && exists c :: c in own && !Text.IsSpace(c) then id == Text.Strip(own) else id == Text.Decimal(index)
  }

  lemma LabelExactly(render: Json -> string, fields: Fields, index: nat)
    ensures Identified(render, fields, index, Label(render, fields, index))
  {
    hide Text.Strip, Text.Decimal;
    if "id" in fields {
      Blank(TextAt(render, fields, "id"));
    } else {
      Text.DecimalReads(index);
      Text.StripTight(Text.Decimal(index));
    }
  }

  lemma Blank(text: string)
    ensures Text.Strip(text) == "" <==> !exists c :: c in text && !Text.IsSpace(c)
  {
    Text.Stripped(text);
    if Text.Strip(text) != "" {
      var i, j :| 0 <= i <= j <= |text| && Text.Strip(text) == text[i..j] && (i < j ==> !Text.IsSpace(text[i]));
      assert text[i] in text && !Text.IsSpace(text[i]);
    }
  }

  // ----- Labels -----

  predicate FieldGone(fields: Fields, legacy: set<string>, prefix: string, text: string) {
    exists field :: field in fields && field in legacy && text == prefix + field
  }

  predicate CriterionGone(render: Json -> string, packageId: string, items: seq<Json>, j: nat, text: string)
    requires j < |items|
  {
    && items[j].Obj?
    && FieldGone(items[j].fields, {"verified", "evidence"},
                 packageId + ".acceptance_criteria[" + Label(render, items[j].fields, j + 1) + "].", text)
  }

  predicate CriteriaGone(render: Json -> string, packageId: string, items: seq<Json>, text: string) {
    exists j :: 0 <= j < |items| && CriterionGone(render, packageId, items, j, text)
  }

  /** The label stands for a runtime field of package `i`, or of one of its criteria. */
  predicate PackageGone(render: Json -> string, items: seq<Json>, i: nat, text: string)
    requires i < |items|
  {
    && items[i].Obj?
    && var id := Label(render, items[i].fields, i + 1);
       || FieldGone(items[i].fields, LegacyPackageFields(), id + ".", text)
       || ("acceptance_criteria" in items[i].fields && items[i].fields["acceptance_criteria"].Arr?
           && CriteriaGone(render, id, items[i].fields["acceptance_criteria"].items, text))
  }

  predicate PackagesGone(render: Json -> string, items: seq<Json>, text: string) {
    exists i :: 0 <= i < |items| && PackageGone(render, items, i, text)
  }

  lemma FieldsLabelled(prefix: string, fields: Fields, legacy: set<string>, text: string)
    ensures text in FieldLabels(prefix, fields, legacy) <==> FieldGone(fields, legacy, prefix, text)
  {
    if field :| field in fields && field in legacy && text == prefix + field {
      assert field in fields.Keys * legacy;
      assert text in Prefixed(prefix, fields.Keys * legacy);
    }
  }

  lemma CriterionLabelled(render: Json -> string, packageId: string, items: seq<Json>, text: string)
    requires items != []
    ensures text in CriterionLabels(render, packageId, Text.Last(items), |items|)
       <==> CriterionGone(render, packageId, items, |items| - 1, text)
  {
    hide FieldLabels, FieldGone, Label;
    if Text.Last(items).Obj? {
      var fields := Text.Last(items).fields;
      FieldsLabelled(CriterionPrefix(render, packageId, fields, |items|), fields, LegacyCriterionFields(), text);
    }
  }

  lemma CriteriaOn(render: Json -> string, packageId: string, items: seq<Json>, text: string)
    requires items != []
    ensures CriteriaGone(render, packageId, items, text) <==>
      CriteriaGone(render, packageId, Text.Init(items), text) || CriterionGone(render, packageId, items, |items| - 1, text)
  {
    hide FieldGone, Label;
    var earlier := Text.Init(items);
    assert forall j :: 0 <= j < |earlier| ==>
      CriterionGone(render, packageId, earlier, j, text) == CriterionGone(render, packageId, items, j, text);
  }

  lemma {:induction false} CriteriaLabelled(render: Json -> string, packageId: string, items: seq<Json>, text: string)
    ensures text in CriteriaLabels(render, packageId, items) <==> CriteriaGone(render, packageId, items, text)
  {
    if items != [] {
      CriteriaLabelled(render, packageId, Text.Init(items), text);
      CriterionLabelled(render, packageId, items, text);
      CriteriaOn(render, packageId, items, text);
      hide CriterionLabels, CriteriaGone, CriterionGone;
    }
  }

  lemma PackageLabelled(render: Json -> string, items: seq<Json>, text: string)
    requires items != []
    ensures text in PackageLabels(render, Text.Last(items), |items|) <==> PackageGone(render, items, |items| - 1, text)
  {
    CriteriaNotLegacy();
    hide FieldLabels, FieldGone, Label, LegacyPackageFields, CriteriaLabels, CriteriaGone;
    if Text.Last(items).Obj? {
      var fields := Text.Last(items).fields;
      var id := Label(render, fields, |items|);
      FieldsLabelled(id + ".", fields, LegacyPackageFields(), text);
      var criteria := Get(fields, "acceptance_criteria");
      assert Get(fields - LegacyPackageFields(), "acceptance_criteria") == criteria;
      if criteria.Arr? {
        CriteriaLabelled(render, id, criteria.items, text);
      }
    }
  }

  lemma PackagesOnward(render: Json -> string, items: seq<Json>, text: string)
    requires items != []
    ensures PackagesGone(render, items, text) <==>
      PackagesGone(render, Text.Init(items), text) || PackageGone(render, items, |items| - 1, text)
  {
    hide FieldGone, Label, LegacyPackageFields, CriteriaGone;
    var earlier := Text.Init(items);
    assert forall i :: 0 <= i < |earlier| ==> PackageGone(render, earlier, i, text) == PackageGone(render, items, i, text);
  }

  lemma {:induction false} PackagesLabelled(render: Json -> string, items: seq<Json>, text: string)
    ensures text in PackagesLabels(render, items) <==> PackagesGone(render, items, text)
  {
    if items != [] {
      PackagesLabelled(render, Text.Init(items), text);
      PackageLabelled(render, items, text);
      PackagesOnward(render, items, text);
      hide PackageLabels, PackagesGone, PackageGone;
    }
  }

  /** A label is reported exactly when it stands for a runtime field of a package, or of a
      criterion of one, in either list. */
  lemma RemovedExactly(render: Json -> string, raw: Fields, text: string)
    ensures text in RemovedLabels(render, raw) <==>
      || ("work_packages" in raw && raw["work_packages"].Arr? && PackagesGone(render, raw["work_packages"].items, text))
      || ("packages" in raw && raw["packages"].Arr? && PackagesGone(render, raw["packages"].items, text))
  {
    hide PackagesLabels, PackagesGone;
    if "work_packages" in raw && raw["work_packages"].Arr? {
      PackagesLabelled(render, raw["work_packages"].items, text);
    }
    if "packages" in raw && raw["packages"].Arr? {
      PackagesLabelled(render, raw["packages"].items, text);
    }
  }
}
