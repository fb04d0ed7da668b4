/** The detail page of one instance: which fields are shown, how they are
    grouped into numbered sections, the order and titles of the sections,
    and what is rendered for each field's value. */
module EntityDetail {
  import opened Base
  import opened Text
  import opened Values
  import opened Schema
  import opened RelationDisplay
  import EntityList

  /** Fields never shown on the detail page. */
  const HiddenFieldNames: set<string> := {"id", "slug", "entityDefinitionId", "projectId", "createdAt", "updatedAt"}

  predicate IsShownOnDetail(f: Field) { f.name !in HiddenFieldNames }

  /** `displayFields` of the detail page. */
  function DetailFields(fields: seq<Field>): seq<Field> {
    Filter(fields, IsShownOnDetail)
  }

  /** Exactly the fields with a non-system name are shown, in field order. */
  lemma DetailFieldsSpec(fields: seq<Field>, f: Field, a: seq<Field>, b: seq<Field>)
    ensures f in DetailFields(fields) <==>
            f in fields && f.name != "id" && f.name != "slug" && f.name != "entityDefinitionId" &&
            f.name != "projectId" && f.name != "createdAt" && f.name != "updatedAt"
    ensures DetailFields(a + b) == DetailFields(a) + DetailFields(b)
  {
    FilterAppend(a, b, IsShownOnDetail);
  }

  /** `field.sectionIndex || 0`. */
  function SectionOf(f: Field): int {
    if f.sectionIndex.Some? then f.sectionIndex.value else 0
  }

  /** The fields of section `k`, in field order. */
  function InSection(fields: seq<Field>, k: int): seq<Field>
  {
    if fields == [] then []
    else
      var last := fields[|fields| - 1];
      InSection(fields[..|fields| - 1], k) + (if SectionOf(last) == k then [last] else [])
  }

  /** The section numbers that occur. */
  function SectionsOf(fields: seq<Field>): set<int>
  {
    if fields == [] then {}
    else SectionsOf(fields[..|fields| - 1]) + {SectionOf(fields[|fields| - 1])}
  }

  /** A section's group holds exactly the fields of that section, and the
      sections that occur are exactly those of some field. */
  lemma {:induction false} GroupingSpec(fields: seq<Field>, k: int, f: Field)
    ensures f in InSection(fields, k) <==> f in fields && SectionOf(f) == k
    ensures k in SectionsOf(fields) <==> exists g :: g in fields && SectionOf(g) == k
    ensures |InSection(fields, k)| <= |fields|
  {
    if fields != [] {
      var init := fields[..|fields| - 1];
      GroupingSpec(init, k, f);
      assert fields == init + [fields[|fields| - 1]];
      if k in SectionsOf(init) {
        var g :| g in init && SectionOf(g) == k;
        assert g in fields;
      }
    }
  }

  lemma {:induction false} InSectionOfAbsent(fields: seq<Field>, k: int)
    requires k !in SectionsOf(fields)
    ensures InSection(fields, k) == []
  {
    if fields != [] {
      InSectionOfAbsent(fields[..|fields| - 1], k);
    }
  }

  /** Adding one field at the end adds it to its own section only. */
  lemma InSectionSnoc(fields: seq<Field>, i: nat)
    requires i < |fields|
    ensures SectionsOf(fields[..i + 1]) == SectionsOf(fields[..i]) + {SectionOf(fields[i])}
    ensures forall k :: InSection(fields[..i + 1], k) ==
                        InSection(fields[..i], k) + (if SectionOf(fields[i]) == k then [fields[i]] else [])
  {
    assert fields[..i + 1][..i] == fields[..i];
  }

  /** `fieldsBySection`: one pass over the fields, appending each to the
      group of its section and creating the group on first use. The result
      has a group exactly for each section that occurs, holding that
      section's fields in field order, so every field lies in exactly the
      group of its own section. `keys` lists the groups in the order they
      were created. */
  method GroupBySection(fields: seq<Field>) returns (groups: map<int, seq<Field>>, keys: seq<int>)
    ensures groups.Keys == SectionsOf(fields)
    ensures forall k :: k in groups ==> groups[k] == InSection(fields, k)
    ensures forall k :: k in keys <==> k in groups
  {
    groups := map[];
    keys := [];
    var i := 0;
    while i < |fields|
      invariant 0 <= i <= |fields|
      invariant groups.Keys == SectionsOf(fields[..i])
      invariant forall k :: k in groups ==> groups[k] == InSection(fields[..i], k)
      invariant forall k :: k in keys <==> k in groups
    {
      var f := fields[i];
      var section := SectionOf(f);
      InSectionSnoc(fields, i);
      if section !in groups {
        InSectionOfAbsent(fields[..i], section);
        groups := groups[section := []];
        keys := keys + [section];
      }
      groups := groups[section := groups[section] + [f]];
      i := i + 1;
    }
    assert fields[..|fields|] == fields;
  }

  /** Strictly increasing: ascending and without repetition. */
  predicate Ascending(s: seq<int>) {
    forall i, j :: 0 <= i < j < |s| ==> s[i] < s[j]
  }

  /** Inserts a number into an ascending sequence at its place, once. */
  function InsertAscending(s: seq<int>, x: int): (r: seq<int>)
    requires Ascending(s)
    ensures Ascending(r)
    ensures forall y :: y in r <==> y in s || y == x
  {
    if s == [] then [x]
    else if x < s[0] then
      assert forall k :: 0 <= k < |s| ==> x < s[k];
      ConsAscending(x, s);
      [x] + s
    else if x == s[0] then s
    else
      var rest := InsertAscending(s[1..], x);
      assert forall k :: 0 <= k < |rest| ==> rest[k] in rest && s[0] < rest[k];
      ConsAscending(s[0], rest);
      [s[0]] + rest
  }

  lemma ConsAscending(h: int, t: seq<int>)
    requires Ascending(t) && forall k :: 0 <= k < |t| ==> h < t[k]
    ensures Ascending([h] + t)
  {
    var r := [h] + t;
    forall i, j | 0 <= i < j < |r| ensures r[i] < r[j] {
      assert r[j] == t[j - 1];
      if i > 0 {
        assert r[i] == t[i - 1];
      }
    }
  }

  /** The sections in ascending numeric order (the entries of
      `fieldsBySection` sorted by `Number(a) - Number(b)`). */
  method SortSections(keys: seq<int>) returns (order: seq<int>)
    ensures Ascending(order)
    ensures forall k :: k in order <==> k in keys
  {
    order := [];
    var i := 0;
    while i < |keys|
      invariant 0 <= i <= |keys|
      invariant Ascending(order)
      invariant forall k :: k in order <==> k in keys[..i]
    {
      assert keys[..i + 1] == keys[..i] + [keys[i]];
      order := InsertAscending(order, keys[i]);
      i := i + 1;
    }
    assert keys[..|keys|] == keys;
  }

  /** A section's heading: the definition's title for sections 0 to 3,
      none for any other. */
  function SectionTitle(def: EntityDefinition, section: int): (r: Option<string>)
    ensures section == 0 ==> r == def.titleSection0
    ensures section == 1 ==> r == def.titleSection1
    ensures section == 2 ==> r == def.titleSection2
    ensures section == 3 ==> r == def.titleSection3
    ensures !(0 <= section <= 3) ==> r.None?
  {
    if section == 0 then def.titleSection0
    else if section == 1 then def.titleSection1
    else if section == 2 then def.titleSection2
    else if section == 3 then def.titleSection3
    else None
  }

  /** A card header is rendered only for a non-empty title. */
  predicate HasHeader(def: EntityDefinition, section: int) {
    var t := SectionTitle(def, section);
    t.Some? && t.value != ""
  }

  lemma HeaderOnlyForFirstFourSections(def: EntityDefinition, section: int)
    ensures HasHeader(def, section) ==> 0 <= section <= 3
  {
  }

  /** One card of the detail page. */
  datatype Section = Section(index: int, title: Option<string>, fields: seq<Field>)

  /** The cards of the detail page: one per section that has a shown
      field, in ascending order, each holding exactly that section's shown
      fields in field order under its title. */
  method DetailSections(def: EntityDefinition, fields: seq<Field>) returns (sections: seq<Section>)
    ensures forall i, j :: 0 <= i < j < |sections| ==> sections[i].index < sections[j].index
    ensures forall k :: k in SectionIndices(sections) <==> k in SectionsOf(DetailFields(fields))
    ensures forall i :: 0 <= i < |sections| ==>
              sections[i].fields == InSection(DetailFields(fields), sections[i].index) &&
              sections[i].title == SectionTitle(def, sections[i].index)
  {
    var shown := DetailFields(fields);
    var groups, keys := GroupBySection(shown);
    var order := SortSections(keys);
    forall i | 0 <= i < |order| ensures order[i] in groups {
      assert order[i] in order;
    }
    sections := seq(|order|, i requires 0 <= i < |order| && order[i] in groups =>
                  Section(order[i], SectionTitle(def, order[i]), groups[order[i]]));
    assert SectionIndices(sections) == order;
  }

  /** The section numbers of a list of cards, in card order. */
  function SectionIndices(sections: seq<Section>): (r: seq<int>)
    ensures |r| == |sections| && forall i :: 0 <= i < |r| ==> r[i] == sections[i].index
  {
    seq(|sections|, i requires 0 <= i < |sections| => sections[i].index)
  }

  /** What the detail page renders for a field value. */
  datatype Rendered =
    | Dash                              // the muted "—" placeholder
    | Relation(content: DetailContent)  // related records, see DetailFormat
    | Files(items: seq<Value>)          // the image grid or file links
    | LocalDate(raw: string)            // `new Date(raw).toLocaleString()`
    | Text(text: string)

  /** `renderFieldValue`: a missing value first, then relations, then
      image and file fields, dates, booleans, other arrays and anything
      else. */
  function RenderFieldValue(f: Field, value: Value): Rendered {
    if value.Null? || value.Undefined? then Dash
    else if IsRelationField(f) then Relation(DetailFormat(value, f.dbType))
    else if f.fieldType == "images" || f.fieldType == "files" then
      (if !value.Arr? || |value.items| == 0 then Dash else Files(value.items))
    else if f.dbType == "timestamptz" && value.Str? then LocalDate(value.s)
    else if f.dbType == "boolean" then Text(if Truthy(value) then "Yes" else "No")
    else if value.Arr? then Text(Join(ElementStrings(value.items), ", "))
    else Text(ToJsString(value))
  }

  /** The element texts `Array.prototype.join` puts between separators. */
  function ElementStrings(items: seq<Value>): (r: seq<string>)
    ensures |r| == |items| && forall i :: 0 <= i < |items| ==> r[i] == ElementString(items[i])
  {
    seq(|items|, i requires 0 <= i < |items| => ElementString(items[i]))
  }

  /** A missing value is the placeholder whatever the field, relation or
      not; only a present value reaches the relation formatting. */
  lemma MissingValueIsDash(f: Field, value: Value)
    ensures value.Null? || value.Undefined? ==> RenderFieldValue(f, value) == Dash
    ensures RenderFieldValue(f, value).Relation? <==> IsRelationField(f) && !value.Null? && !value.Undefined?
    ensures !IsRelationField(f) && !(f.fieldType == "images" || f.fieldType == "files") ==>
              (RenderFieldValue(f, value) == Dash <==> value.Null? || value.Undefined?)
  {
  }

  /** A boolean field shows "Yes" for a truthy value and "No" otherwise. */
  lemma BooleanYesNo(f: Field, value: Value)
    requires !value.Null? && !value.Undefined? && !IsRelationField(f)
    requires f.fieldType != "images" && f.fieldType != "files" && f.dbType == "boolean"
    ensures RenderFieldValue(f, value) == Text(if Truthy(value) then "Yes" else "No")
  {
  }

  /** A non-relation array is shown as its elements joined with ", ". */
  lemma ArrayJoined(f: Field, items: seq<Value>)
    requires !IsRelationField(f) && f.fieldType != "images" && f.fieldType != "files" && f.dbType != "boolean"
    ensures RenderFieldValue(f, Arr(items)) == Text(Join(ElementStrings(items), ", "))
  {
  }

  /** Any other present value is shown as `String(value)`. */
  lemma OtherValuesAsString(f: Field, value: Value)
    requires !value.Null? && !value.Undefined? && !value.Arr? && !IsRelationField(f)
    requires f.fieldType != "images" && f.fieldType != "files" && f.dbType != "boolean"
    requires !(f.dbType == "timestamptz" && value.Str?)
    ensures RenderFieldValue(f, value) == Text(ToJsString(value))
  {
  }

  /** The detail page and the list table show a field's value the same way
      where both render text: a present relation value appears on the
      detail page as the content whose list form is the table cell, and a
      present plain (non-array) value is `String(value)` in both. Only
      missing values differ: the table shows "-" for a missing relation,
      the detail page "—". */
  lemma DetailAgreesWithListCell(f: Field, instance: Value)
    ensures var v := Prop(instance, f.name);
            var d := RenderFieldValue(f, v);
            var cell := EntityList.CellText(f, instance);
            (IsRelationField(f) && !v.Null? && !v.Undefined? ==>
               d == Relation(DetailFormat(v, f.dbType)) &&
               (d.content.Placeholder? ==> cell == "-") &&
               (d.content.Name? ==> cell == d.content.name) &&
               (d.content.Lines? ==> v.Arr? && cell == CountSummary(|v.items|, d.content.names))) &&
            (!IsRelationField(f) && !v.Null? && !v.Undefined? && !v.Arr? &&
             f.fieldType != "images" && f.fieldType != "files" && f.dbType != "boolean" &&
             !(f.dbType == "timestamptz" && v.Str?) ==>
               d == Text(cell)) &&
            (v.Null? || v.Undefined? ==> d == Dash && (cell == "-" || cell == "—"))
  {
    var v := Prop(instance, f.name);
    ListAgreesWithDetail(v, f.dbType);
  }
}
