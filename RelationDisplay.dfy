/** Rendering of relation-valued attributes. The title heuristic that
    picks a human-readable string from a related record appears verbatim
    in both the list component and the detail component; it is defined
    once here, and both relation formatters (list text and detail lines)
    are defined over it, so that the two call sites agree by construction
    and the lemmas below state how their outputs correspond. */
module RelationDisplay {
  import opened Base
  import opened Text
  import opened Values
  import opened Schema

  /** Keys tried first, in priority order. */
  const StandardKeys: seq<string> := ["name", "Name", "title", "Title"]

  /** Keys never used as a title by the property scan. */
  const SystemKeys: set<string> := {"id", "entityDefinitionId", "projectId", "createdAt", "updatedAt"}

  /** The trimmed rendering of a standard key's value. */
  function StandardText(item: Value, key: string): string {
    Trim(ToJsString(Prop(item, key)))
  }

  /** A standard key qualifies when its value is neither undefined nor null
      and renders to a non-blank string. */
  predicate StandardQualifies(item: Value, key: string) {
    var v := Prop(item, key);
    !v.Undefined? && !v.Null? && StandardText(item, key) != ""
  }

  /** An own property qualifies when it is not a system key and holds a
      non-blank string. */
  predicate EntryQualifies(e: (string, Value)) {
    e.0 !in SystemKeys && e.1.Str? && Trim(e.1.s) != ""
  }

  /** Step 1, the loop over the standard keys with its early return. */
  function StandardTitle(item: Value, keys: seq<string>): (r: Option<string>)
    ensures r.None? <==> forall i :: 0 <= i < |keys| ==> !StandardQualifies(item, keys[i])
  {
    if keys == [] then None
    else if StandardQualifies(item, keys[0]) then Some(StandardText(item, keys[0]))
    else StandardTitle(item, keys[1..])
  }

  /** Step 1 returns the text of the first qualifying key. */
  lemma {:induction false} StandardTitleAt(item: Value, keys: seq<string>, i: nat)
    requires i < |keys| && StandardQualifies(item, keys[i])
    requires forall j :: 0 <= j < i ==> !StandardQualifies(item, keys[j])
    ensures StandardTitle(item, keys) == Some(StandardText(item, keys[i]))
  {
    if i > 0 {
      var tail := keys[1..];
      assert !StandardQualifies(item, keys[0]);
      assert tail[i - 1] == keys[i];
      assert forall j :: 0 <= j < i - 1 ==> tail[j] == keys[j + 1];
      StandardTitleAt(item, tail, i - 1);
    }
  }

  /** Step 2, the loop over the own properties with its early return. */
  function EntryTitle(entries: seq<(string, Value)>): (r: Option<string>)
    ensures r.None? <==> forall k :: 0 <= k < |entries| ==> !EntryQualifies(entries[k])
  {
    if entries == [] then None
    else if EntryQualifies(entries[0]) then Some(Trim(entries[0].1.s))
    else EntryTitle(entries[1..])
  }

  /** Step 2 returns the trimmed string of the first qualifying property. */
  lemma {:induction false} EntryTitleAt(entries: seq<(string, Value)>, j: nat)
    requires j < |entries| && EntryQualifies(entries[j])
    requires forall k :: 0 <= k < j ==> !EntryQualifies(entries[k])
    ensures EntryTitle(entries) == Some(Trim(entries[j].1.s))
  {
    if j > 0 {
      assert !EntryQualifies(entries[0]);
      EntryTitleAt(entries[1..], j - 1);
    }
  }

  /** Whatever step 1 returns is non-empty and carries no surrounding
      whitespace. */
  lemma {:induction false} StandardTitleTrimmed(item: Value, keys: seq<string>)
    ensures StandardTitle(item, keys).Some? ==>
              StandardTitle(item, keys).value != "" && IsTrimmed(StandardTitle(item, keys).value)
  {
    if keys != [] {
      if StandardQualifies(item, keys[0]) {
        TrimIsTrimmed(ToJsString(Prop(item, keys[0])));
      } else {
        StandardTitleTrimmed(item, keys[1..]);
      }
    }
  }

  /** Whatever step 2 returns is non-empty and carries no surrounding
      whitespace. */
  lemma {:induction false} EntryTitleTrimmed(entries: seq<(string, Value)>)
    ensures EntryTitle(entries).Some? ==>
              EntryTitle(entries).value != "" && IsTrimmed(EntryTitle(entries).value)
  {
    if entries != [] {
      if EntryQualifies(entries[0]) {
        TrimIsTrimmed(entries[0].1.s);
      } else {
        EntryTitleTrimmed(entries[1..]);
      }
    }
  }

  /** Step 3: the `id` when it is truthy, else the placeholder. */
  function IdTitle(item: Value): string {
    var id := Prop(item, "id");
    if Truthy(id) then ToJsString(id) else "-"
  }

  /** The title heuristic (`getRelatedInstanceDisplayValue`): the first
      step that finds something wins. */
  function DisplayValue(item: Value): string {
    if !Truthy(item) || !IsObjectLike(item) then "-"
    else
      var standard := StandardTitle(item, StandardKeys);
      if standard.Some? then standard.value
      else
        var entry := EntryTitle(Entries(item));
        if entry.Some? then entry.value else IdTitle(item)
  }

  lemma TitleOfNonObject(item: Value)
    requires !IsObjectLike(item)
    ensures DisplayValue(item) == "-"
  {
  }

  /** Step 1: the first qualifying standard key wins, trimmed. */
  lemma TitleByStandardKey(item: Value, i: nat)
    requires IsObjectLike(item)
    requires i < |StandardKeys| && StandardQualifies(item, StandardKeys[i])
    requires forall j :: 0 <= j < i ==> !StandardQualifies(item, StandardKeys[j])
    ensures DisplayValue(item) == Trim(ToJsString(Prop(item, StandardKeys[i])))
  {
    var keys := StandardKeys;
    StandardTitleAt(item, keys, i);
    var t := StandardTitle(item, keys);
    assert t == Some(StandardText(item, keys[i]));
    assert Truthy(item);
    assert DisplayValue(item) == t.value;
  }

  /** A record with a non-blank `name` is titled by it, whatever else it
      holds (in particular a `title`). */
  lemma NameTakesPriority(item: Value)
    requires IsObjectLike(item) && StandardQualifies(item, "name")
    ensures DisplayValue(item) == Trim(ToJsString(Prop(item, "name")))
  {
    TitleByStandardKey(item, 0);
  }

  /** Step 2: with no qualifying standard key, the first qualifying own
      property (in enumeration order) wins, trimmed. */
  lemma TitleByEntry(item: Value, j: nat)
    requires IsObjectLike(item)
    requires forall i :: 0 <= i < |StandardKeys| ==> !StandardQualifies(item, StandardKeys[i])
    requires j < |Entries(item)| && EntryQualifies(Entries(item)[j])
    requires forall k :: 0 <= k < j ==> !EntryQualifies(Entries(item)[k])
    ensures DisplayValue(item) == Trim(Entries(item)[j].1.s)
  {
    assert StandardTitle(item, StandardKeys).None?;
    EntryTitleAt(Entries(item), j);
  }

  /** Step 3: otherwise the `id` when it is truthy, else the placeholder. */
  lemma TitleById(item: Value)
    requires IsObjectLike(item)
    requires forall i :: 0 <= i < |StandardKeys| ==> !StandardQualifies(item, StandardKeys[i])
    requires forall k :: 0 <= k < |Entries(item)| ==> !EntryQualifies(Entries(item)[k])
    ensures DisplayValue(item) == if Truthy(Prop(item, "id")) then ToJsString(Prop(item, "id")) else "-"
  {
    assert StandardTitle(item, StandardKeys).None?;
    assert EntryTitle(Entries(item)).None?;
  }

  /** A title found by steps 1 or 2 is non-empty and carries no
      surrounding whitespace. */
  lemma TitleFoundIsTrimmed(item: Value)
    requires IsObjectLike(item)
    requires (exists i :: 0 <= i < |StandardKeys| && StandardQualifies(item, StandardKeys[i])) ||
             (exists k :: 0 <= k < |Entries(item)| && EntryQualifies(Entries(item)[k]))
    ensures DisplayValue(item) != "" && IsTrimmed(DisplayValue(item))
  {
    StandardTitleTrimmed(item, StandardKeys);
    EntryTitleTrimmed(Entries(item));
  }

  /** Titles of a list of related records, in order. */
  function Titles(items: seq<Value>): (r: seq<string>)
    ensures |r| == |items| && forall i :: 0 <= i < |items| ==> r[i] == DisplayValue(items[i])
  {
    seq(|items|, i requires 0 <= i < |items| => DisplayValue(items[i]))
  }

  /** `name && name !== "-"`. */
  predicate IsShownName(name: string) {
    name != "" && name != "-"
  }

  /** The names shown for a to-many value: titles that are neither empty
      nor the placeholder, in the order of the related records. */
  function ResolvedNames(items: seq<Value>): seq<string> {
    Filter(Titles(items), IsShownName)
  }

  /** A name is shown exactly when some related record has it as its title
      and it is not the placeholder. */
  lemma ResolvedNamesMembership(items: seq<Value>, name: string)
    ensures name in ResolvedNames(items) <==>
            IsShownName(name) && exists i :: 0 <= i < |items| && DisplayValue(items[i]) == name
  {
    var t := Titles(items);
    if name in t {
      var i :| 0 <= i < |t| && t[i] == name;
      assert DisplayValue(items[i]) == name;
    }
  }

  /** The record a to-one value is titled by, or None for the placeholder:
      a falsy or non-object value gives the placeholder, and an array (an
      older data shape) stands for its first element. */
  function ToOneTarget(value: Value): (r: Option<Value>)
    ensures r.Some? ==> Truthy(r.value)
    ensures r.Some? && value.Obj? ==> r.value == value
    ensures r.Some? && value.Arr? ==> |value.items| > 0 && r.value == value.items[0]
    ensures !IsObjectLike(value) ==> r.None?
  {
    if !Truthy(value) || !IsObjectLike(value) then None
    else if value.Arr? then
      var item := if |value.items| > 0 then value.items[0] else Undefined;
      if !Truthy(item) then None else Some(item)
    else Some(value)
  }

  /** The list template `"<count> (<up to 3 names>[, +<rest> more])"`. */
  function CountSummary(count: nat, names: seq<string>): string {
    NatToString(count) + " (" + ShownNames(names) + ")"
  }

  /** Up to three names, then how many more there are. */
  function ShownNames(names: seq<string>): string {
    if |names| <= 3 then Join(names, ", ")
    else Join(names[..3], ", ") + ", +" + NatToString(|names| - 3) + " more"
  }

  /** List view (`formatRelationValue` of the list component): a single
      string, with `"-"` as placeholder. */
  function ListFormat(value: Value, dbType: string): string {
    if IsToOne(dbType) then
      match ToOneTarget(value)
      case None => "-"
      case Some(item) => DisplayValue(item)
    else if !value.Arr? || |value.items| == 0 then "-"
    else
      var names := ResolvedNames(value.items);
      if |names| == 0 then "-" else CountSummary(|value.items|, names)
  }

  /** What the detail view renders for a relation: the muted `"—"`
      placeholder, one name, or one name per line. */
  datatype DetailContent = Placeholder | Name(name: string) | Lines(names: seq<string>)

  /** Detail view (`formatRelationValue` of the detail component). */
  function DetailFormat(value: Value, dbType: string): DetailContent {
    if IsToOne(dbType) then
      match ToOneTarget(value)
      case None => Placeholder
      case Some(item) => Name(DisplayValue(item))
    else if !value.Arr? || |value.items| == 0 then Placeholder
    else
      var names := ResolvedNames(value.items);
      if |names| == 0 then Placeholder else Lines(names)
  }

  /** The count in the list summary is the raw number of related records,
      not the number of names left after dropping placeholders. */
  lemma CountSummaryStartsWithCount(count: nat, names: seq<string>)
    ensures NatToString(count) + " (" <= CountSummary(count, names)
    ensures CountSummary(count, names) != "-"
  {
    var p := NatToString(count) + " (";
    var s := CountSummary(count, names);
    assert s == p + (ShownNames(names) + ")");
    assert s[0] == p[0] == NatToString(count)[0];
  }

  /** A to-many list cell is the placeholder or starts with the number of
      related records. */
  lemma ListManyStartsWithCount(value: Value, dbType: string)
    requires !IsToOne(dbType) && value.Arr?
    ensures ListFormat(value, dbType) == "-" ||
            NatToString(|value.items|) + " (" <= ListFormat(value, dbType)
  {
    if |value.items| > 0 && |ResolvedNames(value.items)| > 0 {
      CountSummaryStartsWithCount(|value.items|, ResolvedNames(value.items));
    }
  }

  /** The two call sites agree: the list shows its placeholder exactly
      where the detail view shows its own (for to-many values) or where
      the detail title itself is the placeholder; a to-one name is the same
      string in both; and a to-many list summary is built from exactly the
      names the detail view lists, one per line. */
  lemma ListAgreesWithDetail(value: Value, dbType: string)
    ensures DetailFormat(value, dbType).Placeholder? ==> ListFormat(value, dbType) == "-"
    ensures DetailFormat(value, dbType).Name? ==>
              ListFormat(value, dbType) == DetailFormat(value, dbType).name
    ensures DetailFormat(value, dbType).Lines? ==>
              value.Arr? && ListFormat(value, dbType) == CountSummary(|value.items|, DetailFormat(value, dbType).names)
    ensures !IsToOne(dbType) ==>
              (DetailFormat(value, dbType).Placeholder? <==> ListFormat(value, dbType) == "-")
  {
    var d := DetailFormat(value, dbType);
    if d.Lines? {
      CountSummaryStartsWithCount(|value.items|, d.names);
    }
  }

  /** Scenario: five related records named A to E in a to-many list cell. */
  lemma FiveNamesSummary(items: seq<Value>, names: seq<string>)
    requires names == ["A", "B", "C", "D", "E"]
    requires items == [Named(names[0]), Named(names[1]), Named(names[2]), Named(names[3]), Named(names[4])]
    ensures ListFormat(Arr(items), "oneToMany") == "5 (A, B, C, +2 more)"
  {
    FiveTitles(items, names);
    FiveNamesShown(items, names);
    ManySummary(items, names);
    CountSummaryOfFive(names);
  }

  lemma FiveTitles(items: seq<Value>, names: seq<string>)
    requires names == ["A", "B", "C", "D", "E"]
    requires items == [Named(names[0]), Named(names[1]), Named(names[2]), Named(names[3]), Named(names[4])]
    ensures Titles(items) == names
  {
    FiveNamesUsable(names);
    assert forall i :: 0 <= i < 5 ==> items[i] == Named(names[i]);
    NamedTitles(items, names);
  }

  lemma FiveNamesUsable(names: seq<string>)
    requires names == ["A", "B", "C", "D", "E"]
    ensures forall i :: 0 <= i < |names| ==> names[i] != [] && IsTrimmed(names[i])
  {
    forall i | 0 <= i < |names| ensures names[i] != [] && IsTrimmed(names[i]) {
      assert |names[i]| == 1 && !IsSpace(names[i][0]);
    }
  }

  lemma FiveNamesShown(items: seq<Value>, names: seq<string>)
    requires names == ["A", "B", "C", "D", "E"] && Titles(items) == names
    ensures ResolvedNames(items) == names
  {
    assert forall x :: x in names ==> IsShownName(x);
    FilterAll(names, IsShownName);
  }

  lemma ManySummary(items: seq<Value>, names: seq<string>)
    requires |items| > 0 && names != [] && ResolvedNames(items) == names
    ensures ListFormat(Arr(items), "oneToMany") == CountSummary(|items|, names)
  {
  }

  lemma CountSummaryOfFive(names: seq<string>)
    requires names == ["A", "B", "C", "D", "E"]
    ensures CountSummary(5, names) == "5 (A, B, C, +2 more)"
  {
    var abc := names[..3];
    assert abc == ["A", "B", "C"];
    JoinOfThree(abc);
    assert NatToString(|names| - 3) == "2";
    assert ShownNames(names) == "A, B, C" + ", +" + "2" + " more";
    assert NatToString(5) == "5";
  }

  lemma JoinOfThree(abc: seq<string>)
    requires abc == ["A", "B", "C"]
    ensures Join(abc, ", ") == "A, B, C"
  {
    assert abc[1..] == ["B", "C"] && abc[1..][1..] == ["C"];
    assert Join(["C"], ", ") == "C";
  }

  lemma NamedTitles(items: seq<Value>, names: seq<string>)
    requires |items| == |names|
    requires forall i :: 0 <= i < |items| ==> items[i] == Named(names[i]) && names[i] != [] && IsTrimmed(names[i])
    ensures Titles(items) == names
  {
    forall i | 0 <= i < |items| ensures Titles(items)[i] == names[i] {
      NamedTitle(names[i]);
    }
  }

  function Named(name: string): Value {
    Obj([("name", Str(name))])
  }

  lemma NamedTitle(name: string)
    requires name != [] && IsTrimmed(name)
    ensures DisplayValue(Named(name)) == name
  {
    TrimmedIsFixed(name);
    assert StandardQualifies(Named(name), "name");
    NameTakesPriority(Named(name));
  }
}
