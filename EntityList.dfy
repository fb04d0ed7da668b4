/** The instance list of one entity definition: which fields become
    columns, filters and search, the list's own state (search text, page,
    selected filter values and their ANY/ALL modes), how user actions change
    that state, the instance query built from it, and the text of each
    table cell. */
module EntityList {
  import opened Base
  import opened Values
  import opened Schema
  import opened FacetedFilter
  import opened RelationDisplay

  /** At most this many fields become table columns. */
  const MaxColumns := 5

  /** Instances per page when the definition sets none. */
  const DefaultPageSize := 20

  predicate IsDisplayed(f: Field) { f.displayInTable }

  /** A field can be filtered when it is marked filterable and is either a
      relation field or has static choices. */
  predicate IsFilterable(f: Field) {
    f.filterableInList && (IsRelationField(f) || HasStaticOptions(f))
  }

  predicate IsSearchable(f: Field) { f.searchable }

  /** `displayFields`: the first five fields marked for the table. */
  function DisplayFields(fields: seq<Field>): seq<Field> {
    Take(Filter(fields, IsDisplayed), MaxColumns)
  }

  function FilterableFields(fields: seq<Field>): seq<Field> {
    Filter(fields, IsFilterable)
  }

  function SearchableFields(fields: seq<Field>): seq<Field> {
    Filter(fields, IsSearchable)
  }

  /** The columns are at most five table fields, taken in field order: a
      prefix of all table fields, and all of them when there are at most
      five. */
  lemma DisplayFieldsSpec(fields: seq<Field>)
    ensures |DisplayFields(fields)| <= MaxColumns
    ensures DisplayFields(fields) <= Filter(fields, IsDisplayed)
    ensures forall f :: f in DisplayFields(fields) ==> f in fields && f.displayInTable
    ensures |Filter(fields, IsDisplayed)| <= MaxColumns ==> DisplayFields(fields) == Filter(fields, IsDisplayed)
  {
    var all := Filter(fields, IsDisplayed);
    forall f | f in DisplayFields(fields) ensures f in all {
      var i :| 0 <= i < |DisplayFields(fields)| && DisplayFields(fields)[i] == f;
      assert all[i] == f;
    }
  }

  /** Field order is kept by every policy: each distributes over a split of
      the field list. */
  lemma PoliciesKeepOrder(a: seq<Field>, b: seq<Field>)
    ensures FilterableFields(a + b) == FilterableFields(a) + FilterableFields(b)
    ensures SearchableFields(a + b) == SearchableFields(a) + SearchableFields(b)
    ensures Filter(a + b, IsDisplayed) == Filter(a, IsDisplayed) + Filter(b, IsDisplayed)
  {
    FilterAppend(a, b, IsFilterable);
    FilterAppend(a, b, IsSearchable);
    FilterAppend(a, b, IsDisplayed);
  }

  /** Filterable fields: marked filterable, and a relation field (a related
      definition and a relation type) or a field with static choices. */
  lemma FilterableFieldsSpec(fields: seq<Field>, f: Field)
    ensures f in FilterableFields(fields) <==>
            f in fields && f.filterableInList &&
            ((f.relatedEntityDefinitionId.Some? && f.relatedEntityDefinitionId.value != "" &&
              f.dbType in {"manyToOne", "oneToOne", "manyToMany", "oneToMany"}) ||
             (f.options.Some? && |f.options.value| > 0))
    ensures |FilterableFields(fields)| <= |fields|
  {
  }

  lemma SearchableFieldsSpec(fields: seq<Field>, f: Field)
    ensures f in SearchableFields(fields) <==> f in fields && f.searchable
  {
  }

  /** The filter map after `handleFilterChange`: an empty selection removes
      the field's entry, any other replaces it. */
  function UpdateFilters(filters: map<string, seq<string>>, fieldName: string, value: seq<string>): map<string, seq<string>> {
    if value == [] then filters - {fieldName} else filters[fieldName := value]
  }

  /** The selection handed to a field's filter: `filters[name] || []`. */
  function ValueFor(filters: map<string, seq<string>>, fieldName: string): seq<string> {
    if fieldName in filters then filters[fieldName] else []
  }

  /** The mode handed to a field's filter: `filterModes[name] || "any"`. */
  function ModeFor(filterModes: map<string, FilterMode>, fieldName: string): FilterMode {
    if fieldName in filterModes then filterModes[fieldName] else Any
  }

  predicate NoEmptySelections(filters: map<string, seq<string>>) {
    forall k :: k in filters ==> filters[k] != []
  }

  /** Reading a field's selection back after changing it gives the new
      selection; every other field's entry is untouched; and the map never
      holds an empty selection. */
  lemma UpdateFiltersSpec(filters: map<string, seq<string>>, fieldName: string, value: seq<string>)
    ensures ValueFor(UpdateFilters(filters, fieldName, value), fieldName) == value
    ensures fieldName in UpdateFilters(filters, fieldName, value) <==> value != []
    ensures forall k :: k != fieldName ==>
              (k in UpdateFilters(filters, fieldName, value) <==> k in filters) &&
              (k in filters ==> UpdateFilters(filters, fieldName, value)[k] == filters[k])
    ensures NoEmptySelections(filters) ==> NoEmptySelections(UpdateFilters(filters, fieldName, value))
  {
  }

  /** Changing a selection twice keeps only the second change. */
  lemma UpdateFiltersLastWins(filters: map<string, seq<string>>, fieldName: string, v1: seq<string>, v2: seq<string>)
    ensures UpdateFilters(UpdateFilters(filters, fieldName, v1), fieldName, v2) == UpdateFilters(filters, fieldName, v2)
  {
  }

  /** `entityDefinition.pageSize || 20`: an absent or zero page size falls
      back to 20. */
  function PageSize(def: EntityDefinition): (r: int)
    ensures r != 0
    ensures def.pageSize.Some? && def.pageSize.value != 0 ==> r == def.pageSize.value
    ensures def.pageSize.None? || def.pageSize.value == 0 ==> r == DefaultPageSize
  {
    if def.pageSize.Some? && def.pageSize.value != 0 then def.pageSize.value else DefaultPageSize
  }

  /** The arguments of the instance request. */
  datatype ListQuery = ListQuery(
    entityDefinitionId: string,
    page: int,
    limit: int,
    search: Option<string>,
    filters: Option<map<string, seq<string>>>,
    relationFilterModes: Option<map<string, FilterMode>>)

  /** The request for the current state: an empty search, an empty filter
      map and an empty mode map are left out rather than sent empty. */
  function QueryFor(def: EntityDefinition, page: int, search: string,
                    filters: map<string, seq<string>>, filterModes: map<string, FilterMode>): ListQuery
  {
    ListQuery(def.id, page, PageSize(def),
              if search != "" then Some(search) else None,
              if |filters| > 0 then Some(filters) else None,
              if |filterModes| > 0 then Some(filterModes) else None)
  }

  lemma QueryForSpec(def: EntityDefinition, page: int, search: string,
                     filters: map<string, seq<string>>, filterModes: map<string, FilterMode>)
    ensures var q := QueryFor(def, page, search, filters, filterModes);
            q.entityDefinitionId == def.id && q.page == page && q.limit == PageSize(def) &&
            (q.search.None? <==> search == "") && (q.search.Some? ==> q.search.value == search) &&
            (q.filters.None? <==> filters == map[]) && (q.filters.Some? ==> q.filters.value == filters) &&
            (q.relationFilterModes.None? <==> filterModes == map[]) &&
            (q.relationFilterModes.Some? ==> q.relationFilterModes.value == filterModes)
  {
    if filters != map[] {
      var k :| k in filters;
      assert k in filters.Keys;
    }
    if filterModes != map[] {
      var k :| k in filterModes;
      assert k in filterModes.Keys;
    }
  }

  /** The list's own state. Every change of the search text or of a filter
      returns to page 1; the mode map only changes when a mode is
      switched. */
  class EntityListState {
    var search: string
    var page: int
    var filters: map<string, seq<string>>
    var filterModes: map<string, FilterMode>

    /** Pages start at 1 and a field with no selected value has no entry. */
    ghost predicate Valid()
      reads this
    {
      page >= 1 && NoEmptySelections(filters)
    }

    constructor ()
      ensures Valid()
      ensures search == "" && page == 1 && filters == map[] && filterModes == map[]
    {
      search := "";
      page := 1;
      filters := map[];
      filterModes := map[];
    }

    /** The instance request for the current state; `deferredSearch` is
        the search text as the deferred value last delivered it. */
    function Query(def: EntityDefinition, deferredSearch: string): ListQuery
      reads this
    {
      QueryFor(def, page, deferredSearch, filters, filterModes)
    }

    /** `handleFilterChange`. */
    method FilterChange(fieldName: string, value: seq<string>)
      requires Valid()
      modifies this
      ensures Valid()
      ensures filters == UpdateFilters(old(filters), fieldName, value)
      ensures page == 1
      ensures filterModes == old(filterModes) && search == old(search)
    {
      var newFilters := filters;
      if |value| == 0 {
        newFilters := newFilters - {fieldName};
      } else {
        newFilters := newFilters[fieldName := value];
      }
      filters := newFilters;
      page := 1;
    }

    /** `handleFilterModeChange`: records the field's mode; the selection
        and the page stay as they are. */
    method FilterModeChange(fieldName: string, mode: FilterMode)
      requires Valid()
      modifies this
      ensures Valid()
      ensures filterModes == old(filterModes)[fieldName := mode]
      ensures ModeFor(filterModes, fieldName) == mode
      ensures filters == old(filters) && page == old(page) && search == old(search)
    {
      filterModes := filterModes[fieldName := mode];
    }

    /** Typing in the search box. */
    method SearchChange(text: string)
      requires Valid()
      modifies this
      ensures Valid()
      ensures search == text && page == 1
      ensures filters == old(filters) && filterModes == old(filterModes)
    {
      search := text;
      page := 1;
    }

    /** "Previous": one page back, never before page 1. */
    method PreviousPage()
      requires Valid()
      modifies this
      ensures Valid()
      ensures page == if old(page) > 1 then old(page) - 1 else 1
      ensures search == old(search) && filters == old(filters) && filterModes == old(filterModes)
    {
      page := if 1 >= page - 1 then 1 else page - 1;
    }

    /** "Next": one page on. */
    method NextPage()
      requires Valid()
      modifies this
      ensures Valid()
      ensures page == old(page) + 1
      ensures search == old(search) && filters == old(filters) && filterModes == old(filterModes)
    {
      page := page + 1;
    }
  }

  /** A user's path through a list whose "category" relation field is
      filterable: two clicks in its filter select two different related
      instances, and the request then carries both ids under "category",
      from page 1, with no mode map, since no mode was ever switched (the
      filter only shows "any" as its default). */
  method SelectTwoCategories(def: EntityDefinition, id1: string, id2: string) returns (q: ListQuery)
    requires id1 != id2
    ensures q == ListQuery(def.id, 1, PageSize(def), None, Some(map["category" := [id1, id2]]), None)
  {
    var list := new EntityListState();
    assert ValueFor(list.filters, "category") == [];
    var emitted := HandleSelect([], id1, true);
    assert Toggle([], id1) == [id1];
    list.FilterChange("category", emitted.value);
    assert list.filters == map["category" := [id1]];
    assert ValueFor(list.filters, "category") == [id1];
    emitted := HandleSelect([id1], id2, true);
    assert Distinct([id1]) == [id1] by { assert [id1][..0] == []; }
    assert Toggle([id1], id2) == [id1, id2];
    list.FilterChange("category", emitted.value);
    assert list.filters == map["category" := [id1, id2]];
    assert "category" in list.filters;
    q := list.Query(def, list.search);
    QueryForSpec(def, list.page, list.search, list.filters, list.filterModes);
  }

  /** The same path followed by switching the category filter to "any":
      only now is a mode map sent. */
  method SelectTwoCategoriesThenSetMode(def: EntityDefinition, id1: string, id2: string) returns (q: ListQuery)
    requires id1 != id2
    ensures q == ListQuery(def.id, 1, PageSize(def), None, Some(map["category" := [id1, id2]]), Some(map["category" := Any]))
  {
    var list := new EntityListState();
    list.FilterChange("category", [id1, id2]);
    var mode := HandleModeToggle(false, true);
    list.FilterModeChange("category", mode.value);
    q := list.Query(def, list.search);
    QueryForSpec(def, list.page, list.search, list.filters, list.filterModes);
  }

  /** The text of a table cell: a relation field is formatted from the
      related records (with "-" as its placeholder); any other field shows
      `String(value)`, or "—" when the value is null or undefined. */
  function CellText(f: Field, instance: Value): string {
    var value := Prop(instance, f.name);
    if IsRelationField(f) then ListFormat(value, f.dbType)
    else if value.Null? || value.Undefined? then "—"
    else ToJsString(value)
  }

  /** The cell of a missing value: the relation placeholder "-" for a
      relation column, the dash "—" for any other. */
  lemma CellOfMissingValue(f: Field, instance: Value)
    requires Prop(instance, f.name).Null? || Prop(instance, f.name).Undefined?
    ensures CellText(f, instance) == if IsRelationField(f) then "-" else "—"
  {
  }

  /** A present value of a non-relation column is shown as `String(value)`;
      a relation column always shows the list form of the relation. */
  lemma CellOfValue(f: Field, instance: Value)
    ensures IsRelationField(f) ==> CellText(f, instance) == ListFormat(Prop(instance, f.name), f.dbType)
    ensures !IsRelationField(f) && !Prop(instance, f.name).Null? && !Prop(instance, f.name).Undefined? ==>
              CellText(f, instance) == ToJsString(Prop(instance, f.name))
  {
  }

  /** The first cell of a row links to the instance, labelled by its
      `name`, or by its `id` when the name is falsy. */
  function RowLabel(instance: Value): (r: Value)
    ensures Truthy(Prop(instance, "name")) ==> r == Prop(instance, "name")
    ensures !Truthy(Prop(instance, "name")) ==> r == Prop(instance, "id")
  {
    var name := Prop(instance, "name");
    if Truthy(name) then name else Prop(instance, "id")
  }

  /** In a definition whose fields are a plain "name" text column and a
      filterable "category" relation column, both columns are shown and
      only "category" is offered as a filter. */
  lemma CategoryListFields(nameField: Field, category: Field)
    requires nameField.displayInTable && !nameField.filterableInList
    requires category.displayInTable && category.filterableInList && category.dbType == "manyToOne"
    requires category.relatedEntityDefinitionId.Some? && category.relatedEntityDefinitionId.value != ""
    ensures DisplayFields([nameField, category]) == [nameField, category]
    ensures FilterableFields([nameField, category]) == [category]
  {
    var fields := [nameField, category];
    FilterAll(fields, IsDisplayed);
    assert fields[1..] == [category] && fields[1..][1..] == [];
    assert Filter(fields[1..], IsFilterable) == [category] + Filter([], IsFilterable);
  }
}
