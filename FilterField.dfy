/** The list filter for one field: it decides whether the field is a
    relation, loads the relation's choices lazily (only while its popover is
    open) and hands options, loading and error state to the faceted filter
    control. The options query itself is an input: its data, loading flag
    and error. */
module FilterField {
  import opened Base
  import opened Schema
  import opened FacetedFilter
  import opened OptionLoader

  /** The state of the options query as the component reads it. */
  datatype OptionsQuery = OptionsQuery(data: Option<EntityOptionsData>, isLoading: bool, error: Option<string>)

  /** The properties passed to the faceted filter control. */
  datatype FacetProps = FacetProps(
    title: string,
    options: seq<FacetOption>,
    value: seq<string>,
    showModeToggle: bool,
    filterMode: FilterMode,
    isLoading: bool,
    error: Option<string>)

  /** The options query runs only while the popover is open, and only for a
      relation field. */
  predicate ShouldLoadOptions(popoverOpen: bool, f: Field) {
    popoverOpen && IsRelationField(f)
  }

  /** Loaded choices become `{label: title, value: id}`. */
  function LoadedFacetOptions(opts: seq<LoadedOption>): (r: seq<FacetOption>)
    ensures |r| == |opts|
    ensures forall i :: 0 <= i < |r| ==> r[i].labelText == opts[i].title && r[i].value == opts[i].id
  {
    if opts == [] then [] else [FacetOption(opts[0].title, opts[0].id)] + LoadedFacetOptions(opts[1..])
  }

  /** Static choices become `{label: name, value: id}`. */
  function StaticFacetOptions(opts: seq<FieldOption>): (r: seq<FacetOption>)
    ensures |r| == |opts|
    ensures forall i :: 0 <= i < |r| ==> r[i].labelText == opts[i].name && r[i].value == opts[i].id
  {
    if opts == [] then [] else [FacetOption(opts[0].name, opts[0].id)] + StaticFacetOptions(opts[1..])
  }

  /** The `options` memo: loaded choices for a relation field once they are
      there, otherwise the field's static choices, otherwise none. */
  function OptionsFor(f: Field, data: Option<EntityOptionsData>): seq<FacetOption> {
    if IsRelationField(f) && data.Some? then LoadedFacetOptions(data.value.options)
    else if f.options.Some? then StaticFacetOptions(f.options.value)
    else []
  }

  /** The props handed to the control; `value` and `filterMode` default to
      the empty selection and "any". */
  function Props(f: Field, value: Option<seq<string>>, filterMode: Option<FilterMode>,
                 popoverOpen: bool, query: OptionsQuery): FacetProps
  {
    var load := ShouldLoadOptions(popoverOpen, f);
    FacetProps(
      f.labelText,
      OptionsFor(f, query.data),
      if value.Some? then value.value else [],
      IsRelationField(f),
      if filterMode.Some? then filterMode.value else Any,
      load && query.isLoading,
      if load && query.error.Some? then query.error else None)
  }

  /** A relation field names a related definition and has one of the four
      relation database types. */
  lemma RelationFieldIff(f: Field)
    ensures IsRelationField(f) <==>
            f.relatedEntityDefinitionId.Some? && f.relatedEntityDefinitionId.value != "" &&
            (f.dbType == "manyToOne" || f.dbType == "oneToOne" ||
             f.dbType == "manyToMany" || f.dbType == "oneToMany")
  {
  }

  /** A relation field with loaded data shows exactly the loaded choices,
      in order. */
  lemma LoadedOptionsShown(f: Field, data: EntityOptionsData)
    requires IsRelationField(f)
    ensures var r := OptionsFor(f, Some(data));
            |r| == |data.options| &&
            forall i :: 0 <= i < |r| ==> r[i] == FacetOption(data.options[i].title, data.options[i].id)
  {
  }

  /** Without loaded data (a non-relation field, or a relation field before
      its choices arrive) the static choices are shown, or none. */
  lemma StaticOptionsShown(f: Field, data: Option<EntityOptionsData>)
    requires !IsRelationField(f) || data.None?
    ensures f.options.None? ==> OptionsFor(f, data) == []
    ensures f.options.Some? ==>
              var r := OptionsFor(f, data);
              |r| == |f.options.value| &&
              forall i :: 0 <= i < |r| ==> r[i] == FacetOption(f.options.value[i].name, f.options.value[i].id)
  {
  }

  /** Loading and error are reported only while the options query is
      enabled; an enabled query passes its own flag and error through. */
  lemma LoadingAndErrorGated(f: Field, value: Option<seq<string>>, filterMode: Option<FilterMode>,
                             popoverOpen: bool, query: OptionsQuery)
    ensures var p := Props(f, value, filterMode, popoverOpen, query);
            (p.isLoading <==> popoverOpen && IsRelationField(f) && query.isLoading) &&
            (p.error.Some? <==> popoverOpen && IsRelationField(f) && query.error.Some?) &&
            (p.error.Some? ==> p.error == query.error)
  {
  }

  /** The control gets the ANY/ALL switch exactly for relation fields, so
      a non-relation filter never shows it. */
  lemma ModeToggleOnlyForRelations(f: Field, value: Option<seq<string>>, filterMode: Option<FilterMode>,
                                   popoverOpen: bool, query: OptionsQuery, selected: seq<string>)
    ensures Props(f, value, filterMode, popoverOpen, query).showModeToggle == IsRelationField(f)
    ensures ModeToggleVisible(Props(f, value, filterMode, popoverOpen, query).showModeToggle, selected) ==>
              IsRelationField(f)
  {
  }

  /** Absent props default to no selection and the "any" mode. */
  lemma PropDefaults(f: Field, popoverOpen: bool, query: OptionsQuery)
    ensures Props(f, None, None, popoverOpen, query).value == []
    ensures Props(f, None, None, popoverOpen, query).filterMode == Any
  {
  }

  /** The component's one piece of state: whether the popover is open. It
      starts closed, so nothing is fetched until the user opens it. */
  class FilterFieldState {
    var popoverOpen: bool

    constructor ()
      ensures !popoverOpen
    {
      popoverOpen := false;
    }

    predicate ShouldLoad(f: Field)
      reads this
    {
      ShouldLoadOptions(popoverOpen, f)
    }

    /** `onOpenChange={setPopoverOpen}`: the control reports the popover
        state; opening a relation field's popover enables the query. */
    method OnOpenChange(open: bool, f: Field)
      modifies this
      ensures popoverOpen == open
      ensures ShouldLoad(f) <==> open && IsRelationField(f)
    {
      popoverOpen := open;
    }
  }
}
