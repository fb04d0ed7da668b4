/** `loadEntityOptions`: builds the choices of a relation filter from the
    instances of the related entity definition. The two remote calls (the
    definition's configuration and its instance list) are parameters: each
    either returns a value or throws. */
module OptionLoader {
  import opened Base
  import opened Values
  import opened Schema

  /** One choice: the instance id and the text shown for it. */
  datatype LoadedOption = LoadedOption(id: string, title: string)

  datatype EntityOptionsData = EntityOptionsData(options: seq<LoadedOption>, titleField: string)

  /** An instance as the data service returns it, already flattened: its
      `id` and its other properties. */
  datatype Instance = Instance(id: string, props: seq<(string, Value)>)

  /** What a remote call can throw: an `Error` with a message, or any other
      value. */
  datatype Failure = Error(message: string) | NonError

  /** The outcome of an awaited remote call. */
  datatype Outcome<+T> = Returned(value: T) | Threw(failure: Failure)

  /** The arguments of the instance request. */
  datatype InstancesRequest = InstancesRequest(entityDefinitionId: string, page: int, limit: int)

  /** Every option list is fetched as one page of at most 1000 instances. */
  const OptionsPageSize := 1000

  /** The request the loader sends for a related definition. */
  function RequestFor(relatedId: string): (r: InstancesRequest)
    ensures r.entityDefinitionId == relatedId && r.page == 1 && r.limit == 1000
  {
    InstancesRequest(relatedId, 1, OptionsPageSize)
  }

  /** `instance[key]`: the id, or the named property. */
  function InstanceProp(inst: Instance, key: string): Value {
    if key == "id" then Str(inst.id) else PropsLookup(inst.props, key)
  }

  /** Index of the first field flagged as the option title. */
  function FirstTitleFlagged(fields: seq<Field>): (r: Option<nat>)
    ensures r.Some? ==> r.value < |fields| && fields[r.value].isOptionTitleField
    ensures r.Some? ==> forall j :: 0 <= j < r.value ==> !fields[j].isOptionTitleField
    ensures r.None? <==> forall j :: 0 <= j < |fields| ==> !fields[j].isOptionTitleField
  {
    if fields == [] then None
    else if fields[0].isOptionTitleField then Some(0)
    else match FirstTitleFlagged(fields[1..])
      case None => None
      case Some(i) => Some(i + 1)
  }

  /** The property shown as an option's title: the name of the first
      flagged field, else of the first field; "id" when there is no field
      or its name is empty. */
  function TitleFieldName(fields: seq<Field>): string {
    var chosen :=
      match FirstTitleFlagged(fields)
      case Some(i) => Some(fields[i])
      case None => if fields == [] then None else Some(fields[0]);
    if chosen.Some? && chosen.value.name != "" then chosen.value.name else "id"
  }

  /** One option per instance. `||` makes every falsy title value ("", 0,
      false, null, undefined) fall back to the id. */
  function ToOption(inst: Instance, titleFieldName: string): LoadedOption {
    var t := InstanceProp(inst, titleFieldName);
    LoadedOption(inst.id, if Truthy(t) then ToJsString(t) else inst.id)
  }

  function ToOptions(instances: seq<Instance>, titleFieldName: string): (r: seq<LoadedOption>)
    ensures |r| == |instances|
    ensures forall i :: 0 <= i < |r| ==> r[i] == ToOption(instances[i], titleFieldName)
  {
    if instances == [] then []
    else [ToOption(instances[0], titleFieldName)] + ToOptions(instances[1..], titleFieldName)
  }

  /** The message of the error the loader rethrows. */
  function FailureMessage(f: Failure): (m: string)
    ensures f.Error? ==> m == "Failed to load options: " + f.message
    ensures f.NonError? ==> m == "Failed to load options: Unknown error"
  {
    "Failed to load options: " + (if f.Error? then f.message else "Unknown error")
  }

  /** `loadEntityOptions`: fetch the configuration, choose the title field,
      fetch the instances (a missing `data` counts as none) and map them.
      A failure of either call becomes `Err` with the normalised message. */
  function LoadEntityOptions(
    relatedId: string,
    getConfig: string -> Outcome<seq<Field>>,
    getInstances: InstancesRequest -> Outcome<Option<seq<Instance>>>): Result<EntityOptionsData>
  {
    match getConfig(relatedId)
    case Threw(f) => Err(FailureMessage(f))
    case Returned(fields) =>
      var name := TitleFieldName(fields);
      match getInstances(RequestFor(relatedId))
      case Threw(f) => Err(FailureMessage(f))
      case Returned(data) =>
        var instances := if data.Some? then data.value else [];
        Ok(EntityOptionsData(ToOptions(instances, name), name))
  }

  /** The title field is the first flagged field, else the first field, and
      "id" when there are no fields. */
  lemma TitleFieldChoice(fields: seq<Field>)
    ensures fields == [] ==> TitleFieldName(fields) == "id"
    ensures forall i :: 0 <= i < |fields| && fields[i].isOptionTitleField &&
                        (forall j :: 0 <= j < i ==> !fields[j].isOptionTitleField) ==>
              TitleFieldName(fields) == (if fields[i].name != "" then fields[i].name else "id")
    ensures fields != [] && (forall j :: 0 <= j < |fields| ==> !fields[j].isOptionTitleField) ==>
              TitleFieldName(fields) == (if fields[0].name != "" then fields[0].name else "id")
    ensures TitleFieldName(fields) != ""
  {
    forall i | 0 <= i < |fields| && fields[i].isOptionTitleField &&
               (forall j :: 0 <= j < i ==> !fields[j].isOptionTitleField)
      ensures FirstTitleFlagged(fields) == Some(i)
    {
      assert FirstTitleFlagged(fields).Some?;
    }
  }

  /** On success there is exactly one option per returned instance, in the
      same order, carrying its id, and the reported title field is the one
      chosen from the configuration. */
  lemma LoadedOptionsMatchInstances(
    relatedId: string,
    getConfig: string -> Outcome<seq<Field>>,
    getInstances: InstancesRequest -> Outcome<Option<seq<Instance>>>,
    fields: seq<Field>,
    instances: seq<Instance>)
    requires getConfig(relatedId) == Returned(fields)
    requires getInstances(RequestFor(relatedId)) == Returned(Some(instances))
    ensures LoadEntityOptions(relatedId, getConfig, getInstances).Ok?
    ensures var d := LoadEntityOptions(relatedId, getConfig, getInstances).value;
            d.titleField == TitleFieldName(fields) &&
            |d.options| == |instances| &&
            forall i :: 0 <= i < |instances| ==>
              d.options[i].id == instances[i].id &&
              d.options[i].title ==
                (var t := InstanceProp(instances[i], d.titleField);
                 if Truthy(t) then ToJsString(t) else instances[i].id)
  {
  }

  /** A response without `data` yields no options (but still succeeds). */
  lemma MissingDataGivesNoOptions(
    relatedId: string,
    getConfig: string -> Outcome<seq<Field>>,
    getInstances: InstancesRequest -> Outcome<Option<seq<Instance>>>)
    requires getConfig(relatedId).Returned?
    requires getInstances(RequestFor(relatedId)) == Returned(None)
    ensures LoadEntityOptions(relatedId, getConfig, getInstances) ==
            Ok(EntityOptionsData([], TitleFieldName(getConfig(relatedId).value)))
  {
  }

  /** Falsy title values fall back to the instance id. */
  lemma FalsyTitleFallsBackToId(inst: Instance, titleFieldName: string)
    requires !Truthy(InstanceProp(inst, titleFieldName))
    ensures ToOption(inst, titleFieldName) == LoadedOption(inst.id, inst.id)
  {
  }

  /** A non-empty string title is shown as it is. */
  lemma StringTitleShown(inst: Instance, titleFieldName: string, s: string)
    requires titleFieldName != "id" && PropsLookup(inst.props, titleFieldName) == Str(s) && s != ""
    ensures ToOption(inst, titleFieldName).title == s
  {
  }

  /** Every failure is reported as an error whose message starts with
      "Failed to load options: "; the configuration is fetched first, so its
      failure wins. */
  lemma FailuresAreNormalised(
    relatedId: string,
    getConfig: string -> Outcome<seq<Field>>,
    getInstances: InstancesRequest -> Outcome<Option<seq<Instance>>>)
    ensures getConfig(relatedId).Threw? ==>
              LoadEntityOptions(relatedId, getConfig, getInstances) == Err(FailureMessage(getConfig(relatedId).failure))
    ensures getConfig(relatedId).Returned? && getInstances(RequestFor(relatedId)).Threw? ==>
              LoadEntityOptions(relatedId, getConfig, getInstances) ==
              Err(FailureMessage(getInstances(RequestFor(relatedId)).failure))
    ensures LoadEntityOptions(relatedId, getConfig, getInstances).Err? <==>
              getConfig(relatedId).Threw? || getInstances(RequestFor(relatedId)).Threw?
    ensures LoadEntityOptions(relatedId, getConfig, getInstances).Err? ==>
              var m := LoadEntityOptions(relatedId, getConfig, getInstances).message;
              |m| >= 24 && m[..24] == "Failed to load options: "
  {
  }

  /** The loader sends exactly one instance request, page 1 of 1000: two
      services that agree on the configuration and on that request give the
      same result. */
  lemma OnlyTheOneRequestMatters(
    relatedId: string,
    getConfig: string -> Outcome<seq<Field>>,
    getInstances1: InstancesRequest -> Outcome<Option<seq<Instance>>>,
    getInstances2: InstancesRequest -> Outcome<Option<seq<Instance>>>)
    requires getInstances1(InstancesRequest(relatedId, 1, 1000)) == getInstances2(InstancesRequest(relatedId, 1, 1000))
    ensures LoadEntityOptions(relatedId, getConfig, getInstances1) == LoadEntityOptions(relatedId, getConfig, getInstances2)
  {
  }

  /** A title field flagged in the configuration ("title" here), and
      instances carrying that property: each option is the instance's id
      with its title. */
  lemma TitleFlaggedScenario(
    relatedId: string,
    getConfig: string -> Outcome<seq<Field>>,
    getInstances: InstancesRequest -> Outcome<Option<seq<Instance>>>,
    titleField: Field,
    idField: Field,
    a: string, b: string, alpha: string, beta: string)
    requires titleField.name == "title" && titleField.isOptionTitleField
    requires getConfig(relatedId) == Returned([titleField, idField])
    requires alpha != "" && beta != ""
    requires getInstances(RequestFor(relatedId)) ==
             Returned(Some([Instance(a, [("title", Str(alpha))]), Instance(b, [("title", Str(beta))])]))
    ensures LoadEntityOptions(relatedId, getConfig, getInstances) ==
            Ok(EntityOptionsData([LoadedOption(a, alpha), LoadedOption(b, beta)], "title"))
  {
    assert FirstTitleFlagged([titleField, idField]) == Some(0);
    var instances := [Instance(a, [("title", Str(alpha))]), Instance(b, [("title", Str(beta))])];
    assert ToOptions(instances, "title") == [LoadedOption(a, alpha), LoadedOption(b, beta)];
  }
}
