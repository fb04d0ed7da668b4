/** The shared configuration of the page tree: the project's entity
    definitions keyed by slug, and the project id. A component reads it
    through `useEntityDefinitions`, which fails outside a provider, and
    looks one definition up with `useEntityDefinition`. */
module DefinitionsProvider {
  import opened Base
  import opened Schema

  /** The provider's value. `entityDefinitions` is the slug-keyed record in
      its enumeration order; as the keys of an object, the slugs are
      distinct. */
  datatype DefinitionsContext = DefinitionsContext(
    entityDefinitions: seq<(string, DefinitionWithFields)>,
    projectId: string)

  const MissingProviderMessage := "useEntityDefinitions must be used within EntityDefinitionsProvider"

  /** `useEntityDefinitions`: the provider's value, or the error thrown when
      there is none. */
  function UseEntityDefinitions(context: Option<DefinitionsContext>): (r: Result<DefinitionsContext>)
    ensures context.None? <==> r == Err(MissingProviderMessage)
    ensures context.Some? ==> r == Ok(context.value)
  {
    if context.None? then Err(MissingProviderMessage) else Ok(context.value)
  }

  /** `entityDefinitions[key]`. */
  function ByKey(entries: seq<(string, DefinitionWithFields)>, key: string): (r: Option<DefinitionWithFields>)
    ensures r.Some? ==> exists i :: 0 <= i < |entries| && entries[i] == (key, r.value)
    ensures r.None? <==> forall i :: 0 <= i < |entries| ==> entries[i].0 != key
  {
    if entries == [] then None
    else if entries[0].0 == key then Some(entries[0].1)
    else ByKey(entries[1..], key)
  }

  /** `Object.values(entityDefinitions).find((e) => e.id === id)`. */
  function ById(entries: seq<(string, DefinitionWithFields)>, id: string): (r: Option<DefinitionWithFields>)
    ensures r.Some? ==> r.value.definition.id == id &&
                        exists i :: 0 <= i < |entries| && entries[i].1 == r.value &&
                                    forall j :: 0 <= j < i ==> entries[j].1.definition.id != id
    ensures r.None? <==> forall i :: 0 <= i < |entries| ==> entries[i].1.definition.id != id
  {
    if entries == [] then None
    else if entries[0].1.definition.id == id then Some(entries[0].1)
    else ById(entries[1..], id)
  }

  /** What `useEntityDefinition` returns. */
  datatype DefinitionLookup = DefinitionLookup(entityDefinition: Option<DefinitionWithFields>, fields: seq<Field>)

  /** `useEntityDefinition`: the definition whose slug is the argument,
      else the first one whose id is the argument, with its fields (none
      when nothing matched). Outside a provider it fails as
      `useEntityDefinitions` does. */
  function UseEntityDefinition(context: Option<DefinitionsContext>, idOrSlug: string): Result<DefinitionLookup> {
    match UseEntityDefinitions(context)
    case Err(m) => Err(m)
    case Ok(ctx) =>
      var found :=
        match ByKey(ctx.entityDefinitions, idOrSlug)
        case Some(d) => Some(d)
        case None => ById(ctx.entityDefinitions, idOrSlug);
      Ok(DefinitionLookup(found, if found.Some? then found.value.fields else []))
  }

  /** Outside a provider both hooks fail with the same message. */
  lemma MissingProviderFails(idOrSlug: string)
    ensures UseEntityDefinitions(None) == Err("useEntityDefinitions must be used within EntityDefinitionsProvider")
    ensures UseEntityDefinition(None, idOrSlug) == Err("useEntityDefinitions must be used within EntityDefinitionsProvider")
  {
  }

  /** A slug key wins over any definition whose id happens to equal the
      argument. */
  lemma SlugTakesPrecedence(ctx: DefinitionsContext, idOrSlug: string, i: nat)
    requires i < |ctx.entityDefinitions| && ctx.entityDefinitions[i].0 == idOrSlug
    requires forall j :: 0 <= j < i ==> ctx.entityDefinitions[j].0 != idOrSlug
    ensures UseEntityDefinition(Some(ctx), idOrSlug) ==
            Ok(DefinitionLookup(Some(ctx.entityDefinitions[i].1), ctx.entityDefinitions[i].1.fields))
  {
    ByKeyFirst(ctx.entityDefinitions, idOrSlug, i);
  }

  lemma {:induction false} ByKeyFirst(entries: seq<(string, DefinitionWithFields)>, key: string, i: nat)
    requires i < |entries| && entries[i].0 == key
    requires forall j :: 0 <= j < i ==> entries[j].0 != key
    ensures ByKey(entries, key) == Some(entries[i].1)
  {
    if i > 0 {
      ByKeyFirst(entries[1..], key, i - 1);
    }
  }

  /** Only when no slug key matches is the argument taken as an id; then
      the first definition with that id is returned. */
  lemma IdIsFallback(ctx: DefinitionsContext, idOrSlug: string)
    requires forall i :: 0 <= i < |ctx.entityDefinitions| ==> ctx.entityDefinitions[i].0 != idOrSlug
    ensures var r := UseEntityDefinition(Some(ctx), idOrSlug);
            r.Ok? && r.value.entityDefinition == ById(ctx.entityDefinitions, idOrSlug)
    ensures var r := UseEntityDefinition(Some(ctx), idOrSlug);
            r.value.entityDefinition.Some? ==> r.value.entityDefinition.value.definition.id == idOrSlug
  {
  }

  /** When neither a key nor an id matches, there is no definition and the
      field list is empty; when one matches, the fields are its fields. */
  lemma LookupResult(ctx: DefinitionsContext, idOrSlug: string)
    ensures var r := UseEntityDefinition(Some(ctx), idOrSlug);
            r.Ok? &&
            (r.value.entityDefinition.None? <==>
               forall i :: 0 <= i < |ctx.entityDefinitions| ==>
                 ctx.entityDefinitions[i].0 != idOrSlug && ctx.entityDefinitions[i].1.definition.id != idOrSlug) &&
            (r.value.entityDefinition.None? ==> r.value.fields == []) &&
            (r.value.entityDefinition.Some? ==> r.value.fields == r.value.entityDefinition.value.fields)
  {
    var r := UseEntityDefinition(Some(ctx), idOrSlug);
    if r.value.entityDefinition.None? {
      assert ByKey(ctx.entityDefinitions, idOrSlug).None?;
    }
  }
}
