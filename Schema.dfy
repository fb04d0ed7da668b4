/** The configuration records delivered by the remote configuration
    service: fields and entity definitions. They are read-only values for
    every component. */
module Schema {
  import opened Base

  /** A statically configured choice of an enumerated field. */
  datatype FieldOption = FieldOption(id: string, name: string)

  datatype Field = Field(
    id: string,
    name: string,
    labelText: string,        // `label`
    dbType: string,           // "manyToOne", "boolean", "timestamptz", ...
    fieldType: string,        // the UI type: "images", "files", ...
    relatedEntityDefinitionId: Option<string>,
    filterableInList: bool,
    searchable: bool,
    displayInTable: bool,
    options: Option<seq<FieldOption>>,
    sectionIndex: Option<int>,
    isOptionTitleField: bool)

  datatype EntityDefinition = EntityDefinition(
    id: string,
    slug: string,
    name: string,
    pageSize: Option<int>,
    titleSection0: Option<string>,
    titleSection1: Option<string>,
    titleSection2: Option<string>,
    titleSection3: Option<string>)

  /** An entity definition together with its fields, as the configuration
      service returns it. */
  datatype DefinitionWithFields = DefinitionWithFields(definition: EntityDefinition, fields: seq<Field>)

  const RelationDbTypes: set<string> := {"manyToOne", "oneToOne", "manyToMany", "oneToMany"}

  predicate IsToOne(dbType: string) {
    dbType == "manyToOne" || dbType == "oneToOne"
  }

  /** `!!field.relatedEntityDefinitionId`. */
  predicate HasRelatedId(f: Field) {
    f.relatedEntityDefinitionId.Some? && f.relatedEntityDefinitionId.value != ""
  }

  /** A relation field: it names a related definition and has one of the
      four relation database types. The list filter policy, the list
      cell, the detail view and the filter adapter all use this test. */
  predicate IsRelationField(f: Field) {
    HasRelatedId(f) && f.dbType in RelationDbTypes
  }

  /** `field.options && field.options.length > 0`. */
  predicate HasStaticOptions(f: Field) {
    f.options.Some? && |f.options.value| > 0
  }
}
