# client-starter-kit core, modelled in Dafny

This project models the client-side logic of the entity browser in the
client starter kit. The browser works from a project's entity
definitions, each with its own fields, and shows each definition's
instances.

- **List page** (`EntityListClient`):
  - chooses which fields become columns, filters and search;
  - keeps the search, page, per-field filter and per-field filter-mode
    state;
  - builds the instance query from that state;
  - renders each cell.
  - A relation cell shows the related record's title, or a count with up
    to three names.
- **Faceted filter** (`DataTableFacetedFilter`):
  - toggles selected ids with JavaScript `Set` semantics;
  - filters options by a case-insensitive search;
  - switches between "any" and "all" matching;
  - works out what the trigger button, the option list and the footer
    show.
- **Filter field** (`FilterField`): adapts one field to the faceted
  filter. It loads a relation field's options only while the popover is
  open.
- **Option loader** (`loadEntityOptions`): turns the related definition's
  configuration and instances into `{id, title}` choices, and normalises
  failures.
- **Detail page** (`EntityDetailClient`):
  - hides system fields;
  - groups fields by section index and orders the sections;
  - titles the first four sections;
  - renders each value.
- **Utilities**:
  - `generateSlug`;
  - `findEntityDefinitionBySlug`;
  - the definitions provider's two hooks.

Modules:

- `Base`: Option and Result, and the list helpers `Filter`, `Take`, `Find`.
- `Text`: whitespace trim, lower-casing, substring search, `Join`, decimal printing.
- `Values`: a JavaScript value (`undefined`, `null`, boolean, integer, string, array, object) with its truthiness and `String()`.
- `Schema`: fields and entity definitions, and the relation-field test.
- `RelationDisplay`: the related-record title heuristic and the relation formatters of both pages.
- `FacetedFilter`: the faceted filter, with a class `FacetState` for its `open` and `searchQuery` state.
- `FilterField`: the filter field, with a class `FilterFieldState` for `popoverOpen`.
- `OptionLoader`: `loadEntityOptions`, with the two remote calls as function parameters.
- `EntityList`: field policies, the filter maps and the query, with a class `EntityListState` for the page's state.
- `EntityDetail`: the detail page's field selection, section grouping (a loop method), section ordering (an insertion-sort method) and value rendering.
- `Slug`, `EntityMapping`, `DefinitionsProvider`: the utilities.

Three behaviours of the code are worth stating plainly, since the model
keeps each of them exactly:

- **Filter modes are sent only after a toggle.** A field's filter mode
  is sent with the query only once the user has toggled it. Until then,
  `relationFilterModes` is absent from the query.
  `SelectTwoCategories` and `SelectTwoCategoriesThenSetMode` state both
  queries.
- **Falsy titles fall back to the id.** The option title falls back to
  the instance id whenever the title value is falsy, not only when it is
  missing. Examples are `""`, `0` and `false`. The code uses `||` here.
- **Selections keep `Set` insertion order.** A toggled selection keeps
  JavaScript `Set` insertion order. A removed id leaves the others in
  place, and an added id goes last.

## Model

| member | source | states |
|---|---|---|
| RelationDisplay.StandardTitle | components/EntityListClient.tsx:49-56 | no title comes from the standard keys exactly when none of them holds a value other than undefined or null whose trimmed `String()` is non-empty |
| RelationDisplay.StandardTitleAt | components/EntityListClient.tsx:49-56 | the first qualifying standard key, in the order name, Name, title, Title, gives the title, as its trimmed `String()` |
| RelationDisplay.EntryTitle | components/EntityListClient.tsx:58-63 | the scan over the object's own entries finds nothing exactly when no non-system key holds a non-blank string |
| RelationDisplay.EntryTitleAt | components/EntityListClient.tsx:58-63 | the first qualifying entry gives the title, trimmed |
| RelationDisplay.StandardTitleTrimmed | components/EntityListClient.tsx:49-56 | a title found by a standard key is non-empty and has no surrounding whitespace |
| RelationDisplay.EntryTitleTrimmed | components/EntityListClient.tsx:58-63 | a title found by the entry scan is non-empty and trimmed |
| RelationDisplay.TitleOfNonObject | components/EntityListClient.tsx:38 | anything falsy or not an object shows as "-" |
| RelationDisplay.TitleByStandardKey | components/EntityListClient.tsx:37-56 | for an object, the first qualifying standard key decides the title |
| RelationDisplay.NameTakesPriority | components/EntityListClient.tsx:49-56 | a usable `name` wins over Name, title and Title |
| RelationDisplay.TitleByEntry | components/EntityListClient.tsx:37-63 | with no standard key usable, the first non-system string entry decides |
| RelationDisplay.TitleById | components/EntityListClient.tsx:65-66 | with nothing else usable, the title is the id when it is truthy, else "-" |
| RelationDisplay.TitleFoundIsTrimmed | components/EntityListClient.tsx:49-63 | whenever a key or entry qualifies, the title is non-empty and trimmed |
| RelationDisplay.Titles | components/EntityListClient.tsx:95-96 | mapping the titles keeps length and position: element i is the title of item i |
| RelationDisplay.ResolvedNamesMembership | components/EntityListClient.tsx:95-97 | a name is listed iff some item's title is it and it is neither empty nor "-" |
| RelationDisplay.ToOneTarget | components/EntityListClient.tsx:81-90 | a to-one cell shows the object itself or the first element of an array, and only a truthy one; non-objects give nothing |
| RelationDisplay.CountSummaryStartsWithCount | components/EntityListClient.tsx:101-109 | a to-many summary starts with the item count followed by " (" and is never the "-" placeholder |
| RelationDisplay.ListManyStartsWithCount | components/EntityListClient.tsx:93-109 | a to-many list cell is "-" or starts with the array's length |
| RelationDisplay.ListAgreesWithDetail | components/EntityDetailClient.tsx:54-88 | the detail page's relation rendering and the list cell agree: placeholder vs "-", the same single name, and the same resolved names for to-many |
| RelationDisplay.FiveNamesSummary | components/EntityListClient.tsx:93-109 | five related records named A to E render as "5 (A, B, C, +2 more)" |
| RelationDisplay.CountSummaryOfFive | components/EntityListClient.tsx:101-109 | the summary of five names shows the first three and "+2 more" |
| RelationDisplay.ManySummary | components/EntityListClient.tsx:93-109 | a non-empty to-many array with resolved names renders as the count summary |
| RelationDisplay.NamedTitle | components/EntityListClient.tsx:49-56 | a record whose `name` is a non-empty trimmed string shows that name |
| RelationDisplay.NamedTitles | components/EntityListClient.tsx:95-96 | records each carrying a usable name map to exactly those names |
| FacetedFilter.Distinct | components/DataTableFacetedFilter.tsx:96 | `new Set(value)` keeps exactly the same members, without duplicates |
| FacetedFilter.DistinctOfDistinct | components/DataTableFacetedFilter.tsx:96 | a duplicate-free selection passes through `new Set` unchanged, order included |
| FacetedFilter.Without | components/DataTableFacetedFilter.tsx:98 | `delete` leaves every member except the removed one |
| FacetedFilter.WithoutAt | components/DataTableFacetedFilter.tsx:98 | deleting the id at position i leaves the others in their order |
| FacetedFilter.HandleSelect | components/DataTableFacetedFilter.tsx:92-106 | without `onChange` nothing is emitted; otherwise the emitted array is the toggle of the selection by the option value |
| FacetedFilter.ToggleMembership | components/DataTableFacetedFilter.tsx:96-102 | after a toggle, x is selected iff exactly one of "x was selected" and "x is the toggled id" holds |
| FacetedFilter.ToggleNoDuplicates | components/DataTableFacetedFilter.tsx:96-102 | the emitted selection never has duplicates |
| FacetedFilter.ToggleRemovesInPlace | components/DataTableFacetedFilter.tsx:97-98 | toggling a selected id removes it and keeps the rest in order |
| FacetedFilter.ToggleAppends | components/DataTableFacetedFilter.tsx:99-100 | toggling an unselected id appends it at the end |
| FacetedFilter.ToggleTwice | components/DataTableFacetedFilter.tsx:92-106 | toggling the same id twice restores exactly the selected members |
| FacetedFilter.ToggleUndo | components/DataTableFacetedFilter.tsx:96-102 | selecting a new id and clicking it again gives back the exact selection, order included |
| FacetedFilter.HandleClear | components/DataTableFacetedFilter.tsx:108-110 | clearing emits the empty selection exactly when there is an `onChange` |
| FacetedFilter.ModeSwitchRoundTrip | components/DataTableFacetedFilter.tsx:73-78 | the switch's checked state and the filter mode convert into each other without loss in both directions |
| FacetedFilter.HandleModeToggle | components/DataTableFacetedFilter.tsx:73-78 | a mode is emitted iff a callback exists, and it is "all" iff the switch is checked |
| FacetedFilter.FooterVisibleIff | components/DataTableFacetedFilter.tsx:226 | the footer shows iff something is selected |
| FacetedFilter.ModeToggleVisibleIff | components/DataTableFacetedFilter.tsx:230 | the mode switch shows iff enabled and at least two distinct values are selected, and only with the footer |
| FacetedFilter.MatchingOptions | components/DataTableFacetedFilter.tsx:86-89 | an option survives iff its lower-cased label contains the query; none are invented |
| FacetedFilter.FilteredOptionsSpec | components/DataTableFacetedFilter.tsx:84-90 | an empty search shows all options; otherwise an option shows iff the lower-cased query occurs in its lower-cased label |
| FacetedFilter.FilteredOptionsKeepOrder | components/DataTableFacetedFilter.tsx:84-90 | filtering distributes over concatenation, so option order is kept |
| FacetedFilter.SelectedLabels | components/DataTableFacetedFilter.tsx:141-151 | there are never more badges than options |
| FacetedFilter.SelectedLabelsMembers | components/DataTableFacetedFilter.tsx:141-151 | the badges are exactly the labels of the options whose value is selected: each badge belongs to such an option, and every such option has its badge |
| FacetedFilter.SelectedLabelsAppend | components/DataTableFacetedFilter.tsx:141-143 | the badges follow option-list order: the badges of a split list are those of the first part, then those of the second |
| FacetedFilter.Trigger | components/DataTableFacetedFilter.tsx:123-153 | no badges iff nothing is selected; the "N selected" text iff more than two distinct ids are selected; otherwise the selected options' labels in option order |
| FacetedFilter.ListAreaOf | components/DataTableFacetedFilter.tsx:185-197 | loading wins, then a non-empty error, then "no results" for an empty list, else the filtered options |
| FacetedFilter.FacetState.constructor | components/DataTableFacetedFilter.tsx:60-61 | the popover starts closed with an empty search |
| FacetedFilter.FacetState.HandleOpenChange | components/DataTableFacetedFilter.tsx:64-70 | sets `open` and forwards the new state iff a listener exists |
| FacetedFilter.FacetState.HandleClose | components/DataTableFacetedFilter.tsx:112-115 | closes and clears the search, after which every option is visible again |
| FacetedFilter.FacetState.SetSearchQuery | components/DataTableFacetedFilter.tsx:169 | sets the search text and nothing else |
| FilterField.RelationFieldIff | components/FilterField.tsx:34-39 | a field is a relation field iff it has a non-empty related definition id and one of the four relation database types |
| FilterField.LoadedFacetOptions | components/FilterField.tsx:56-59 | loaded options map to label = title and value = id, position by position |
| FilterField.StaticFacetOptions | components/FilterField.tsx:64-67 | static options map to label = name and value = id, position by position |
| FilterField.LoadedOptionsShown | components/FilterField.tsx:55-60 | a relation field with loaded data offers exactly the loaded options |
| FilterField.StaticOptionsShown | components/FilterField.tsx:63-68 | otherwise the field's own options are offered, or none |
| FilterField.LoadingAndErrorGated | components/FilterField.tsx:81-82 | the loading flag and error reach the filter only while options should load |
| FilterField.ModeToggleOnlyForRelations | components/FilterField.tsx:77 | the mode switch is enabled exactly for relation fields |
| FilterField.PropDefaults | components/FilterField.tsx:26-28 | with no value and no mode given, the selection is empty and the mode is "any" |
| FilterField.FilterFieldState.constructor | components/FilterField.tsx:31 | the popover starts closed |
| FilterField.FilterFieldState.OnOpenChange | components/FilterField.tsx:42 | after the popover changes, options should load iff it is open and the field is a relation field |
| OptionLoader.RequestFor | hooks/load-entity-options.ts:37-40 | instances are requested for the related definition, page 1, limit 1000 |
| OptionLoader.FirstTitleFlagged | hooks/load-entity-options.ts:32-33 | finds the first field flagged as option title, and none exactly when none is flagged |
| OptionLoader.TitleFieldChoice | hooks/load-entity-options.ts:32-34 | the title field is the first flagged field, else the first field, and "id" when there is none or its name is empty |
| OptionLoader.ToOptions | hooks/load-entity-options.ts:43-51 | one option per instance, in order |
| OptionLoader.FailureMessage | hooks/load-entity-options.ts:60-64 | a thrown `Error` keeps its message after the prefix; anything else becomes "Unknown error" |
| OptionLoader.LoadedOptionsMatchInstances | hooks/load-entity-options.ts:21-53 | on success there is one option per returned instance, with the instance id, and the reported title field is the chosen one |
| OptionLoader.MissingDataGivesNoOptions | hooks/load-entity-options.ts:43 | a response without `data` gives an empty option list, not a failure |
| OptionLoader.FalsyTitleFallsBackToId | hooks/load-entity-options.ts:45 | a falsy title value falls back to the instance id |
| OptionLoader.StringTitleShown | hooks/load-entity-options.ts:45-49 | a non-empty string title is shown as it is |
| OptionLoader.FailuresAreNormalised | hooks/load-entity-options.ts:54-64 | a failure of either remote call is reported as an error whose message starts with "Failed to load options: " |
| OptionLoader.OnlyTheOneRequestMatters | hooks/load-entity-options.ts:37-40 | the result depends on the instance call only through the one request the loader sends |
| OptionLoader.TitleFlaggedScenario | hooks/load-entity-options.ts:32-51 | with a field flagged as option title, two instances give options titled by that field |
| EntityList.DisplayFieldsSpec | components/EntityListClient.tsx:164-167 | at most five columns, a prefix of the displayed fields in order, and all of them when there are at most five |
| EntityList.PoliciesKeepOrder | components/EntityListClient.tsx:164-199 | each field policy filters position by position, so field order is kept |
| EntityList.FilterableFieldsSpec | components/EntityListClient.tsx:170-190 | a field is filterable iff it is flagged and is a relation field or has static options |
| EntityList.SearchableFieldsSpec | components/EntityListClient.tsx:192-199 | a field is searchable iff it is flagged searchable |
| EntityList.UpdateFiltersSpec | components/EntityListClient.tsx:202-208 | the field's selection becomes the new value; an empty value removes the key; other fields are unchanged; no empty selection is ever stored |
| EntityList.UpdateFiltersLastWins | components/EntityListClient.tsx:202-208 | a second update of the same field overrides the first |
| EntityList.PageSize | components/EntityListClient.tsx:124 | the definition's page size unless missing or zero, then 20; never zero |
| EntityList.QueryForSpec | components/EntityListClient.tsx:150-158 | the query carries the page and page size; search, filters and modes only when non-empty |
| EntityList.EntityListState.constructor | components/EntityListClient.tsx:118-123 | empty search, page 1, no filters, no modes |
| EntityList.EntityListState.FilterChange | components/EntityListClient.tsx:202-211 | updates the field's filter and resets to page 1, leaving search and modes |
| EntityList.EntityListState.FilterModeChange | components/EntityListClient.tsx:214-216 | records the field's mode and changes nothing else |
| EntityList.EntityListState.SearchChange | components/EntityListClient.tsx:234-237 | sets the search text and resets to page 1 |
| EntityList.EntityListState.PreviousPage | components/EntityListClient.tsx:378 | moves back one page but never below 1 |
| EntityList.EntityListState.NextPage | components/EntityListClient.tsx:386 | moves forward one page |
| EntityList.SelectTwoCategories | components/EntityListClient.tsx:150-158 | selecting two category ids sends page 1 with `filters: {category: [id1, id2]}` and no modes |
| EntityList.SelectTwoCategoriesThenSetMode | components/EntityListClient.tsx:214-216 | after the mode is toggled to "any", the modes are sent as `{category: "any"}` |
| EntityList.CellOfMissingValue | components/EntityListClient.tsx:315-347 | a missing value shows "-" in a relation column and "—" elsewhere |
| EntityList.CellOfValue | components/EntityListClient.tsx:325-346 | a relation column uses the relation format; any other present value shows as `String(value)` |
| EntityList.RowLabel | components/EntityListClient.tsx:304 | the row links with the instance's name when truthy, else its id |
| EntityList.CategoryListFields | components/EntityListClient.tsx:164-190 | a name field and a related category field both become columns, and only the category becomes a filter |
| EntityDetail.DetailFieldsSpec | components/EntityDetailClient.tsx:96-106 | a field is shown iff it is not one of the six system names, and order is kept |
| EntityDetail.GroupingSpec | components/EntityDetailClient.tsx:109-116 | a section holds exactly the fields whose section index (missing or zero meaning 0) is that section; a section exists iff some field has it |
| EntityDetail.InSectionSnoc | components/EntityDetailClient.tsx:110-114 | adding one field adds its section and appends the field to that section only |
| EntityDetail.GroupBySection | components/EntityDetailClient.tsx:109-116 | the built map has exactly the used sections as keys, each holding that section's fields in order |
| EntityDetail.InsertAscending | components/EntityDetailClient.tsx:212-213 | inserting keeps the list ascending and adds exactly the new key |
| EntityDetail.SortSections | components/EntityDetailClient.tsx:212-213 | the section order is strictly ascending and has the same keys |
| EntityDetail.SectionTitle | components/EntityDetailClient.tsx:215-224 | sections 0 to 3 take their definition titles; any other section has none |
| EntityDetail.HeaderOnlyForFirstFourSections | components/EntityDetailClient.tsx:228 | only sections 0 to 3 can show a header |
| EntityDetail.DetailSections | components/EntityDetailClient.tsx:109-116 | sections come in ascending order, one per used section, each with its fields and title |
| EntityDetail.MissingValueIsDash | components/EntityDetailClient.tsx:118-136 | a missing value renders as a dash; relation rendering is used iff the field is a relation field and the value is present |
| EntityDetail.BooleanYesNo | components/EntityDetailClient.tsx:198-200 | a boolean column shows "Yes" or "No" by truthiness |
| EntityDetail.ArrayJoined | components/EntityDetailClient.tsx:203-205 | an array is shown as its elements joined with ", " |
| EntityDetail.OtherValuesAsString | components/EntityDetailClient.tsx:207 | every other value is shown as `String(value)` |
| EntityDetail.DetailAgreesWithListCell | components/EntityDetailClient.tsx:118-208 | a present, non-relation, non-file, non-boolean, non-array, non-date value reads the same on the detail page as in the list cell |
| Slug.SlugShape | lib/utils/slug.ts:9-20 | a slug is non-empty, at most 100 characters of a-z, 0-9 and '-', with no "--" and no leading '-'; a trailing '-' only when the 100-character cut made it |
| Slug.NonStringGivesFallback | lib/utils/slug.ts:10-12 | a missing, empty or non-string name gives "item" |
| Slug.SlugKeepsLetters | lib/utils/slug.ts:14-19 | the slug's letters and digits are a prefix of those of the lower-cased name, all of them when no cut happens, and "item" when there are none |
| Slug.SeparatorsOnlyGiveFallback | lib/utils/slug.ts:14-19 | a name with no ASCII letter or digit gives "item" |
| Slug.SlugOfSlug | lib/utils/slug.ts:9-20 | generating a slug from a slug that does not end in '-' gives it back |
| Slug.SlugIsFixed | lib/utils/slug.ts:14-19 | every well-formed slug of at most 100 characters is its own slug |
| Slug.Collapse | lib/utils/slug.ts:17 | replacing runs of other characters by '-' leaves only slug characters, never "--", empty iff the input is |
| Slug.Strip | lib/utils/slug.ts:18 | the result neither starts nor ends with '-' |
| Slug.LettersOfCollapse | lib/utils/slug.ts:17 | collapsing keeps every letter and digit, in order |
| Slug.LettersOfStrip | lib/utils/slug.ts:18 | stripping hyphens keeps every letter and digit |
| Slug.LettersOfTrim | lib/utils/slug.ts:16 | trimming keeps every letter and digit |
| EntityMapping.FindEntityDefinitionBySlug | lib/utils/entity-mapping.ts:10-15 | a result has the slug and is in the list; none exactly when no definition has it |
| EntityMapping.FindReturnsFirst | lib/utils/entity-mapping.ts:14 | the first definition with the slug is returned |
| EntityMapping.FindInParts | lib/utils/entity-mapping.ts:14 | searching a concatenation finds the first part's match before the second's |
| DefinitionsProvider.UseEntityDefinitions | components/providers/EntityDefinitionsProvider.tsx:34-42 | fails with the provider message iff there is no provider, else returns its value |
| DefinitionsProvider.ByKey | components/providers/EntityDefinitionsProvider.tsx:54-55 | a slug lookup returns an entry under that key, and nothing iff no key matches |
| DefinitionsProvider.ById | components/providers/EntityDefinitionsProvider.tsx:58-63 | an id lookup returns the first definition with that id, and nothing iff none has it |
| DefinitionsProvider.MissingProviderFails | components/providers/EntityDefinitionsProvider.tsx:34-51 | outside a provider both hooks fail with the same message |
| DefinitionsProvider.SlugTakesPrecedence | components/providers/EntityDefinitionsProvider.tsx:54-68 | a matching slug key wins over any id match, and its fields are returned |
| DefinitionsProvider.IdIsFallback | components/providers/EntityDefinitionsProvider.tsx:57-63 | when no key matches, the definition is the first with that id |
| DefinitionsProvider.LookupResult | components/providers/EntityDefinitionsProvider.tsx:47-69 | nothing is found iff neither key nor id matches; then the fields are empty, else they are the definition's |
| Text.TrimSpec | components/EntityListClient.tsx:53 | the result is a piece `s[i..j]` with only whitespace before `i` and from `j` on, and it neither starts nor ends with whitespace, so exactly the surrounding whitespace is removed |
| Text.TrimIdempotent | components/EntityListClient.tsx:53 | trimming twice equals trimming once |
| Text.Lower | components/DataTableFacetedFilter.tsx:86-88 | lower-casing keeps length and maps each character |
| Text.ContainsSpec | components/DataTableFacetedFilter.tsx:88 | `includes` holds iff the query occurs at some position |

## Left out

- Rendering: markup, styling, icons and links are not modelled. Cells
  and section bodies are modelled as the text or marker they show.
- Text: trimming, lower-casing and `includes` are modelled on ASCII.
  Whitespace is space, tab, line feed, vertical tab, form feed and
  carriage return. Unicode whitespace and case mapping are not modelled.
- Numbers: values are integers. Floating point, `NaN` and the number
  formatting of `String()` for fractions are not modelled.
- Objects: `String()` of an object gives "[object Object]", and an array
  joins its elements with ",". Prototype properties, getters and symbol
  keys are not modelled.
- Query layer:
  - React Query caching, the query keys, `enabled`, `keepPreviousData`
    and `isFetching` are not modelled. Loading and error states enter as
    parameters.
  - `useDeferredValue` is not modelled; the deferred search text is a
    parameter of the query.
- Remote calls: the SDK calls are parameters that return or throw.
  `console.error` logging is not modelled.
- Detail page: `toLocaleString` of dates becomes a `LocalDate` marker,
  and the image and file lists become a `Files` marker with the raw
  items.
- EntityList.EntityListState: the filter and mode records are maps.
  Their key insertion order is not modelled; the query sends them as
  objects, where order does not matter.
- Pagination bar: visibility and the disabled states of its buttons are
  not modelled. They depend on the server's pagination result.
- Faceted filter: the small-screen count badge and the "Any of" / "All
  of" label text are not modelled.
- RelationDisplay.TitleById: related-record ids are strings or numbers.
  The source returns the id value itself. The model renders it with
  `String()`, so an id of another kind (an array, say) is shown as its
  string form rather than passed on as that value.
- Repeated keys: an object's properties, and the provider's
  slug-keyed definitions, are ordered lists of pairs. No predicate rules out a key
  appearing twice, which a JavaScript object cannot hold. Lookups
  (`PropsLookup`, `ByKey`) return the first match, where JavaScript
  keeps the last value assigned; real data never has repeated keys.
- OptionLoader.LoadEntityOptions: instance ids are strings, as the
  SDK's instance type declares.
- Not part of this model:
  - the authentication pages, middleware and auth provider;
  - the sidebar, the home page, the route pages and the definitions
    cache loader;
  - `useEntityOptions`, a React Query wrapper around
    `loadEntityOptions`.
