# SelectRelated: selection propagation along relationship classes

`SelectRelated` (in `un_editor_solutions/__init__.py`) pushes the selection
of an ArcGIS Pro map along its relationship classes. For every layer or
table with features selected, it reads the origin primary keys of the
selected rows. It gathers them per related (destination) table. It then
selects, in the first layer of the map that shows each related table, the
rows whose foreign key holds one of those values.

This project is a Dafny model of that class and the proofs of what it does.

- `Common`: the shared vocabulary. This is the exceptions the code can raise, `Result`/`Option`, and the key values (strings and integers).
- `Literals`: how a key value is written in a where-clause. Strings are quoted with embedded quotes doubled; integers use their decimal text.
- `Ordering`: the order in which `sorted(set(values))` puts key values. Also a sort-and-deduplicate function.
- `Chunking`: `chunks`.
- `SqlBuilder`: `create_sql`. The host's `AddFieldDelimiters` is an uninterpreted function parameter.
- `Relationships`: `rc_info`. The answers of `arcpy.Describe` and `arcpy.Exists` are a given `LayerDescription`. The nested loops are methods proved equal to recursive functions.
- `DictUtils`: `merge_dols` and `rows_as_dicts`.
- `Layers`: the map's layers and tables as one sequence (`layers + tables`). A layer is referred to by its position. The host's selection state is a `SelectionStore` object. Reading columns through a search cursor returns the selected rows only.
- `Scan`, `ScanProperties` and `ScanContributions`: phase 1 of `main` as functions, and what is proved about them. Phase 1 fills `datasource_lookup`, `cims_processed` and `selection_info`. `ScanContributions` states exactly which ids phase 1 gathers for each related table.
- `Propagate`: phase 2 of `main` as functions, and what is proved about them. Phase 2 runs the where-clauses and unions the matching object ids into the related layer's selection.
- `Engine`: `main` itself, with phase 2 in its intended form.
  - Each batch query of phase 2 matches every row of the related table. As written, lines 226-229 query through a cursor that sees only the rows already selected (see Findings and `CursorSelection`).
  - It is a class `SelectRelated` whose fields are the variables of the two phases.
  - Its methods carry the loops, each proved to leave exactly the state the `Scan`/`Propagate` functions describe or to stop with the exception they name.
  - A run stops at the first exception.
- `CursorSelection`: a discrepancy between lines 226-229 and the host's cursor semantics (see Findings).

Python exceptions are modelled as `Err` values:
- `TypeError`: `sorted` over strings and integers mixed.
- `IndexError`: `findall(...)[0]` on a hosted destination name without a layer id.
- `KeyError`: a missing role, or a missing column of a cursor that returned no rows.
- `StopIteration`: `next(iter({}.values()))` on a layer with relationships but no keys read.
- `FieldNotFound`: a cursor over a field the layer lacks. In phase 2 that is the foreign field of the where-clause, or the `objectid` field the cursor reads.

## Model

| member | source | states |
|---|---|---|
| Chunking.Chunks | un_editor_solutions/__init__.py:17-20 | The chunks concatenate back to the input. Every chunk is non-empty and at most `n` long. Every chunk but the last is exactly `n` long. There are ceil(len/n) chunks. |
| Common.FromPairsLookup | un_editor_solutions/__init__.py:90 | A dictionary built from pairs has exactly the keys of the pairs. Each key maps to the value of its last pair. |
| DictUtils.MergeDolsSpec | un_editor_solutions/__init__.py:116-120 | The merged keys are the union of both inputs' keys. Each list is `dol1.get(k, [])` followed by `dol2.get(k, [])`, so the lengths add. |
| DictUtils.MergeDolsIdentity | un_editor_solutions/__init__.py:116-120 | Merging with an empty dictionary, on either side, gives the other dictionary unchanged. |
| DictUtils.MergeDolsAssociative | un_editor_solutions/__init__.py:116-120 | Merging is associative, so repeated merges do not depend on grouping. |
| DictUtils.RowsAsDicts | un_editor_solutions/__init__.py:123-126 | One dictionary per cursor row. |
| DictUtils.RowDictLookup | un_editor_solutions/__init__.py:126 | A row's dictionary has the column names that have a value (`zip` stops at the shorter). Each name maps to the value of its last column of that name. |
| DictUtils.RowDictRoundTrip | un_editor_solutions/__init__.py:123-126 | With distinct column names and a full row, the dictionary's keys are the columns, and reading the columns back gives the row. |
| Literals.UnescapeEscape | un_editor_solutions/__init__.py:42 | Undoubling the quotes of `v.replace("'", "''")` recovers `v`. |
| Literals.QuoteStringRoundTrip | un_editor_solutions/__init__.py:42 | A quoted string literal parses back to the original string. |
| Literals.ParseNatToString | un_editor_solutions/__init__.py:44 | The decimal text of a natural number parses back to it. |
| Literals.IntToStringRoundTrip | un_editor_solutions/__init__.py:44 | `str(i)` of any integer, negative ones included, parses back to `i`. |
| Literals.LiteralRoundTrip | un_editor_solutions/__init__.py:39-44 | Every value's literal parses back to the value. |
| Literals.LiteralInjective | un_editor_solutions/__init__.py:39-44 | Two values with the same literal are equal, so an IN-list never names one value twice. |
| Ordering.Insert | un_editor_solutions/__init__.py:33 | Inserting into a strictly sorted list keeps it strictly sorted and adds exactly the one value. |
| Ordering.SortDedup | un_editor_solutions/__init__.py:33 | `sorted(set(values))` is strictly sorted and holds exactly the input's values. |
| Ordering.StrictlySortedUnique | un_editor_solutions/__init__.py:33 | Two strictly sorted lists with the same values are the same list. |
| Ordering.StrictlySortedDistinct | un_editor_solutions/__init__.py:33 | A strictly sorted list has no duplicates. |
| Ordering.SortDedupCanonical | un_editor_solutions/__init__.py:33 | Sorting and deduplicating depends only on which values there are, not on their order or repetition. |
| Ordering.SortDedupLength | un_editor_solutions/__init__.py:33 | The sorted, deduplicated list is as long as the number of distinct values. |
| SqlBuilder.HomogeneousByElems | un_editor_solutions/__init__.py:33 | Whether a collection mixes strings and integers depends only on its set of values. |
| SqlBuilder.Render | un_editor_solutions/__init__.py:39-44 | On values of one kind, the rendering chosen by the first value gives every value its own literal. |
| SqlBuilder.RenderDistinct | un_editor_solutions/__init__.py:39-44 | Distinct values render as distinct literals. |
| SqlBuilder.RenderMembers | un_editor_solutions/__init__.py:39-44 | A value's literal is among the rendered ones exactly when the value is among the inputs. |
| SqlBuilder.SortedLiterals | un_editor_solutions/__init__.py:33-44 | The sorted, deduplicated literals are distinct, one per distinct value, and hold the literal of exactly the input values. |
| SqlBuilder.InLists | un_editor_solutions/__init__.py:28-45 | The IN-lists are the batches `create_sql` formats for a non-empty collection of one kind. |
| SqlBuilder.InListsShape | un_editor_solutions/__init__.py:26-46 | There are ceil(distinct/950) batches, each non-empty and at most 950 long, all but the last full. Together they are the sorted distinct literals, no literal in two batches. A value's literal is in them exactly when the value is an input. |
| SqlBuilder.InListsSizes | un_editor_solutions/__init__.py:26-45 | The batch count and batch sizes of the IN-lists. |
| SqlBuilder.InListsContents | un_editor_solutions/__init__.py:33-45 | The IN-lists concatenate to the sorted distinct literals, with no duplicates, and name exactly the input values. |
| SqlBuilder.CreateSqlCollection | un_editor_solutions/__init__.py:28-46 | A non-empty collection of one kind yields one `<delim(field)> IN (<comma-joined literals>)` per batch, in order. |
| SqlBuilder.CreateSqlMixed | un_editor_solutions/__init__.py:33 | A collection holding both a string and an integer raises TypeError. |
| SqlBuilder.CreateSqlEmpty | un_editor_solutions/__init__.py:29-30 | An empty collection yields no where-clause, because the `return` is inside a generator. |
| SqlBuilder.CreateSqlScalar | un_editor_solutions/__init__.py:34-46 | A single value yields exactly `<delim(field)> = <literal>`. |
| SqlBuilder.CreateSqlCanonical | un_editor_solutions/__init__.py:28-33 | Two collections with the same values, in any order and repetition, give the same where-clauses. |
| Relationships.DigitRun | un_editor_solutions/__init__.py:14 | `\d+` takes the longest run of ASCII digits `0`-`9` at the start of the text. |
| Relationships.LayerIdOfSpec | un_editor_solutions/__init__.py:85 | `findall(name)[0]` finds a layer id exactly when some `L` is followed by an ASCII digit. The id is then the whole ASCII digit run after the first such `L`. |
| Relationships.RcInfo | un_editor_solutions/__init__.py:60-113 | The nested loops with their `continue` guards return exactly `RelatedClasses(desc)`, or raise what it raises. |
| Relationships.RecordDestinations | un_editor_solutions/__init__.py:84-111 | The inner loop over the destination class names records exactly what `AddDestinations` describes. It stops with IndexError on a hosted name without a layer id. |
| Relationships.AddDestinationsFailed | un_editor_solutions/__init__.py:85 | Once a destination raises, the rest of the inner loop does not run. |
| Relationships.AddRelationshipClassesFailed | un_editor_solutions/__init__.py:85 | Once a relationship class raises, the rest of the outer loop does not run. |
| Relationships.AddDestinationsEntries | un_editor_solutions/__init__.py:84-90 | The result holds the earlier entries and every destination reached (not the layer itself). A reached destination maps to this class's roles; every other entry is unchanged. |
| Relationships.AddDestinationsError | un_editor_solutions/__init__.py:85 | The inner loop fails exactly when some destination name has no layer id, and the failure is IndexError. |
| Relationships.AddRelationshipClassesStep | un_editor_solutions/__init__.py:72-111 | One more relationship class adds the destinations it reaches, with its roles, and overwrites them; the other entries are unchanged. |
| Relationships.AddRelationshipClassesKeys | un_editor_solutions/__init__.py:72-111 | The result's keys are exactly the destinations some non-skipped relationship class reaches. |
| Relationships.AddRelationshipClassesLast | un_editor_solutions/__init__.py:90 | A destination's roles are those of the last relationship class that reaches it: a later one overwrites an earlier one. |
| Relationships.AddRelationshipClassesEntries | un_editor_solutions/__init__.py:72-111 | Both halves together: the keys, and the roles from the last contributor. |
| Relationships.AddRelationshipClassesError | un_editor_solutions/__init__.py:85 | The outer loop fails exactly when a considered relationship class has a destination name without a layer id, and the failure is IndexError. |
| Relationships.RelatedClassesSpec | un_editor_solutions/__init__.py:60-113 | `rc_info`: an empty result without a feature class or without relationship class names; an IndexError only on the hosted branch; never the layer's own name as a key; and otherwise exactly the destinations reached. |
| Layers.ReadColumnsSpec | un_editor_solutions/__init__.py:193-194 | `dict(zip(fields, zip(*cursor)))` fails exactly on a missing field. Otherwise it is empty exactly when no row is selected, and else has one column per field. Each column is as long as the selected rows and holds exactly the values those rows have. |
| Layers.ColumnMembers | un_editor_solutions/__init__.py:194 | A value is in a field's column exactly when one of the rows holds it there. |
| Layers.SelectionStore.Union | un_editor_solutions/__init__.py:230 | `setSelectionSet(oids, 'UNION')` adds the ids to that layer's selection only. |
| ScanProperties.UpdateInfoSpec | un_editor_solutions/__init__.py:208-210 | The merge raises KeyError exactly when an entry lacks a role or its primary column. Otherwise every related table gains its primary column's values. A known table keeps its first `OriginForeign`; a new one takes its own. Other tables are untouched. |
| ScanProperties.CollectSubLayersProcessed | un_editor_solutions/__init__.py:186-191 | The sub-layer loop appends to `cims_processed` exactly the URIs of the sub-layers not yet in it, each once. |
| ScanProperties.SubLayerStepProcessed | un_editor_solutions/__init__.py:189-191 | One sub-layer appends its URI unless it is there already. |
| ScanProperties.RegisterGrows | un_editor_solutions/__init__.py:161-163 | Registering a layer only appends to `datasource_lookup` lists. |
| ScanProperties.FinishGrows | un_editor_solutions/__init__.py:205-210 | Gathering keys only adds tables and ids to `selection_info`, and keeps the foreign fields. |
| ScanProperties.CollectProcessed | un_editor_solutions/__init__.py:182-203 | Either branch only appends to `cims_processed`, and never a URI already in it. |
| ScanProperties.LayerStepGrows | un_editor_solutions/__init__.py:152-212 | One pass of the layer loop only adds, to all three variables, and keeps `cims_processed` free of duplicates. |
| ScanProperties.ScanGrows | un_editor_solutions/__init__.py:152-212 | A later state of phase 1 extends every earlier one, and only a successful prefix can be extended. |
| ScanProperties.ScanProcessedDistinct | un_editor_solutions/__init__.py:165-199 | `cims_processed` never holds a URI twice: each layer URI is evaluated at most once. |
| ScanProperties.CollectSubLayersUniform | un_editor_solutions/__init__.py:186-196 | The sub-layer loop extends every primary field by the same number of values. |
| ScanProperties.CollectUniform | un_editor_solutions/__init__.py:204-205 | Every column read has the same length, the row count. So `len(next(iter(...)))` does not depend on which column comes first, and any keys read mean a positive count. |
| ScanProperties.ReadColumnsSound | un_editor_solutions/__init__.py:193-194 | Every value read is a field value of a selected row. |
| ScanProperties.CollectSubLayersSound | un_editor_solutions/__init__.py:186-196 | Every key gathered over the sub-layers is a field value of a selected row. |
| ScanProperties.CollectSound | un_editor_solutions/__init__.py:182-203 | Every key either branch reads is a field value of a selected row. |
| ScanProperties.FinishSound | un_editor_solutions/__init__.py:205-210 | Merging sound keys keeps `selection_info` sound. |
| ScanProperties.LayerStepSound | un_editor_solutions/__init__.py:152-212 | One pass of the layer loop keeps `selection_info` sound. |
| ScanProperties.ScanSound | un_editor_solutions/__init__.py:152-212 | Phase 1 invents no key: every id in `selection_info` is a field value of a selected row of some layer. |
| ScanContributions.ReadColumnsExact | un_editor_solutions/__init__.py:193-194 | A cursor read holds a value in a field exactly when some selected row has that value there. |
| ScanContributions.SubLayerStepExact | un_editor_solutions/__init__.py:189-196 | A sub-layer not yet processed adds to the columns exactly the field values of its selected rows. An already processed one adds nothing. |
| ScanContributions.CollectSubLayersExact | un_editor_solutions/__init__.py:186-196 | Each primary column gathered over the sub-layers holds exactly the values of that field in the selected rows of the sub-layers whose URI was not processed before them. |
| ScanContributions.CollectExact | un_editor_solutions/__init__.py:182-203 | Either branch reads, per primary field, exactly the values in the selected rows of the layers it evaluates: the layer itself, or its newly evaluated sub-layers. |
| ScanContributions.FinishIds | un_editor_solutions/__init__.py:205-210 | When the merge succeeds, a table's ids afterwards are its ids before plus exactly the values read in its own `OriginPrimary` field. |
| ScanContributions.LayerStepIds | un_editor_solutions/__init__.py:152-210 | After one pass, `v` is in `selection_info[k]['ids']` exactly when it was before, or the layer is evaluated, relates to `k`, and a selected row of a layer it reads has `v` in k's lower-cased `OriginPrimary` field. |
| ScanContributions.ScanIds | un_editor_solutions/__init__.py:152-212 | After the first `n` passes, `v` is in `selection_info[k]['ids']` exactly when one of those passes contributed it in the sense above. Both directions: no id is invented and none is lost. |
| ScanContributions.Phase1Ids | un_editor_solutions/__init__.py:152-212 | The same for the whole of phase 1. |
| ScanProperties.RegisterShape | un_editor_solutions/__init__.py:161-163 | Registering adds the layer at the end of the lists of its dataset and its name, for tables and feature layers only. |
| ScanProperties.RegisterKeys | un_editor_solutions/__init__.py:161-163 | Registration keeps this: a key is present exactly when some table or feature layer so far has it as its dataset or name. |
| ScanProperties.RegisterSound | un_editor_solutions/__init__.py:161-163 | Registration keeps this: every listed layer has the key as its dataset or name. |
| ScanProperties.RegisterFirst | un_editor_solutions/__init__.py:161-163 | Registration keeps this: each list starts with the first such layer. |
| ScanProperties.RegisterIndexes | un_editor_solutions/__init__.py:152-163 | A broken layer is not registered, and the lookup invariants carry over. |
| ScanProperties.LayerStepLookup | un_editor_solutions/__init__.py:152-163 | One pass changes `datasource_lookup` only by registering the layer, unless it is broken. |
| ScanProperties.LayerStepIndexes | un_editor_solutions/__init__.py:152-163 | One pass keeps the lookup invariants. |
| ScanProperties.ScanLookup | un_editor_solutions/__init__.py:152-163 | After phase 1, a key is in `datasource_lookup` exactly when some table or feature layer has it as dataset or name. Its list holds only such layers and starts with the first of them. |
| ScanProperties.UnselectedLayerStops | un_editor_solutions/__init__.py:197-205 | A simple layer with relationships and no selection raises StopIteration; it is not skipped. |
| ScanProperties.UnselectedSubLayersCollectNothing | un_editor_solutions/__init__.py:186-196 | Sub-layers without a selection gather no keys. |
| ScanProperties.UnselectedGroupStops | un_editor_solutions/__init__.py:183-205 | A subtype group layer with relationships and no sub-layer selection raises StopIteration. |
| Propagate.QueryOids | un_editor_solutions/__init__.py:229 | A query returns at most one id per row. |
| Propagate.MatchingSpec | un_editor_solutions/__init__.py:229 | An id is matched exactly when a row with that id holds one of the values in the field. |
| Propagate.QueryOidsMatching | un_editor_solutions/__init__.py:228-229 | A query whose literals are exactly those of a value set returns exactly the rows matching that set. |
| Propagate.QueryOidsNoLiterals | un_editor_solutions/__init__.py:229 | A query without literals returns nothing. |
| Propagate.QueryOidsAppend | un_editor_solutions/__init__.py:228-231 | Querying two literal lists returns the rows of either. When no literal is in both, the counts add. |
| Propagate.BatchesDisjoint | un_editor_solutions/__init__.py:45 | The literals of the earlier batches are not in a later batch. |
| Propagate.HomogeneousEnumeration | un_editor_solutions/__init__.py:33 | Any enumeration of an id set mixes kinds exactly when the set does. |
| Propagate.BatchesFindMatches | un_editor_solutions/__init__.py:228-229 | The batches of `create_sql`, queried over all rows, return exactly the matching rows, each once, in row order. |
| Propagate.RecordsStep | un_editor_solutions/__init__.py:219-232 | One more table adds itself to `missing_related` when absent from the map, and otherwise records its count. |
| Propagate.AdditionsAt | un_editor_solutions/__init__.py:228-230 | A layer gains exactly the ids that the tables whose first layer it is add. |
| Propagate.AfterKeysAt | un_editor_solutions/__init__.py:228-230 | After the tables of `done`, a layer's selection is its old selection plus exactly what those tables add to it. |
| Propagate.ExtendAt | un_editor_solutions/__init__.py:230 | A union update adds to each layer exactly its added ids. |
| Propagate.ExtendNothing | un_editor_solutions/__init__.py:230 | Adding nothing changes no selection. |
| Propagate.ExtendUpdate | un_editor_solutions/__init__.py:230 | Adding more ids to one layer's additions is the same as one more union on that layer. |
| Propagate.ExtendTwice | un_editor_solutions/__init__.py:230 | Union updates are idempotent. |
| Propagate.AdditionsSkip | un_editor_solutions/__init__.py:219-229 | A table missing from the map, or without ids, adds nothing. |
| Propagate.AdditionsAdd | un_editor_solutions/__init__.py:226-230 | A table with ids adds its matching ids to its first layer only. |
| Propagate.AfterKeysNone | un_editor_solutions/__init__.py:216 | Before any table, the selection is as it was. |
| Propagate.AfterKeysStep | un_editor_solutions/__init__.py:216-234 | One more table changes at most its first layer's selection, which gains its matching ids. A missing table, or one without ids, changes nothing. |
| Propagate.AfterKeysGrows | un_editor_solutions/__init__.py:230 | Phase 2 never shrinks a selection. |
| Propagate.AfterKeysMonotone | un_editor_solutions/__init__.py:216-234 | More tables select more. A run stopped by an exception lies between the old selection and the full one. |
| Propagate.SelectOutcomeCases | un_editor_solutions/__init__.py:226-231 | For one table's first layer: TypeError exactly when the ids mix kinds. FieldNotFound exactly when there are ids of one kind and the layer lacks the foreign field or `objectid`. Otherwise the ids are exactly those of the rows whose foreign field holds a collected id. |
| Propagate.KeyOidsSpec | un_editor_solutions/__init__.py:226-229 | A table's ids are exactly the rows of its first layer whose foreign field holds one of its collected ids. |
| Propagate.PropagationSelects | un_editor_solutions/__init__.py:216-234 | When no table fails, an id ends up selected on a layer exactly when it was selected before, or a row of that layer has it with a foreign key among the ids collected for a table whose first layer it is. |
| Propagate.SelectedByMatch | un_editor_solutions/__init__.py:216-234 | Every newly selected id comes from a matching row. |
| Propagate.MatchSelected | un_editor_solutions/__init__.py:216-234 | Every matching row ends up selected. |
| Propagate.AfterKeysIdempotent | un_editor_solutions/__init__.py:216-234 | Running phase 2 again with the same rows and ids selects nothing new. |
| Engine.ScanPrefixFailed | un_editor_solutions/__init__.py:152-212 | Phase 1 stops at the first exception. |
| Engine.CollectSubLayersFailed | un_editor_solutions/__init__.py:186-196 | The sub-layer loop stops at the first exception. |
| Engine.UpdatedStep | un_editor_solutions/__init__.py:209-210 | Merging one more entry is `setdefault(k, {'field': foreign, 'ids': set()})['ids'].update(column)`. |
| Engine.Enumerate | un_editor_solutions/__init__.py:228 | The collected id set, passed to `create_sql`, as a list holding each id exactly once. |
| Engine.ExtendColumns | un_editor_solutions/__init__.py:195-196 | Extending `parent_ids` by every field's column merges in the columns (`merge_dols`). It raises KeyError exactly when the cursor's dictionary lacks a field. |
| Engine.ExtendStep | un_editor_solutions/__init__.py:196 | Extending by one more field's column merges that column in as well. |
| Engine.BatchStep | un_editor_solutions/__init__.py:228-231 | One more batch adds its rows to those of the batches before it, and none twice, so the count adds up. |
| Engine.Phase1LookupValid | un_editor_solutions/__init__.py:161-163 | Every list in `datasource_lookup` is non-empty and starts with a layer of the map, so `datasource_lookup[k][0]` is defined. |
| Engine.SelectRelated.constructor | un_editor_solutions/__init__.py:143-146 | All the state variables start empty. |
| Engine.SelectRelated.UpdateSelectionInfo | un_editor_solutions/__init__.py:208-210 | The loop over `rc_info` leaves `selection_info` as `UpdateInfo` describes, or raises its KeyError. |
| Engine.SelectRelated.GatherSubLayer | un_editor_solutions/__init__.py:187-196 | One sub-layer updates `cims_processed`, `parent_ids` and the row count as `SubLayerStep` describes. |
| Engine.SelectRelated.GatherSubLayers | un_editor_solutions/__init__.py:186-196 | The sub-layer loop leaves exactly the state `CollectSubLayers` describes, or raises its exception. |
| Engine.SelectRelated.ReadPrimaryKeys | un_editor_solutions/__init__.py:182-203 | Either branch leaves the state `Collect` describes, with every column as long as the row count. |
| Engine.SelectRelated.SelectCount | un_editor_solutions/__init__.py:205-210 | StopIteration without columns; nothing merged for zero rows; otherwise the merge. |
| Engine.SelectRelated.ReviewLayer | un_editor_solutions/__init__.py:152-212 | One pass of the layer loop leaves exactly the state `LayerStep` describes, or raises its exception. |
| Engine.SelectRelated.ReviewSelections | un_editor_solutions/__init__.py:143-212 | Phase 1, from empty variables, leaves exactly `Phase1`'s state, or raises its first exception. |
| Engine.SelectRelated.QueryBatches | un_editor_solutions/__init__.py:226-231 | The batch loop adds exactly the rows of all batches to the layer's selection and counts them. A layer without the foreign field or without an `objectid` field fails the first query. Phase 2 in its intended form: the query sees every row of the related table (see Findings). |
| Engine.SelectRelated.SelectInLayer | un_editor_solutions/__init__.py:226-231 | For one related table, the layer gains exactly its matching ids, the count is their number, and an exception leaves the selection unchanged. That includes FieldNotFound when the layer lacks the foreign field or `objectid`. Phase 2 in its intended form: the query sees every row of the related table (see Findings). |
| Engine.SelectRelated.PropagateTable | un_editor_solutions/__init__.py:217-234 | A missing table goes into `missing_related` without a query. A present one adds its matching ids to its first layer and records its count. Phase 2 in its intended form: the query sees every row of the related table (see Findings). |
| Engine.SelectRelated.SelectRelatedRows | un_editor_solutions/__init__.py:215-236 | Phase 2 succeeds exactly when no table fails. It then leaves the selection of `AfterKeys` over all tables, `missing_related` as the tables absent from the map, and the counts. On failure, the selection is that of some subset of the tables. Phase 2 in its intended form: the query sees every row of the related table (see Findings). |
| Engine.SelectRelated.Run | un_editor_solutions/__init__.py:128-236 | Without a map, nothing changes. Otherwise phase 1 then phase 2. An exception in phase 1 leaves every selection as it was. After phase 1 the fields hold the phase-1 state. Phase 2 succeeds exactly when no table fails. It then leaves the selection of `AfterKeys` over all tables, `missing_related` and the counts. On a failure, the exception is that of some table, and the selection is that of some subset of the tables. Phase 2 in its intended form: the query sees every row of the related table (see Findings). |
| CursorSelection.VisibleRows | un_editor_solutions/__init__.py:229 | A cursor over a layer returns its selected rows when it has a selection. |
| CursorSelection.BatchesAsWritten | un_editor_solutions/__init__.py:226-230 | The batch loop as the host runs it never removes a selected id. |
| CursorSelection.QueryOidsFewerRows | un_editor_solutions/__init__.py:229 | A query through a selection returns a subset of what it returns over all rows. |
| CursorSelection.VisibleQueryWithin | un_editor_solutions/__init__.py:229 | The same for whatever rows the cursor shows. |
| CursorSelection.IntendedStep | un_editor_solutions/__init__.py:226-230 | The intended selection is the first batch's matches joined with what the later batches intend. |
| CursorSelection.AsWrittenWithinIntended | un_editor_solutions/__init__.py:226-230 | As written, the loop never selects a row the intended loop would not; it can only miss rows. |
| CursorSelection.AsWrittenSingleBatch | un_editor_solutions/__init__.py:226-230 | With nothing selected beforehand and one batch, as written and intended agree. |
| CursorSelection.PriorSelectionAsWritten | un_editor_solutions/__init__.py:226-230 | With unit 3 (device B7) selected, the as-written query for device A1 selects nothing new. |
| CursorSelection.PriorSelectionIntended | un_editor_solutions/__init__.py:226-230 | The intended query adds units 1 and 2. |
| CursorSelection.PriorSelectionHidesMatches | un_editor_solutions/__init__.py:226-230 | Both of the above, on the same input. |
| CursorSelection.LaterBatchesSeeEarlierSelection | un_editor_solutions/__init__.py:226-230 | A small stand-in with two one-literal batches, not `create_sql` output: the second batch's query sees only the first batch's rows and finds nothing, where it should add unit 2. |
| CursorSelection.QueryMember | un_editor_solutions/__init__.py:229 | A query returns a row's id exactly when the row's value in the field is written as one of the batch's literals. |
| CursorSelection.SelectionFreezes | un_editor_solutions/__init__.py:226-230 | As written, once the related layer has any selection no batch adds anything, whatever the batches hold. |
| CursorSelection.FirstBatchOnly | un_editor_solutions/__init__.py:226-230 | As written, with nothing selected beforehand and a first batch that finds rows, the result is exactly that batch's matches. |
| CursorSelection.OutsideFirstBatch | un_editor_solutions/__init__.py:26-46 | `create_sql` over more than 950 distinct ids makes two or more batches, and some collected id is outside the first. |
| CursorSelection.MissedRow | un_editor_solutions/__init__.py:226-230 | With unique object ids and a first batch that finds rows, a row that only a later batch matches is not selected as written, but is selected as intended. |
| CursorSelection.LaterBatchesMissed | un_editor_solutions/__init__.py:226-231 | For `create_sql`'s own batches over more than 950 distinct ids, with a first batch that finds rows: there are two or more batches, some id lies outside the first, the as-written result is the first batch's matches alone, and every row holding an id outside the first batch is missed though the intended run selects it. |

## Left out

- `editor_tools.pyt.py` is not part of this model: it is the toolbox wrapper, whose `execute` does nothing.
- `SelectRelated.__init__` is not a separate member: `project` and `map_name` only choose the map. The map lookup (lines 130-140) is the `Option` argument of `Run`, and "no map" returns without changes.
- `get_workspace` and `describe_workspace` are not modelled. They are path handling and a cached `arcpy.Describe`; their answers are the fields `workspaceClasses` and `serviceChildren` of `LayerDescription`.
- ArcPy is data.
  - `Describe` and `Exists` are `LayerDescription`.
  - `getDefinition('V2')` is the layer's `uri` and `kind`, and `connectionProperties['dataset']` is `dataset`.
  - `listLayers`/`listTables` are one sequence of `Layer`.
  - `SearchCursor` reads a layer's `rows`.
  - `setSelectionSet` is `SelectionStore.Union`.
  - `AddFieldDelimiters` is an uninterpreted function parameter of `CreateSql`.
- Progressor calls, `AddWarning`, `AddMessage` and `print` are not modelled; they only report. The count reported at line 232 is kept, as the field `reported`.
- The `__main__` harness (lines 239-258) is not modelled; its Electric Device → Device Unit relation only names the example rows of the findings.
- Key values are strings and integers. Floats, `None`, booleans and dates are left out, as are the database's type coercions in a where-clause.
- Where-clauses are not parsed: a query over a batch matches a row when the literal of the row's value is one of the batch's literals. In phase 2 `AddFieldDelimiters` is not applied either; the field is looked up by lower-cased name.
- `Common.Lower` lower-cases ASCII letters only; Python's `str.lower` also folds other scripts.
- `Chunking.Chunks` requires `n > 0`. The only caller passes 950, and `range` with a step of 0 raises ValueError.
- Phase 2 runs the related tables in Dafny's arbitrary map order. The outcome when no table fails does not depend on it; on failure, the selection is stated only as that of some subset of the tables.
- On an exception, the model says which exception ends `main`, and which selections are left. It does not say what partial state the phase-1 variables keep, because nothing reads them after an exception.
- `Engine.SelectRelated.SelectRelatedRows`: on failure it states the selection as that of some subset of the tables, not of the tables before the failing one, because the order of `selection_info` is not modelled.
- `DictUtils.RowsAsDicts` states only the number of dictionaries in its own contract. What each dictionary holds is stated by `DictUtils.RowDictLookup` and `DictUtils.RowDictRoundTrip`.
- `Relationships.DigitRun` recognises the ASCII digits `0`-`9` only. In a `str` pattern Python's `\d` matches every Unicode decimal digit, so a name with other digits gives a shorter id in the model.
- `Relationships.LayerIdOf` looks for `L` followed by an ASCII digit. A destination name whose only such digit is a non-ASCII decimal digit finds an id in Python but raises IndexError in the model.
- `Relationships.LayerIdOfSpec` is stated over ASCII digits, as `Relationships.LayerIdOf` is; it says nothing about names with other Unicode decimal digits.
- `Engine.SelectRelated.QueryBatches`, `Engine.SelectRelated.SelectInLayer`, `Engine.SelectRelated.PropagateTable`, `Engine.SelectRelated.SelectRelatedRows` and `Engine.SelectRelated.Run` model phase 2 in its intended form: a batch query matches every row of the related table. Lines 226-229 as written see only rows already selected. That behaviour is modelled separately by `CursorSelection.BatchesAsWritten` (see Findings).
- `Propagate.QueryOids` takes the value the phase-2 cursor reads through `objectid` to be the row's object id, `Row.oid`. A layer whose `objectid` field holds something other than its object ids is not modelled. A layer without that field is modelled: it raises FieldNotFound.

## Findings

| source | as written | input that shows it | evidently intended | confidence | as-written member | corrected member |
|---|---|---|---|---|---|---|
| un_editor_solutions/__init__.py:226-229 | Each batch's `SearchCursor(related_layer, ...)` runs on the layer whose selection phase 2 is growing. A cursor on a layer with a selection returns only the selected rows, so each batch sees only the rows already selected. | Device units 1 and 2 of device A1 and unit 3 of device B7, with unit 3 already selected: the query for A1 adds nothing. Also, with more than 950 distinct ids, nothing selected beforehand and a first batch that finds rows: every row holding an id outside `create_sql`'s first batch is missed. More generally, once the layer has any selection, no batch adds anything. | Every row of the related table whose foreign key holds a collected id is added to the selection. | not executed | CursorSelection.BatchesAsWritten, CursorSelection.PriorSelectionHidesMatches, CursorSelection.SelectionFreezes, CursorSelection.LaterBatchesMissed | Engine.SelectRelated.QueryBatches, Propagate.PropagationSelects |
