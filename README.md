# JSON import into Airtable: a Dafny model of the diff and write engine

This project models the core of Airtable's JSON import block. A JSON file is
flattened into rows of strings, the rows are mapped column by column onto the
fields of a table, and the rows are compared with the table's records on a
merge key. The result is a *diff*: records to create, records to update,
records left unchanged, and rows ignored because an earlier row already
claimed their record. The diff is then written into the base in batches of
50. Link cells are written by name, so linked records that do not exist yet
are created first.

The modules follow the source files:

| module | models |
|---|---|
| `JsRuntime` | thrown exceptions as `Result` values; the string built-ins the importer calls (`trim`, the two regular-expression replacements, `toLowerCase`, `String(n)`) |
| `Schema` | tables, fields, records and cell values as the Airtable SDK hands them to the importer; SDK conversion and CSV parsing passed in as `Foreign` |
| `SupportedFieldTypes` | `frontend/supportedFieldTypes.ts`: the type lists, the converter table, field validity, and the field-id filter |
| `CellComparison` | `normalizeCellValueForComparison`, `createMatcher`, and the per-field change test of `computeDataDiffAsync` |
| `Projection` | `getFieldMappingsMatchingHeaders`, `getValuesAndFailuresByFieldIdForParsedRecord` |
| `DataDiff` | `computeDataDiffAsync` |
| `RecordWriter` | `createOrUpdateRecordsAsync`, against a `Store` class that holds the base's records and logs every write |
| `ParsedDataReview` | the review component of `json_import/frontend/ParsedDataReview.tsx`: initial state, handlers, stale-diff guard, validation, and the import with its 50000-record limit |
| `JsonFiltering` | `frontend/jsonFilteringHelpers.ts`: pruning of nested values in uploaded JSON |

Loops in the source are methods with loop invariants. A method that only
computes is proved equal to a specification function. A method that writes
to the base is proved to leave the state that a specification function gives
from the old state: `RecordWriter.SecondPass`, `PassOverTable`, `LinkPass`
and `ImportWrites` describe its log, rows and minted ids. The lemmas state
the properties of these functions. The handlers of
`ParsedDataReview.Component` state their new state directly, in terms of
`Toggle`, `ChangeColumn` and the other state functions. State the source
updates in place is a class: the base and
its write log in `RecordWriter.Store`, and the component's `state`, props and
`_dataDiffId` counter in `ParsedDataReview.Component`. Exceptions are `Err`
results carrying the reason, never preconditions.

Where documentation and code disagree, the model follows the code:

- Documentation says every parsed row ends up in at most one outcome. In the
  code a row that matches several records updates all of them
  (`DataDiff.OneRowUpdatesEveryMatch`).
- The `isFirstLineHeaders` setting reads as `true` whatever was stored,
  because the getter returns `stored || true`
  (`ParsedDataReview.StoredIsFirstLineHeaders`).
- In `filterArrays` the array test reads element 1, not element 0. A key
  holding a one-element array of objects is therefore kept
  (`JsonFiltering.ArrayTestLooksAtSecondElement`).

## Model

| member | source | states |
|---|---|---|
| JsRuntime.Trim | frontend/headersValuesMappingHelpers.ts:12-13 | the result is the input with a whitespace-only prefix and suffix removed, and neither starts nor ends with whitespace |
| JsRuntime.TrimIdempotent | frontend/headersValuesMappingHelpers.ts:12-13 | trimming twice is trimming once |
| JsRuntime.ReplaceCrlf | frontend/headersValuesMappingHelpers.ts:16 | the replacement never lengthens the string, and a string without CR is unchanged |
| JsRuntime.ReplaceCrlfKeepsOtherCharacters | frontend/headersValuesMappingHelpers.ts:16 | every character other than CR survives, in order |
| JsRuntime.ReplaceCrlfLength | frontend/headersValuesMappingHelpers.ts:16 | the result is shorter by the number of CR LF pairs the single pass finds |
| JsRuntime.ReplaceCrlfPair | frontend/headersValuesMappingHelpers.ts:16 | a leading CR LF pair becomes one LF and the rest is replaced on its own |
| JsRuntime.ReplaceCrlfKeeps | frontend/headersValuesMappingHelpers.ts:16 | a leading character that does not open a CR LF pair is kept and the rest is replaced on its own |
| JsRuntime.ReplaceCrlfAppend | frontend/headersValuesMappingHelpers.ts:16 | the replacement works piece by piece when the first piece does not end in CR |
| JsRuntime.CrlfBecomesLf | frontend/headersValuesMappingHelpers.ts:16 | a CR LF pair between two pieces becomes one LF |
| JsRuntime.LfStays | frontend/headersValuesMappingHelpers.ts:16 | a bare LF between two pieces is kept |
| JsRuntime.ReplaceCrlfNotIdempotent | frontend/headersValuesMappingHelpers.ts:16 | one pass over "\r\r\n" leaves a CR LF pair, so a second pass changes it again |
| JsRuntime.ReplaceLineBreaks | frontend/supportedFieldTypes.ts:89-91 | the replacement never lengthens the string |
| JsRuntime.ReplaceLineBreaksRemovesBreaks | frontend/supportedFieldTypes.ts:89-91 | no line break survives, and a string without line breaks is unchanged |
| JsRuntime.ReplaceLineBreaksIsCollapseThenBlank | frontend/supportedFieldTypes.ts:89-91 | the replacement is: CR LF pairs collapsed to one break, then every CR and LF turned into a space, other characters kept in place |
| JsRuntime.CrlfBecomesSpace | frontend/supportedFieldTypes.ts:89-91 | a CR LF pair between two pieces becomes one space |
| JsRuntime.NatToStringInjective | json_import/frontend/ParsedDataReview.tsx:368 | different numbers print differently |
| Schema.GetFieldByIdIfExists | frontend/headersValuesMappingHelpers.ts:145-148 | a field is found exactly when the table has one with that id, and it is a field of the table with that id |
| Schema.Prop | frontend/headersValuesMappingHelpers.ts:159 | reading a property throws exactly on null and undefined; a defined result is the object's own property |
| SupportedFieldTypes.FieldConfigByType | frontend/supportedFieldTypes.ts:33-143 | exactly the supported types have a converter; rating and record links have their own converters |
| SupportedFieldTypes.LinkNameRefs | frontend/supportedFieldTypes.ts:103-107 | there are never more names than cells |
| SupportedFieldTypes.LinkNameRefsContents | frontend/supportedFieldTypes.ts:103-107 | every cell with non-blank trimmed text gives its trimmed {name}, and every value is the {name} of some cell |
| SupportedFieldTypes.LinkNameRefsOfCell | frontend/supportedFieldTypes.ts:103-107 | one cell gives its trimmed {name}, or nothing when it is blank |
| SupportedFieldTypes.LinkNameRefsAppend | frontend/supportedFieldTypes.ts:103-107 | the names of two runs of cells are the names of the first followed by those of the second: cell order and repeats are kept |
| SupportedFieldTypes.ConvertRecordLink | frontend/supportedFieldTypes.ts:84-109 | the input with its line breaks replaced is parsed as CSV; anything but one row throws with that count; a blank row is null; otherwise the list of the row's {name} values |
| SupportedFieldTypes.ConvertParsedValue | frontend/supportedFieldTypes.ts:33-151 | a type without converter throws; record links use the link converter; other supported types never throw, map "" to null and rating "0" to 0, and otherwise delegate to the SDK |
| SupportedFieldTypes.RecordLinkValueShape | frontend/supportedFieldTypes.ts:99-108 | a converted link cell is null or a list of {name} values with trimmed, non-blank names |
| SupportedFieldTypes.RatingZeroIsNotDelegated | frontend/supportedFieldTypes.ts:127-137 | rating "0" converts to the number 0, which is not nullish |
| SupportedFieldTypes.LinkedPrimaryTypes | frontend/supportedFieldTypes.ts:187-196 | succeeds exactly when every link field's table exists; the keys are the linked table ids, each mapped to its primary field's type |
| SupportedFieldTypes.GetLinkedTablesPrimaryFieldTypesByTableId | frontend/supportedFieldTypes.ts:187-196 | throws exactly when some link field's table is gone; otherwise every link field's table maps to its primary field type, and only those tables appear |
| SupportedFieldTypes.IsFieldValid | frontend/supportedFieldTypes.ts:153-172 | a missing field is invalid; with linked types given, validity is the type test against them; without, the types are computed from the parent table and that may throw |
| SupportedFieldTypes.FieldValidityIff | frontend/supportedFieldTypes.ts:153-172 | a link field is valid exactly when its linked table's primary type is allowed for links; any other field exactly when its type is supported |
| SupportedFieldTypes.FilterValidFieldIds | frontend/supportedFieldTypes.ts:180-185 | keeps, in order, exactly the ids whose field exists and is valid; throws exactly when some id's validity test throws |
| SupportedFieldTypes.FilterDeletedOrUnsupportedFieldIds | frontend/supportedFieldTypes.ts:180-185 | no ids give none; the result is an ordered subsequence holding exactly the valid ids; a throw implies some id names an existing field |
| SupportedFieldTypes.FilterDeletedOrUnsupportedFieldIdsIdempotent | frontend/supportedFieldTypes.ts:180-185 | filtering a filtered list changes nothing |
| CellComparison.ObjectElementsCount | frontend/headersValuesMappingHelpers.ts:18-19 | a normalised array keeps each object element as often as it occurs and no primitive |
| CellComparison.NormalizeIgnoresOrder | frontend/headersValuesMappingHelpers.ts:18-19 | arrays with the same elements in any order normalise equal |
| CellComparison.NormalizeIgnoresRepeatedPrimitives | frontend/headersValuesMappingHelpers.ts:18-19 | repeating a primitive element does not change the normalised array |
| CellComparison.RepeatedObjectsAreKept | frontend/headersValuesMappingHelpers.ts:18-19 | two equal object elements normalise differently from one |
| CellComparison.SurroundingWhitespaceIsIgnored | frontend/headersValuesMappingHelpers.ts:10-13 | for every string, whitespace-only text before and after it is not a difference |
| CellComparison.CrlfIsLf | frontend/headersValuesMappingHelpers.ts:14-16 | for all strings a and b, a CR LF pair between them compares equal to a bare LF, unless a ends in CR |
| CellComparison.CaseIsSignificant | frontend/headersValuesMappingHelpers.ts:9-23 | letter case is a difference: "a" and "A" normalise differently |
| CellComparison.MatchFoldIff | frontend/headersValuesMappingHelpers.ts:109-118 | the reduce is true exactly when it starts true and every key agrees |
| CellComparison.MatcherIff | frontend/headersValuesMappingHelpers.ts:107-120 | a record matches a row exactly when every merge-key value of the row is non-null and equal after normalisation to the record's cell |
| CellComparison.NamesOf | frontend/headersValuesMappingHelpers.ts:463-464 | mapping to .name succeeds exactly on a list with no nullish element, keeping its length |
| CellComparison.NamesOfElements | frontend/headersValuesMappingHelpers.ts:463-464 | succeeds exactly when no element is nullish; each result is that element's name property |
| CellComparison.PlainFieldDiffersIff | frontend/headersValuesMappingHelpers.ts:468-471 | for a field other than a link holding an array, a change is a difference after normalisation |
| CellComparison.ClearedLinkIsAChange | frontend/headersValuesMappingHelpers.ts:452-458 | a non-empty link cell with no incoming value is a change |
| CellComparison.EmptyLinkIsNoChange | frontend/headersValuesMappingHelpers.ts:459-461 | an empty link cell and an empty incoming value are not a change |
| CellComparison.SameLinkedNamesIsNoChange | frontend/headersValuesMappingHelpers.ts:462-471 | a link cell whose records carry the incoming names, in any order, is not a change |
| CellComparison.NoChangeIff | frontend/headersValuesMappingHelpers.ts:443-472 | no change is reported exactly when every mapped field is unchanged |
| CellComparison.ChangeIff | frontend/headersValuesMappingHelpers.ts:443-472 | a change is reported exactly when some field changed and every field before it is unchanged |
| Projection.FieldMatchingHeaderIsFirst | frontend/headersValuesMappingHelpers.ts:33-38 | the field found is the first field whose name equals the header ignoring case and whose type is supported; none found exactly when none qualifies |
| Projection.MatchingHeaderMappingsShape | frontend/headersValuesMappingHelpers.ts:30-51 | a field gets a mapping exactly when some header names it; the mapping is enabled and points at the first such header |
| Projection.GetFieldMappingsMatchingHeaders | frontend/headersValuesMappingHelpers.ts:25-52 | no table gives no mappings; otherwise exactly the fields some header names, each enabled with the index of the first header naming it |
| Projection.Project | frontend/headersValuesMappingHelpers.ts:68-70 | no table throws |
| Projection.GetValuesAndFailuresByFieldIdForParsedRecord | frontend/headersValuesMappingHelpers.ts:64-103 | the loop over the table's fields computes the row's projection |
| Projection.PrefixErrorPersists | frontend/headersValuesMappingHelpers.ts:75-98 | once a field's conversion throws, the whole projection throws that error |
| Projection.ProjectionFails | frontend/headersValuesMappingHelpers.ts:79-93 | a row's projection throws exactly when some projected field's conversion throws |
| Projection.ProjectionShape | frontend/headersValuesMappingHelpers.ts:75-98 | values exist exactly for the projected fields, each the conversion of its mapped raw value; failures only for fields with a value, and never for an empty raw value |
| Projection.FailureIff | frontend/headersValuesMappingHelpers.ts:88-96 | a field's raw value is a failure exactly when it is non-empty and converts to null or undefined |
| Projection.RatingZeroNeverFails | frontend/headersValuesMappingHelpers.ts:88-96 | a rating column holding "0" never reports a failure |
| Projection.MissingColumnIsNullWithoutFailure | frontend/headersValuesMappingHelpers.ts:88 | a column past the end of the row reads as "" and gives null with no failure |
| DataDiff.AccumulateFailures | frontend/headersValuesMappingHelpers.ts:408-414 | each failure is appended to its field's list |
| DataDiff.GroupByIsFilter | frontend/headersValuesMappingHelpers.ts:385-392 | each group holds exactly the records with its key, in table order |
| DataDiff.LookupGroup | frontend/headersValuesMappingHelpers.ts:426 | the lookup throws exactly for a key that no group has and that every object inherits |
| DataDiff.MatchingRecordsAreMatches | frontend/headersValuesMappingHelpers.ts:426-428 | the records kept by the filter are records of the group that match |
| DataDiff.MatchingWithinKey | frontend/headersValuesMappingHelpers.ts:385-428 | matching inside the row's group equals matching the whole table |
| DataDiff.OtherGroupDoesNotMatch | frontend/headersValuesMappingHelpers.ts:385-428 | a record in another group never matches |
| DataDiff.GroupedLookupFindsAllMatches | frontend/headersValuesMappingHelpers.ts:385-428 | when the lookup succeeds, its group's matches are all the table's matches |
| DataDiff.MappedFieldIds | frontend/headersValuesMappingHelpers.ts:395 | lists each enabled mapping's field id exactly once |
| DataDiff.ComputeFastDiff | frontend/headersValuesMappingHelpers.ts:347-375 | the fast path's loop computes the fast-path diff |
| DataDiff.ClaimMatchedRecords | frontend/headersValuesMappingHelpers.ts:432-481 | the loop over one row's matches computes the claim step |
| DataDiff.ComputeMergingDiff | frontend/headersValuesMappingHelpers.ts:377-494 | the row loop computes the merging diff |
| DataDiff.ComputeDataDiff | frontend/headersValuesMappingHelpers.ts:337-495 | no existing records or no merge key give the fast path; otherwise the merging path over some enumeration of the enabled field ids |
| DataDiff.ClaimMatchesFacts | frontend/headersValuesMappingHelpers.ts:432-481 | claiming keeps updates distinct, existing and disjoint from the unchanged records; creates and failures are untouched; at most one row is ignored; a non-empty match list always claims or ignores |
| DataDiff.ClaimMatchesExact | frontend/headersValuesMappingHelpers.ts:432-481 | the loop over one row's matches throws exactly when a comparison in the run before the first claimed record throws; otherwise that run is claimed, each record queued as an update when some cell differs and recorded as unchanged otherwise, the rest is not looked at, and the row is ignored exactly when the run stops early |
| DataDiff.ClaimedStateStep | frontend/headersValuesMappingHelpers.ts:432-481 | claiming the first unclaimed match and going on with the rest ends where the whole run ends |
| DataDiff.ClaimedStateEmptyRun | frontend/headersValuesMappingHelpers.ts:433-440 | a run that stops at once changes nothing but the ignore count, which grows by one when there was a match |
| DataDiff.RowStepFacts | frontend/headersValuesMappingHelpers.ts:399-487 | the row's failures are merged in; a row without a non-empty value changes nothing else; a row with one always creates, claims or ignores, and adds at most one create or ignore |
| DataDiff.RowStepCases | frontend/headersValuesMappingHelpers.ts:399-487 | a row without a non-empty value only adds its failures; a throwing group lookup makes the step throw; a row matching no record is queued for creation with its values; a row with matches claims them |
| DataDiff.SlowRowsFacts | frontend/headersValuesMappingHelpers.ts:399-487 | over all rows the updates name distinct existing records, none unchanged; every row with a value is accounted for, and creates plus ignores never exceed those rows |
| DataDiff.MergingDiffFacts | frontend/headersValuesMappingHelpers.ts:377-494 | the merging diff's updates are distinct, disjoint from the unchanged records and all existing; creates plus ignores are at most the rows with values, and all four outcomes together at least that many |
| DataDiff.InheritedKeyRowThrows | frontend/headersValuesMappingHelpers.ts:426 | a row whose first key value is "toString", against a table without that value, makes the diff throw |
| DataDiff.OneRowUpdatesEveryMatch | frontend/headersValuesMappingHelpers.ts:430-481 | a row that matches two unclaimed records with changes updates both |
| DataDiff.ClaimedMatchIsIgnored | frontend/headersValuesMappingHelpers.ts:433-440 | a row whose first match is already claimed is counted as ignored and changes nothing else |
| DataDiff.FastPathCreatesEveryRow | frontend/headersValuesMappingHelpers.ts:347-375 | on the fast path every row, in order, is one record to create and nothing is updated or ignored |
| RecordWriter.Store.CreateRecord | frontend/headersValuesMappingHelpers.ts:230-234 | one record is appended to the table under a fresh id and the write is logged |
| RecordWriter.Store.UpdateRecords | frontend/headersValuesMappingHelpers.ts:304 | the updates are applied to their records and the batch is logged |
| RecordWriter.Store.CreateRecords | frontend/headersValuesMappingHelpers.ts:313 | the records are appended under fresh ids and the batch is logged |
| RecordWriter.AddToSet | frontend/headersValuesMappingHelpers.ts:158-160 | the set holds, once each, exactly the old and the added names |
| RecordWriter.AddLinkField | frontend/headersValuesMappingHelpers.ts:164 | the link field is recorded, keeping field ids distinct |
| RecordWriter.ElementNames | frontend/headersValuesMappingHelpers.ts:158-160 | every element of the link cell contributes its name |
| RecordWriter.LinkPlanOf | frontend/headersValuesMappingHelpers.ts:143-167 | the collected plan is well formed: distinct table ids, distinct names per table, distinct link fields |
| RecordWriter.LinkPlanErrorPersists | frontend/headersValuesMappingHelpers.ts:143-167 | once a record def throws, the collection throws that error |
| RecordWriter.CollectLinkedRecordNames | frontend/headersValuesMappingHelpers.ts:143-167 | the loops compute the link plan |
| RecordWriter.LinkTouchedReachesTotal | frontend/headersValuesMappingHelpers.ts:169-217 | the names counted never exceed the announced total; they reach it exactly when every linked table exists, and fall short when a missing table has names |
| RecordWriter.ResolvedPlusUnresolved | frontend/headersValuesMappingHelpers.ts:212-245 | the first pass's count plus the second pass's creations is the number of names |
| RecordWriter.MissingNamesMembers | frontend/headersValuesMappingHelpers.ts:219-222 | the names the second pass creates are exactly the names with no truthy id |
| RecordWriter.IndexAfterResolves | frontend/headersValuesMappingHelpers.ts:219-237 | after the second pass every name has a truthy id |
| RecordWriter.IndexAfterKeepsExisting | frontend/headersValuesMappingHelpers.ts:219-237 | a name that already had a truthy id keeps it |
| RecordWriter.IndexAfterOutside | frontend/headersValuesMappingHelpers.ts:219-237 | a name the pass does not visit keeps its entry, or its absence |
| RecordWriter.IndexAfterMints | frontend/headersValuesMappingHelpers.ts:229-237 | the k-th missing name gets the k-th id minted after the pass starts |
| RecordWriter.LoadNameIndex | frontend/headersValuesMappingHelpers.ts:192-196 | the loop builds the name index, later records winning |
| RecordWriter.CountExisting | frontend/headersValuesMappingHelpers.ts:212-216 | counts the names that already have an id |
| RecordWriter.CreateMissingLinkedRecords | frontend/headersValuesMappingHelpers.ts:219-249 | the creation loop succeeds exactly when the second pass over the names does, and then returns its index and writes its records and creations; progress stays monotone and ends at the count plus the records created |
| RecordWriter.ResolveName | frontend/headersValuesMappingHelpers.ts:221-238 | a name with a truthy id is left alone and nothing is written; otherwise it throws exactly when the name does not convert for the primary field, and on success one createRecordAsync call is logged for the linked table with the converted name as primary cell, the record is appended under the next minted id, and the name gets that id |
| RecordWriter.SecondPassSucceeds | frontend/headersValuesMappingHelpers.ts:219-245 | the pass over distinct names succeeds exactly when every missing name converts for the primary field; its index is then IndexAfter's and it creates one record per missing name |
| RecordWriter.SecondPassWrites | frontend/headersValuesMappingHelpers.ts:229-234 | the pass logs one createRecordAsync call per missing name, in order, each with the converted name as primary cell |
| RecordWriter.SecondPassRecords | frontend/headersValuesMappingHelpers.ts:229-234 | the pass appends one record per missing name, in order, under consecutive minted ids |
| RecordWriter.SecondPassCreatesOnly | frontend/headersValuesMappingHelpers.ts:229-234 | the pass sends nothing but single record creations |
| RecordWriter.ConversionAt | frontend/headersValuesMappingHelpers.ts:229-233 | the i-th conversion is the primary field's conversion of the i-th name |
| RecordWriter.CreatePassStep | frontend/headersValuesMappingHelpers.ts:220-245 | one iteration of the creation loop: the log grows by the writes it reports, progress stays monotone and counts the records created; a throw means the whole second pass throws; otherwise the pass invariant moves from the first j names to the first j + 1 |
| RecordWriter.ResolveLinkedTable | frontend/headersValuesMappingHelpers.ts:183-252 | the table's resolution as PassOverTable gives it from the old rows: a table that is gone is skipped with no index; a computed primary field keeps the index of the loaded records; otherwise the second pass over the index of the loaded records; its names are all counted |
| RecordWriter.PassOverTableResolves | frontend/headersValuesMappingHelpers.ts:183-252 | a table resolves to an index exactly when it exists; with a writable primary field every name has a truthy id, and every name the loaded records already resolve keeps that record's id |
| RecordWriter.ResolveLinkedRecords | frontend/headersValuesMappingHelpers.ts:179-253 | the loop over the linked tables succeeds exactly when LinkPass does, and then returns its indexes, writes its creations and leaves its rows; the count is the names of existing linked tables |
| RecordWriter.LinkPassResolves | frontend/headersValuesMappingHelpers.ts:179-253 | after link resolution every name of every existing linked table with a writable primary field has a truthy id |
| RecordWriter.LinkPassCreatesOnly | frontend/headersValuesMappingHelpers.ts:179-253 | link resolution sends nothing but single record creations |
| RecordWriter.RewriteElement | frontend/headersValuesMappingHelpers.ts:273-283 | an element with an id is kept; a nullish element throws; otherwise it throws without an index for the table, and with one becomes an {id} or null |
| RecordWriter.RewriteNameRef | frontend/headersValuesMappingHelpers.ts:276-282 | a {name} element becomes the {id} of the name's record when the name resolves, and null otherwise |
| RecordWriter.RewriteElementsPointwise | frontend/headersValuesMappingHelpers.ts:273-283 | the map over the elements succeeds exactly when every element rewrites, and then rewrites them one for one, in order |
| RecordWriter.Compact | frontend/headersValuesMappingHelpers.ts:272 | only truthy elements of the input remain, and a list without falsy elements is unchanged |
| RecordWriter.CompactKeeps | frontend/headersValuesMappingHelpers.ts:272 | every truthy element is kept |
| RecordWriter.CompactAppend | frontend/headersValuesMappingHelpers.ts:272 | compacting works piece by piece, so the kept elements keep their order |
| RecordWriter.UniqFrom | frontend/headersValuesMappingHelpers.ts:271-286 | only elements whose id is not yet seen remain, and their ids are distinct |
| RecordWriter.UniqFromKeepsFirsts | frontend/headersValuesMappingHelpers.ts:271-286 | the first element of every id not yet seen is kept |
| RecordWriter.UniqFromCovers | frontend/headersValuesMappingHelpers.ts:271-286 | every id not yet seen keeps one element |
| RecordWriter.UniqFromAppend | frontend/headersValuesMappingHelpers.ts:271-286 | uniqBy works piece by piece, a later piece keeping only the ids not seen in an earlier one, so the order is kept |
| RecordWriter.UniqFromDistinct | frontend/headersValuesMappingHelpers.ts:271-286 | a list with distinct, unseen ids is unchanged |
| RecordWriter.RewriteLinkValue | frontend/headersValuesMappingHelpers.ts:271-286 | the new cell holds only {id} elements with distinct ids; it throws only on a non-list or an element that does not rewrite |
| RecordWriter.RewriteLinkValueContents | frontend/headersValuesMappingHelpers.ts:271-286 | the rewrite succeeds exactly on a list whose every element rewrites; every element of the new cell is the rewrite of an old element, and every old element that rewrote to an {id} has its id in the new cell |
| RecordWriter.RewriteLinkValueIdempotent | frontend/headersValuesMappingHelpers.ts:274-277 | rewriting a rewritten cell changes nothing |
| RecordWriter.RewriteDefFrame | frontend/headersValuesMappingHelpers.ts:259-288 | cells of fields that are not link fields are left alone |
| RecordWriter.RewriteDefIdempotent | frontend/headersValuesMappingHelpers.ts:259-288 | rewriting a rewritten record def changes nothing, so rewriting a shared def once per update is the same as once |
| RecordWriter.RewriteLinkCells | frontend/headersValuesMappingHelpers.ts:260-287 | the loop over the link fields computes the rewrite of one record def |
| RecordWriter.RewriteDefs | frontend/headersValuesMappingHelpers.ts:259-288 | every create is rewritten in order; a throw comes from some def |
| RecordWriter.RewriteUpdates | frontend/headersValuesMappingHelpers.ts:259-288 | every update's fields are rewritten in order with ids kept; a throw comes from some update |
| RecordWriter.RewriteAllLinks | frontend/headersValuesMappingHelpers.ts:259-288 | succeeds exactly when creates and updates both rewrite, with those results |
| RecordWriter.RewriteCreateLinks | frontend/headersValuesMappingHelpers.ts:259-288 | the rewrite loop over the records to create succeeds exactly when every def rewrites, with the rewritten defs in order |
| RecordWriter.RewriteUpdateLinks | frontend/headersValuesMappingHelpers.ts:259-288 | the rewrite loop over the updates succeeds exactly when every update rewrites, each keeping its record id |
| RecordWriter.RewrittenLinksAreDistinctIds | frontend/headersValuesMappingHelpers.ts:264-286 | a rewritten link cell names each linked record at most once |
| RecordWriter.Batch | frontend/headersValuesMappingHelpers.ts:292 | the batch is the first min(50, n) elements |
| RecordWriter.KeptVanishedSplit | frontend/headersValuesMappingHelpers.ts:291-307 | splitting updates into kept and vanished works chunk by chunk |
| RecordWriter.KeptVanishedPartition | frontend/headersValuesMappingHelpers.ts:296-302 | every update is either sent, if its record still exists, or moved to the creates, never both |
| RecordWriter.BatchedWritesCover | frontend/headersValuesMappingHelpers.ts:291-317 | the batches send every kept update and every create exactly once, in order, 1 to 50 per call, one update call per 50 updates |
| RecordWriter.SplitBatch | frontend/headersValuesMappingHelpers.ts:296-302 | the loop splits one batch into kept and vanished |
| RecordWriter.SendUpdateBatch | frontend/headersValuesMappingHelpers.ts:292-306 | one update call with the batch's kept updates |
| RecordWriter.UpdateInBatches | frontend/headersValuesMappingHelpers.ts:291-307 | the update calls are logged, the vanished updates are returned, progress counts the kept ones |
| RecordWriter.CreateInBatches | frontend/headersValuesMappingHelpers.ts:310-317 | the create calls are logged and progress counts every create |
| RecordWriter.CreateOrUpdateRecords | frontend/headersValuesMappingHelpers.ts:126-320 | no table or a bad record def throws before any write; it succeeds exactly when ImportWrites does, and then the log grows by those writes: the link creations of LinkPass, the update batches against the ids the table holds after them, and the create batches including the vanished updates, with the cells rewritten by the ids LinkPass gives; progress ends at every def plus the names of existing linked tables |
| RecordWriter.ImportSucceeded | frontend/headersValuesMappingHelpers.ts:126-320 | a successful import's writes are the link creations, then the update batches, then the create batches; its links all resolve and link resolution only creates |
| RecordWriter.ImportFailed | frontend/headersValuesMappingHelpers.ts:126-320 | an import whose link resolution or rewrite throws has no writes |
| RecordWriter.LinkedImportStages | frontend/headersValuesMappingHelpers.ts:176-318 | the writes of an import with a known link plan, stage by stage |
| RecordWriter.ImportWithPlan | frontend/headersValuesMappingHelpers.ts:176-318 | the import once its plan is known succeeds exactly when link resolution and both rewrites do, logging the link creations, the update batches and the create batches |
| RecordWriter.WriteLinked | frontend/headersValuesMappingHelpers.ts:259-318 | succeeds exactly when both rewrites do, and then logs the update batches against the present ids and the create batches |
| RecordWriter.WriteRewrittenRecords | frontend/headersValuesMappingHelpers.ts:290-318 | the log grows by the update batches of the updates still present, then the create batches of the creates followed by the vanished updates; progress ends at the count of every create and update |
| ParsedDataReview.FilterIds | frontend/supportedFieldTypes.ts:180-185 | no ids never read the table; a missing table with ids throws; otherwise exactly the valid ids, in order |
| ParsedDataReview.ValidMappings | json_import/frontend/SettingsStore.ts:94-101 | keeps exactly the mappings of valid fields, unchanged |
| ParsedDataReview.PickAgreesWithFilter | json_import/frontend/SettingsStore.ts:96-100 | picking the filtered keys, in any enumeration order, is ValidMappings, and both throw together |
| ParsedDataReview.ValidMappingsIdempotent | json_import/frontend/ParsedDataReview.tsx:291-294 | filtering valid mappings again changes nothing |
| ParsedDataReview.StoredIsFirstLineHeaders | json_import/frontend/SettingsStore.ts:50-52 | the getter is true whatever is stored |
| ParsedDataReview.ColumnNamesDistinct | json_import/frontend/ParsedDataReview.tsx:364-369 | the default headers are pairwise different |
| ParsedDataReview.DefaultHeaders | json_import/frontend/ParsedDataReview.tsx:364-369 | succeeds exactly when the state holds non-empty data, giving one header per column of the first row |
| ParsedDataReview.ParsedRecordsAndHeaders | json_import/frontend/ParsedDataReview.tsx:582-596 | with a header line, the headers followed by the records are the data; without, the records are the data and the default headers must exist |
| ParsedDataReview.MergeMatched | json_import/frontend/ParsedDataReview.tsx:131-138 | stored mappings win; header matches fill in only the fields without a stored mapping |
| ParsedDataReview.IcStateShape | json_import/frontend/ParsedDataReview.tsx:98-158 | the first line is the headers exactly when a header names a field or all stored columns are in range; the mapping keys are the stored and matched ones, stored mappings win; the merge key is the stored one and no diff is ready |
| ParsedDataReview.IcStateFails | json_import/frontend/ParsedDataReview.tsx:98-158 | for non-empty data the initial state fails exactly when a settings getter fails |
| ParsedDataReview.IcStateRows | json_import/frontend/ParsedDataReview.tsx:142-158 | a header line is split off the data; otherwise every line is a record under default column names sized by the first line |
| ParsedDataReview.IcStateWithoutData | json_import/frontend/ParsedDataReview.tsx:100-106 | without data the state holds the stored mappings and expects a header line |
| ParsedDataReview.StaleStoredMappingCrashesConstructor | json_import/frontend/ParsedDataReview.tsx:81-158 | a stored mapping to a column the file lacks, with no header match, makes the constructor throw; the corrected state has headers "Column 1" |
| ParsedDataReview.CanUserPerformImport | json_import/frontend/ParsedDataReview.tsx:673-685 | permissions are asked only once a diff is ready, and then both must hold |
| ParsedDataReview.FirstUnmappedField | json_import/frontend/ParsedDataReview.tsx:413-421 | the first table field enabled without a column, or none exactly when there is no such field |
| ParsedDataReview.ValidateIff | json_import/frontend/ParsedDataReview.tsx:371-433 | valid exactly when there is a table, some mapping has a column, merging has a key with every field mapped, no field is enabled without a column, and the user may write |
| ParsedDataReview.DerivedPatch | json_import/frontend/ParsedDataReview.tsx:269-312 | nothing during an import; otherwise the diff is cleared exactly when the records are not loaded, and when they are, the kept mappings and merge keys name only valid fields |
| ParsedDataReview.DerivedStateIsStable | json_import/frontend/ParsedDataReview.tsx:269-312 | deriving again from a derived state changes nothing |
| ParsedDataReview.Toggle | json_import/frontend/ParsedDataReview.tsx:632-652 | the toggled field's isEnabled is flipped, a field without a mapping starting disabled with no column, which it keeps; every other mapping is unchanged |
| ParsedDataReview.ToggleTwice | json_import/frontend/ParsedDataReview.tsx:632-652 | toggling twice restores a mapping; a field without one ends disabled with no column |
| ParsedDataReview.ChangeColumn | json_import/frontend/ParsedDataReview.tsx:654-671 | the column changes, the enabled flag is kept (false when absent), nothing else changes |
| ParsedDataReview.SetMergeKey | json_import/frontend/ParsedDataReview.tsx:616-620 | the key at the index is replaced, or appended at the end, and the others kept |
| ParsedDataReview.Component.BeginDataDiff | json_import/frontend/ParsedDataReview.tsx:232-252 | the counter goes up by one, the diff is cleared, and the inputs are captured, with no merge key unless merging |
| ParsedDataReview.Component.FinishDataDiff | json_import/frontend/ParsedDataReview.tsx:257-265 | the result is stored only when no later computation was started |
| ParsedDataReview.Component.OverlappingDiffs | json_import/frontend/ParsedDataReview.tsx:232-265 | of two overlapping computations only the later one's diff is kept |
| ParsedDataReview.Component.DeriveStateFromProps | json_import/frontend/ParsedDataReview.tsx:269-312 | the state is patched as derived, or left alone when the filtering throws |
| ParsedDataReview.Component.OnFieldMappingToggle | json_import/frontend/ParsedDataReview.tsx:632-652 | the mappings become their Toggle, the diff is cleared, and a diff is started on the new mappings |
| ParsedDataReview.Component.OnFieldMappingChange | json_import/frontend/ParsedDataReview.tsx:654-671 | the column is changed, and a diff is started on the new mappings |
| ParsedDataReview.Component.OnMergeDuplicatesToggleChange | json_import/frontend/ParsedDataReview.tsx:598-605 | the merge flag is set, and a diff is started with the merge key when merging and none otherwise |
| ParsedDataReview.Component.OnSelectedKeyForMergingChange | json_import/frontend/ParsedDataReview.tsx:616-630 | the merge key is set, and a diff is started on the new key when merging |
| ParsedDataReview.Component.OnFieldConfigChange | json_import/frontend/ParsedDataReview.tsx:319-348 | a disabled mapping is ignored; an invalid field loses its mapping and starts a diff, with nothing else in the state changed but the cleared diff; a valid one starts a diff only when it has a column, and then only the diff is cleared |
| ParsedDataReview.Component.OnTableChange | json_import/frontend/ParsedDataReview.tsx:537-580 | the table becomes the new one; the state becomes the table change of the old state, or stays as it was when the change throws; the diff counter is untouched |
| ParsedDataReview.ComputeTableChange | json_import/frontend/ParsedDataReview.tsx:537-580 | the steps of the handler on the state compute the table change exactly, error included |
| ParsedDataReview.TableChangedFails | json_import/frontend/ParsedDataReview.tsx:537-566 | a table change throws exactly when there is no parsed data, a settings getter throws, or the first line stays data in an empty file |
| ParsedDataReview.TableChangedMappings | json_import/frontend/ParsedDataReview.tsx:543-575 | after a table change the mapping keys are the stored and matched ones, stored mappings win, matches fill the gaps, the merge key is the stored one and the diff is cleared; status, data and the merge flag are kept |
| ParsedDataReview.TableChangedRows | json_import/frontend/ParsedDataReview.tsx:552-566 | a header match makes the first line the headers, otherwise the previous choice stands; the data is split into headers and records accordingly |
| ParsedDataReview.Component.OnTableDataLoaded | json_import/frontend/ParsedDataReview.tsx:441-456 | the records are loaded, the diff is cleared, and a diff is started on the current state |
| ParsedDataReview.Component.CreateOrUpdateRecords | json_import/frontend/ParsedDataReview.tsx:460-502 | no ready diff throws and changes nothing; no table throws without writing; more creates than the 50000-record limit leaves room for, exactly, report the room left and write nothing; otherwise it ends Imported exactly when the import's writes exist, and then the log grows by exactly those writes and the status is success |
| JsonFiltering.ElementAt | frontend/jsonFilteringHelpers.ts:31 | reads an element, undefined past the end |
| JsonFiltering.PrunedShape | frontend/jsonFilteringHelpers.ts:28-37 | an entry survives exactly when its value is not deleted, and nothing is added |
| JsonFiltering.PrunedAppend | frontend/jsonFilteringHelpers.ts:28-37 | pruning works entry by entry, so the survivors keep their order |
| JsonFiltering.PrunedIdempotent | frontend/jsonFilteringHelpers.ts:28-37 | pruning pruned entries changes nothing |
| JsonFiltering.DeleteNestedValues | frontend/jsonFilteringHelpers.ts:28-37 | the loop over the keys deletes exactly the pruned entries |
| JsonFiltering.FilterItem | frontend/jsonFilteringHelpers.ts:24-39 | null throws; arrays and primitives pass through; an object is pruned |
| JsonFiltering.FilterItems | frontend/jsonFilteringHelpers.ts:24 | the map keeps length and filters each item |
| JsonFiltering.FilterItemsFailsOnNull | frontend/jsonFilteringHelpers.ts:24-28 | the map throws exactly when some item is null |
| JsonFiltering.FilterArrays | frontend/jsonFilteringHelpers.ts:20-40 | the loop computes the filter; a non-array is returned unchanged |
| JsonFiltering.FilterJson | frontend/jsonFilteringHelpers.ts:1-18 | missing data stays missing; a throw gives no data; otherwise the filtered data |
| JsonFiltering.FilteredArraysShape | frontend/jsonFilteringHelpers.ts:20-40 | on an array: same length, objects pruned, everything else kept, a throw exactly on a null item |
| JsonFiltering.FilteredArraysIdempotent | frontend/jsonFilteringHelpers.ts:20-40 | filtering filtered data changes nothing |
| JsonFiltering.ArrayTestLooksAtSecondElement | frontend/jsonFilteringHelpers.ts:30-33 | a one-element array of objects is kept, two objects are deleted, a number followed by an object is deleted |

## Findings

| source | as written | input that shows it | evidently intended | confidence | as-written member | corrected member |
|---|---|---|---|---|---|---|
| json_import/frontend/ParsedDataReview.tsx:139 | the constructor (line 85) builds the initial state before `this.state` exists; when no header names a field and a stored mapping points past the file's columns, line 139 leaves the first line as data, the default headers are read from `this.state.parsedData` (lines 364-366) and the constructor throws | table with one field "Name"; stored mapping of that field to column 4; file `[["Ada"]]` | default headers built from the data being loaded, giving `["Column 1"]` | medium, not executed | ParsedDataReview.IcStateAsWritten, ParsedDataReview.StaleStoredMappingCrashesConstructor | ParsedDataReview.IcState, ParsedDataReview.IcStateShape |

## Left out

- `parseHeadersValuesStringSync` and `jsonToHeadersValuesParsingHelpers` are not part of this model: CSV parsing of link cells is the `parseRows` function of `Schema.Foreign`, and the flattening of JSON into rows is not modelled.
- `field.convertStringToCellValue`, the SDK's string conversion, is the `convertString` function of `Schema.Foreign`.
- The async scheduling (`nonblocking.forEachAsync`, `setTimeoutAsync`, awaits, debounce), React rendering and `setState` batching: each handler is one atomic state change followed by the diff it starts.
- The data loaded by `selectRecords` is the store's current snapshot. Unloading query results and `isDataLoaded` are replaced by the `queryLoaded` flag.
- `_computeJsonPathAsync`, `_setStateFromParsedJsonFileAsync` and JSONPath queries. `_setStateFromParsedJsonFileAsync` also builds default headers from the state's data.
- Rendering, `_trackImport`, `_onClose`, viewport handling, the error message text for too many records, and the `progress` fraction, which is floating point. Progress is modelled as (touched, total) pairs.
- Letter-case folding beyond ASCII in `toLowerCase`, and the whitespace set of `trim` beyond the characters `JsRuntime.IsWhitespace` lists.
- Numbers are integers. `String(v)` for cell values is approximated by `Schema.JsToString`.
- Record ids are assumed not to look like integers. JavaScript orders such keys numerically, which would reorder `recordDefsToUpdate`.
- The key order of JavaScript objects is modelled as first-insertion order. The enumeration order of the field mappings is left open (`DataDiff.MappedFieldIds`).
- Linked tables are visited in the order their link fields first appear while collecting, as the insertion order of `linkedRecordNamesSetByLinkedTableId` gives.
- Link-name lookups of a name that is an `Object.prototype` member (for example "constructor") in `linkedRecordIdByNameByTableId` would find an inherited function. This is not modelled: such a name counts as unresolved.
- RecordWriter.ElementNames: a link element whose name is not a string is an error (`UnexpectedLinkValue`). The source would add it to the Set as it is; the converters never produce such values.
- RecordWriter.PlanForDef: when a record def has both an unknown field and a bad link value, the unknown field is reported, although the source throws at whichever key comes first.
- In-place mutation of record defs in `createOrUpdateRecordsAsync` is modelled on values. `RecordWriter.RewriteDefIdempotent` shows that re-rewriting a def shared by several updates changes nothing, so the order and aliasing of the in-place writes do not affect the result.
- The fast path's `unchangedRecords: []` (a different key from `unchangedRecordsById`) is modelled as `unchangedRecordsById == None`.
- `record.getCellValue` on a merge-key field that no longer exists throws in the SDK. The model reads an absent cell as null.
- A field mapping's `parsedIndex` of `undefined` is not modelled; only null (`None`) and numbers are.
- ParsedDataReview.Component.OnFieldMappingChange: on a field with no mapping, the spread of `undefined` leaves `isEnabled` undefined; the model uses false, which behaves the same everywhere it is read.
- ParsedDataReview.SetMergeKey: requires the index to be within the array or just past its end. JavaScript would leave holes for a larger index; the UI only ever sets index 0.
- ParsedDataReview.IcStateWith: the constructor with no table would throw on `table.id`; the model takes a table.
- The fields the early return of `_getIcState` leaves undefined (merge flag, merge key, records) hold their empty values: `false` and `[]`.
- `filterJsonAsync` mutates the parsed objects in place. The model builds new values; its caller passes a deep clone, so no other reference sees the mutation.
- `console.error` and `console.log` are left out.
- DataDiff.MergingDiffFacts: states counts and disjointness for the whole diff only. Which outcome each row gets is stated per row by `DataDiff.RowStepCases` and `DataDiff.ClaimMatchesExact`, and `DataDiff.ComputeMergingDiff` is proved equal to the fold of that row step; no single lemma states the outcome of every row at once.
- RecordWriter.CreateOrUpdateRecords: when the import throws after writing has begun, the contract says only that the log grows. The writes made before the throw stay in the base, as they do in the source, but their exact list is not stated.
- ParsedDataReview.Component.CreateOrUpdateRecords: the same holds for an import that throws after the record-limit check.
