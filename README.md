# Override engine and sorting of minecraft-documentation-extractor, in Dafny

minecraft-documentation-extractor turns Minecraft's scripting documentation into a
typed schema (components, events, system methods, filters, nested types) and then
corrects that schema with a hand-written override file. This project models the two
core parts of that pipeline and proves properties of the model:

- **The override engine** (`src/overrides.ts`). It applies the override file to a
  documentation: a version guard, then system methods, components and the four event
  lists patched in that order, then a consumption audit. Each override entry is
  `discuss`, `add`, `remove` or `change` (the default), keyed by an element, field or
  parameter name. System methods are overloaded by name: a `findByParameters` selector
  picks overloads by their leading parameter names, and a `findByType` selector picks a
  returned type. Every entry records its own `_processed` flag and `_issues` list. The
  auditor walks the annotated file as a JSON tree, deletes the consumed entries, and
  reports whether anything was left unconsumed.
- **Sorting** (`src/sort.ts`). Components, events, filters and method parameters are
  sorted by name for diff-stable output. Every field list nested inside a type is
  sorted too, as are each filter's options.

Files:

| file | module(s) | what it holds |
|---|---|---|
| `types.dfy` | `Types` | the documentation model, JavaScript truthiness helpers, `find`/`filter` |
| `override_file.dfy` | `OverrideFile` | the override file and its `_processed`/`_issues` bookkeeping |
| `type_patch.dfy` | `TypePatch`, `TypePatchFacts` | `overrideTypeDefinition` |
| `element_patch.dfy` | `ElementPatch`, `ElementPatchFacts` | `overrideTopLevelElement` |
| `return_patch.dfy` | `ReturnPatch`, `ReturnPatchFacts` | `overrideReturnType` |
| `method_patch.dfy` | `MethodPatch`, `MethodPatchFacts` | `isSelector`, `overrideMethodElement` |
| `audit.dfy` | `Audit`, `AuditFacts` | `removeProcessedComponents` over a JSON tree |
| `report.dfy` | `Report`, `ReportFacts`, `ReturnReportFacts` | the override file as that JSON tree; the audit's verdict on typed overrides |
| `engine.dfy` | `Engine` | `checkDocumentationVersion`, `applyOverrides`, `verifyAllOverridesConsumed` |
| `engine_facts.dfy` | `EngineFacts` | whole-run properties |
| `sorting.dfy` | `Sorting` | `sort.ts` |

How the code's shapes are modelled:

- The patchers update the cloned documentation and override file in place. Here each
  patcher returns the patched list and the override annotated with its bookkeeping.
  Each is a `method` with the source's loop. It is proved equal to a specification
  function that folds the entries from the last one back, and the facts are lemmas
  about those functions.
- A throw is the `Throw` case of an `Outcome` result.
- The run-time duck typing of overrides becomes datatype constructors:
  - `isObjectTypeOverride` (`src/overrides.ts:209-211`) becomes `TypeOverride`'s three
    cases: a leaf name, a list of names, or a map of field overrides.
  - `isSelector` (`src/overrides.ts:316-318`) becomes `MethodItem`'s two cases.
  - `isOverrideReturnTypeDefinitionSelector` (`src/overrides.ts:549-551`) becomes
    `ReturnItem`'s two cases.
- The top-level sorts work in place on an `array`. The sort is an insertion sort, so
  its result is the unique stable ordering by name (see `Sorting.SortStable`).

Behaviour of the code worth knowing:

- A method `remove` drops only the first overload that the name or selector picks
  (`src/overrides.ts:366-371`), not all of them (`MethodPatchFacts.RemoveFirstOverload`,
  `MethodPatchFacts.SelectorRemove`, `MethodPatchFacts.TwoRemovesDeleteTwoOverloads`).
- The audit fails only on entries whose `_processed` is explicitly false
  (`src/overrides.ts:736`). Entries the engine never reached are accepted. Examples: the
  inner override of a method selector that matched nothing, the fields under a
  `discuss`ed element, a `returnTypes` element without `findByType`.
- Those entries that were never reached also stay in the report, because only entries
  marked processed are deleted.
- The audit only warns. The run goes on and returns its verdict.
- The engine (`applyOverrides`) never calls `src/sort.ts`; sorting is modelled separately.

## Model

| member | source | states |
|---|---|---|
| Engine.CheckDocumentationVersion | src/overrides.ts:179-197 | throws "Documentation version error" exactly when the documentation has no version; otherwise reports, without stopping, whether the two versions differ in any of major, minor, revision, build |
| Engine.ApplyOverrides | src/overrides.ts:147-177 | the run is `Apply`: version guard, then system methods, components and the event lists, in that order, then the audit of the annotated file; a throw at any stage is the run's outcome |
| Engine.VerifyAllOverridesConsumed | src/overrides.ts:685-720 | the verdict and leftovers are the walk of every present group (system methods, components, client and server listening and triggerable), in that order, each group walked whatever the verdict on earlier ones |
| EngineFacts.NullVersionThrows | src/overrides.ts:179-183 | a documentation without a version makes the whole run throw the version error |
| EngineFacts.VersionOnlyReported | src/overrides.ts:185-196 | a version mismatch only raises the reported flag: patched documentation, annotated file, verdict and report equal those of a run with any other version |
| EngineFacts.AuditGroupsWalksEach | src/overrides.ts:713 | the report holds each group's remains, one per group, in order, and the verdict is the conjunction of all groups' verdicts |
| EngineFacts.GroupsAudit | src/overrides.ts:687-711 | the audited groups are all consumed exactly when every override of the annotated file, at every depth, was not left at `_processed = false` |
| EngineFacts.GroupsAppend | src/overrides.ts:687-711 | the groups of two lists of groups are consumed and well formed exactly when the groups of each list are |
| EngineFacts.ElementGroupOptAudit | src/overrides.ts:690-692 | the component group, when present, is consumed exactly when every component override is done |
| EngineFacts.MethodGroupOptAudit | src/overrides.ts:687-689 | the system-method group, when present, is consumed exactly when every method override is done |
| EngineFacts.SideGroupsAudit | src/overrides.ts:694-701 | the listening and triggerable groups of one side are consumed exactly when every event override of that side is done |
| EngineFacts.EventGroupsAudit | src/overrides.ts:693-710 | the event groups are consumed exactly when every present side is done |
| EngineFacts.RunVerdict | src/overrides.ts:176 | for a run that did not throw, the verdict holds iff every override was consumed; a passing run leaves no `_processed` key in its report; a failing run's report still holds a stale entry |
| EngineFacts.ComponentsOnlyRun | src/overrides.ts:155-157 | a file with only component overrides changes only the components and audits only that group |
| EngineFacts.RemoveThenConsume | src/overrides.ts:255-262 | removing "Fire" from a documentation listing it drops every component of that name, changes nothing else, passes the audit and leaves an empty report |
| EngineFacts.MissingElementUnconsumed | src/overrides.ts:255-268 | a `remove` or `change` naming a missing element changes nothing and leaves its entry at `_processed = false` and otherwise as authored |
| EngineFacts.StaleElementKept | src/overrides.ts:736-743 | an unconsumed element entry fails the walk and survives it, still failing |
| EngineFacts.TypoReported | src/overrides.ts:716-719 | an override for a component that does not exist leaves the documentation unchanged, fails the audit, and is the one entry of the report, still failing |
| Audit.RemoveProcessedComponents | src/overrides.ts:722-748 | the verdict and the remaining tree are `Prune`: every entry of an object or array walked in order, the consumed ones deleted |
| Audit.RemoveEntry | src/overrides.ts:729-743 | one entry is consumed when its subtree is and its `_processed` is undefined or truthy; it is deleted when marked processed with a consumed subtree, otherwise kept, losing its own `_processed` when marked |
| Audit.WithoutProcessed | src/overrides.ts:742 | after `delete item._processed` the entry has no `_processed` |
| AuditFacts.PruneDecides | src/overrides.ts:722-748 | the walk returns true exactly when every value at every depth has `_processed` undefined or truthy (the reference predicate `Consumed`) |
| AuditFacts.PruneChildDecides | src/overrides.ts:729-736 | the walk accepts one entry exactly when its own `_processed` is undefined or truthy and its subtree is consumed |
| AuditFacts.PruneKeepsAbsentKey | src/overrides.ts:738-743 | the walk never introduces a key an object did not have |
| AuditFacts.PruneUntracked | src/overrides.ts:738-743 | a consumed tree comes out with no `_processed` key left anywhere |
| AuditFacts.PruneStale | src/overrides.ts:736-743 | a well-formed tree that is not consumed is still not consumed after the walk: stale entries are not deleted |
| AuditFacts.PruneChildStale | src/overrides.ts:729-743 | a stale entry is kept by the walk and is still stale |
| AuditFacts.PruneKeepsProcessed | src/overrides.ts:728-744 | walking an object's entries never changes what its own `_processed` reads |
| AuditFacts.PruneWellFormed | src/overrides.ts:738-743 | the walk keeps every `_processed` key holding a plain value |
| AuditFacts.AuditVerdict | src/overrides.ts:722-748 | for one group: passes iff consumed; when it passes no bookkeeping is left; when it fails a stale entry is left |
| ReportFacts.TrackedObject | src/overrides.ts:736 | an override record passes the check on itself exactly when its tracking is not `_processed = false`, and its subtree is consumed exactly when its nested overrides are |
| ReportFacts.FieldAudit | src/overrides.ts:728-736 | the walk's verdict on a field override is `FieldDone`: it and every nested field override are settled |
| ReportFacts.FieldPropsAudit | src/overrides.ts:728-736 | a map of field overrides passes exactly when every entry is done, and holds no `_processed` key of its own |
| ReportFacts.TypeAudit | src/overrides.ts:728-736 | a leaf or union type override never fails the audit; a map of field overrides fails exactly when one of its entries is not done |
| ReportFacts.ElementAudit | src/overrides.ts:728-736 | the verdict on a component or event override is `ElementDone` |
| ReportFacts.ElementGroupAudit | src/overrides.ts:722-748 | a group of element overrides is consumed exactly when every entry is done |
| ReportFacts.ReturnAudit | src/overrides.ts:728-736 | the verdict on a return-type override is `ReturnDone` |
| ReportFacts.ReturnItemAudit | src/overrides.ts:728-736 | a return-type selector passes exactly when it and its inner override are settled |
| ReportFacts.MethodAudit | src/overrides.ts:728-736 | the verdict on a method override is `MethodDone`: it, its parameter overrides and its return-type items are settled |
| ReportFacts.MethodItemAudit | src/overrides.ts:728-736 | a method selector passes exactly when it and its inner override are done |
| ReportFacts.MethodValueAudit | src/overrides.ts:732-733 | a single override or a list of overloads under one name passes exactly when all its items are done |
| ReportFacts.MethodItemsAudit | src/overrides.ts:728-736 | a list of overloads passes exactly when every item in it is done |
| ReportFacts.ParametersAudit | src/overrides.ts:728-736 | a method override's `parameters` attribute passes exactly when every parameter override in it is done |
| ReportFacts.ReturnTypesAudit | src/overrides.ts:728-736 | a method override's `returnTypes` attribute passes exactly when every return-type item in it is done |
| ReportFacts.MethodGroupAudit | src/overrides.ts:722-748 | the system-method group is consumed exactly when every item under every name is done |
| ReturnReportFacts.SelectorFlaggedAsWritten | src/overrides.ts:469 | as written, every return-type selector fails the audit, whether or not it found its target |
| ReturnReportFacts.SelectorFlaggedWhenNotFound | src/overrides.ts:486-488 | corrected, a return-type selector fails the audit exactly when no returned type matches its criterion |
| TypePatch.ConvertToObjectType | src/overrides.ts:199-207 | an object type is returned as it is; anything else becomes an object with no fields |
| TypePatch.UnionOf | src/overrides.ts:558-562 | a list of names becomes a union of exactly those leaves, in order |
| TypePatch.OverrideTypeDefinition | src/overrides.ts:553-683 | the result is `OverrideType`: no override or the empty name keeps the type, a name replaces it, a list makes a union, a map patches the fields entry by entry |
| TypePatch.PatchObjectField | src/overrides.ts:571-680 | one entry of the map is `PatchField`, dispatched on its operation |
| TypePatch.AddObjectField | src/overrides.ts:578-614 | an `add` entry is `AddField` |
| TypePatch.ChangeObjectField | src/overrides.ts:627-670 | a `change` entry is `ChangeField` |
| TypePatchFacts.ShorthandOverrides | src/overrides.ts:554-567 | no override returns the type and the override unchanged; a leaf name replaces the type; a list of names yields the union of those leaves; no bookkeeping is gained |
| TypePatchFacts.PatchFieldTracks | src/overrides.ts:572-573 | a field entry keeps its key, changes only its bookkeeping and nested type override, and always has `_processed` and `_issues` defined |
| TypePatchFacts.AddFieldTracks | src/overrides.ts:578-614 | an `add` changes only the bookkeeping and nested type override of its entry, and defines both `_processed` and `_issues` |
| TypePatchFacts.ChangeFieldTracks | src/overrides.ts:627-670 | a `change` changes only the bookkeeping and nested type override of its entry, and defines both `_processed` and `_issues` |
| TypePatchFacts.PatchFieldsTracksEveryEntry | src/overrides.ts:571-680 | every entry of the map is visited and annotated, in order |
| TypePatchFacts.FieldDiscuss | src/overrides.ts:575-576 | `discuss` changes nothing and leaves the entry unprocessed with exactly the discussion issue |
| TypePatchFacts.FieldRemove | src/overrides.ts:616-625 | `remove` of an existing name drops every field of that name and keeps the rest in order; of a missing name changes nothing and records one issue |
| TypePatchFacts.FieldAddRejected | src/overrides.ts:579-589 | an `add` without a description, or whose `name` attribute names an existing field, changes nothing and is unprocessed with one issue per failed check |
| TypePatchFacts.HasFieldExactly | src/overrides.ts:586 | `fields.some(c => c.name === name)` holds exactly when some field has that name |
| TypePatchFacts.FieldAddAppends | src/overrides.ts:591-608 | a valid `add` appends exactly one field, named by the key, typed from "any" and wrapped in an unlabelled array when `isArray` is set |
| TypePatchFacts.FieldAddIgnoresKeyDuplicates | src/overrides.ts:586-596 | the duplicate check reads `override.name`, not the key: an `add` without `name` is appended even when a field with the key's name exists |
| TypePatchFacts.FieldChange | src/overrides.ts:627-670 | `change` edits only the first field of the key's name, attribute by attribute; an array field is patched through its element and re-wrapped with its label unless `isArray` is false; a missing field records one issue |
| TypePatchFacts.FieldUnexpectedOperation | src/overrides.ts:672-679 | an unknown operation records one issue, stays unprocessed, and can change only the type of the first field of the key's name |
| TypePatchFacts.ArrayRoundTripExample | src/overrides.ts:651-667 | a list-of-string field changed to "number" stays an array labelled "list" |
| ElementPatch.OverrideTopLevelElement | src/overrides.ts:213-314 | the result is `OverrideTopLevel`: no override set keeps the list; otherwise the entries are applied in order, each to the list the previous left |
| ElementPatch.PatchTopLevelEntry | src/overrides.ts:217-311 | one entry is `PatchElement`, dispatched on its operation |
| ElementPatch.AddTopLevelEntry | src/overrides.ts:225-253 | an `add` entry is `AddElement` |
| ElementPatch.ChangeTopLevelEntry | src/overrides.ts:264-299 | a `change` entry is `ChangeElement` |
| ElementPatchFacts.NoOverrides | src/overrides.ts:214 | an absent override set returns the list unchanged |
| ElementPatchFacts.PatchElementTracks | src/overrides.ts:219-220 | an element entry keeps its key, changes only its bookkeeping and nested type override, and always has `_processed` and `_issues` defined |
| ElementPatchFacts.AddElementTracks | src/overrides.ts:225-253 | an `add` changes only the bookkeeping and nested type override of its entry, and defines both `_processed` and `_issues` |
| ElementPatchFacts.ChangeElementTracks | src/overrides.ts:264-299 | a `change` changes only the bookkeeping and nested type override of its entry, and defines both `_processed` and `_issues` |
| ElementPatchFacts.PatchElementsTracksEveryEntry | src/overrides.ts:217-311 | every element entry is visited and annotated, in order |
| ElementPatchFacts.ElementDiscuss | src/overrides.ts:222-223 | `discuss` changes nothing and leaves the entry unprocessed with the discussion issue |
| ElementPatchFacts.ElementAddRejected | src/overrides.ts:225-235 | an `add` without a description, or for an existing name, changes nothing and is unprocessed with one issue per failed check |
| ElementPatchFacts.HasElementExactly | src/overrides.ts:232 | `elements.some(c => c.name === name)` holds exactly when some element has that name |
| ElementPatchFacts.ElementAddAppends | src/overrides.ts:237-252 | a valid `add` appends exactly one element typed from "any", wrapped in an unlabelled array when `isArray` is set |
| ElementPatchFacts.ElementRemove | src/overrides.ts:255-262 | `remove` of an existing name drops every element of that name, keeping the rest; of a missing name changes nothing and records an issue quoting `override.name` |
| ElementPatchFacts.ElementChange | src/overrides.ts:264-299 | `change` edits only the first element of the key's name; without `type` its type is kept; an array type is patched through its element and re-wrapped; an untyped element is patched from "any"; a missing name records one issue |
| ElementPatchFacts.ChangedElementAt | src/overrides.ts:269-297 | changing the element found at index i keeps every name, the length and every other element; sets name and description when given; re-types only when a type override is given |
| ElementPatchFacts.ElementUnexpectedOperation | src/overrides.ts:301-310 | an unknown operation records one issue, stays unprocessed, and can only re-type the first element of the key's name, leaving an untyped one untyped |
| ElementPatchFacts.AddThenRemove | src/overrides.ts:225-262 | adding a new element and then removing it gives back the original list, with both entries consumed |
| ReturnPatch.ReturnCarrier | src/overrides.ts:509-519 | the temporary object has exactly one field, named "return", carrying the returned type |
| ReturnPatch.SingleEntryOverride | src/overrides.ts:520-522 | patching the carrier with a one-entry map is one application of the field patcher to its fields |
| ReturnPatch.OverrideReturnType | src/overrides.ts:464-547 | the result is `OverrideReturns`: the `returnTypes` items applied in order, each to the list the previous left |
| ReturnPatch.OverrideReturnItem | src/overrides.ts:467-545 | one item is `ReturnStep`, the corrected step (see Findings) |
| ReturnPatch.ChangeReturnType | src/overrides.ts:492-543 | a `change` of one returned type is `ChangeReturn` |
| ReturnPatchFacts.PlainReturnSkipped | src/overrides.ts:468 | an item without `findByType` is skipped, list and item unchanged |
| ReturnPatchFacts.ReturnNotFound | src/overrides.ts:486-488 | a selector that matches nothing changes nothing, records one issue on itself and leaves its override untouched |
| ReturnPatchFacts.ReturnRemove | src/overrides.ts:489-491 | `remove` drops exactly the first returned type matching the criterion |
| ReturnPatchFacts.ReturnChangeValue | src/overrides.ts:493-498 | `change` sets the description when given and replaces the value, even by undefined, exactly when `isArray` is defined |
| ReturnPatchFacts.ReturnTypeChange | src/overrides.ts:499-539 | a `type` edit that keeps the "return" name is the field patcher's change under two array unwrap rules, the returned type's and the field's |
| ReturnPatchFacts.ReturnTypeRenamed | src/overrides.ts:526-531 | a `type` edit that renames the "return" field leaves the whole one-field carrier object as the returned type |
| ReturnPatchFacts.ReturnOtherOperationIgnored | src/overrides.ts:489-492 | operations other than `remove` and `change` leave the list and the inner override as they were |
| ReturnPatchFacts.SelectorNeverProcessedAsWritten | src/overrides.ts:469 | as written, a return-type selector is left at `_processed = false` whether or not it found its target |
| ReturnPatchFacts.SelectorProcessedWhenFound | src/overrides.ts:486-491 | the corrected step differs from the code as written only in the selector's own flag, which is true exactly when a returned type matches |
| ReturnPatchFacts.ListReturnExample | src/overrides.ts:476-482 | an array return type labelled "list", selected by that label and given "number", stays an array labelled "list" |
| MethodPatch.OverrideMethodElement | src/overrides.ts:320-462 | the result is `OverrideMethods`: the names applied in order, the first throw aborting the run |
| MethodPatch.OverrideMethodItems | src/overrides.ts:327-458 | the items under one name are `MethodItemSteps`, applied in order, each to the list the previous left |
| MethodPatch.ItemsThrowPropagates | src/overrides.ts:362-363 | a throw from one item is the outcome of the whole list of items |
| MethodPatch.EntriesThrowPropagates | src/overrides.ts:448-450 | a throw under one name is the outcome of the whole override set |
| MethodPatch.MatchesSelector | src/overrides.ts:340-346 | the loop over the selector's names decides `SelectorMatch`, the corrected test |
| MethodPatch.SelectCandidates | src/overrides.ts:337-347 | the candidates are exactly the overloads of the name that the selector selects, as increasing indices |
| MethodPatch.FirstCandidate | src/overrides.ts:375 | the first candidate is the overload `find` returns, and there is none exactly when no overload is selected |
| MethodPatch.ApplyMethodItem | src/overrides.ts:328-457 | one item is `MethodItemStep`: a selector targets the first overload it selects, and a plain override the first overload of the name |
| MethodPatch.ApplyToTarget | src/overrides.ts:356-457 | one override applied to its target is `ApplyMethodOverride`, dispatched on its operation |
| MethodPatch.ChangeMethodElement | src/overrides.ts:379-453 | a `change` of one overload is `ChangeMethod` |
| MethodPatch.OverrideParameters | src/overrides.ts:398-444 | the `parameters` entries are `PatchParameters`, applied in order |
| MethodPatch.OverrideParameter | src/overrides.ts:399-442 | one `parameters` entry is `PatchParameter` |
| MethodPatchFacts.AddThrows | src/overrides.ts:362-363 | `add` throws for a plain override, and for a selector exactly when it selects some overload |
| MethodPatchFacts.ReturnIsArrayThrows | src/overrides.ts:448-450 | a `change` that reaches an overload and sets `returnIsArray` throws |
| MethodPatchFacts.RemoveFirstOverload | src/overrides.ts:365-373 | a plain `remove` deletes exactly the first overload of the name, keeping the rest in order; with none it records one issue |
| MethodPatchFacts.TwoItems | src/overrides.ts:327-328 | two items under one name are applied one after the other |
| MethodPatchFacts.TwoRemovesDeleteTwoOverloads | src/overrides.ts:365-373 | two plain removes under one name delete the first two overloads of that name |
| MethodPatchFacts.ChangeSystem | src/overrides.ts:391-396 | a `change` touches only its overload; an invalid `system` is still assigned and recorded as one issue; the override is processed |
| MethodPatchFacts.SelectorWithoutCandidates | src/overrides.ts:349-353 | a selector that selects nothing records one issue on itself, changes nothing and leaves its override untouched |
| MethodPatchFacts.MethodDiscuss | src/overrides.ts:356-360 | `discuss` changes nothing and leaves the override at `_processed = false` with exactly the discussion issue; under a selector that selects an overload the selector itself is consumed |
| MethodPatchFacts.SelectorRemove | src/overrides.ts:331-373 | a `remove` under a selector deletes exactly the first overload it selects, keeping the rest in order, and consumes selector and override; with none selected it changes nothing and records one issue on the selector |
| MethodPatchFacts.SelectorDisambiguates | src/overrides.ts:331-354 | of `move(x, y)` and `move(target)`, the selector ["target"] edits only the second |
| MethodPatchFacts.ParameterOperationIgnored | src/overrides.ts:399-442 | a `parameters` entry's `_operation` is ignored: every entry edits the parameter as a change does, and the list keeps its length |
| MethodPatchFacts.ParameterChange | src/overrides.ts:402-439 | an entry edits only the first parameter of its name; an array parameter without `isArray` keeps its array-ness and label; a missing parameter records one issue |
| MethodPatchFacts.SelectorAsWrittenFrom | src/overrides.ts:340-346 | where the test as written does not throw it agrees with the corrected test; it throws exactly when the selector is longer than the parameters and they all match |
| MethodPatchFacts.SelectorBoundCounterexample | src/overrides.ts:342 | for `move(x)` and the selector ["x", "y"] the test as written throws where the corrected test reports no match |
| Sorting.LessIrreflexive | src/sort.ts:23 | no name sorts before itself |
| Sorting.LessTransitive | src/sort.ts:23 | the name order is transitive |
| Sorting.LessTotal | src/sort.ts:23 | of two different names one sorts before the other |
| Sorting.LessAsymmetric | src/sort.ts:23 | two names never sort before each other |
| Sorting.SortPermutes | src/sort.ts:22-24 | the sorted list is a permutation of the input |
| Sorting.SortSorts | src/sort.ts:22-24 | the sorted list is in non-decreasing name order |
| Sorting.SortStable | src/sort.ts:22-24 | entries sharing a name keep their relative order |
| Sorting.SortKeepsSorted | src/sort.ts:22-24 | a list already in name order is left as it is |
| Sorting.SortIdempotent | src/sort.ts:22-24 | sorting twice is sorting once |
| Sorting.SortByName | src/sort.ts:22-24 | the array ends as `SortByNameSpec` of its old contents |
| Sorting.SortMap | src/sort.ts:26-28 | changing entries without changing their names commutes with the sort |
| Sorting.SortType | src/sort.ts:49-59 | the result is `SortedType` of the input |
| Sorting.SortedTypeShape | src/sort.ts:49-59 | a leaf is unchanged; an array keeps its label; a union keeps its alternatives in place, each sorted; an object's fields are a name-ordered permutation of its fields with sorted types |
| Sorting.SortedTypeDeepSorted | src/sort.ts:49-59 | after sorting, every field list at every depth is in name order |
| Sorting.DeepSortedUnchanged | src/sort.ts:49-59 | a type whose field lists are all in order is left as it is |
| Sorting.SortTypeIdempotent | src/sort.ts:49-59 | sorting a type twice is sorting it once |
| Sorting.SortParameters | src/sort.ts:26-29 | the result is `SortedFields`: the fields in name order, each with its type sorted |
| Sorting.SortFieldTypes | src/sort.ts:28 | each field's type is sorted in place, the order kept |
| Sorting.SortElements | src/sort.ts:31-47 | `sortComponents` and `sortEvents`: the array ends as `SortedElements` of its old contents, in name order with each type sorted |
| Sorting.SortElementTypes | src/sort.ts:33 | each element's type, when present, is sorted in place, the order kept |
| Sorting.SortedElementsPermutes | src/sort.ts:31-34 | the sorted list is in name order and holds exactly the input's entries with their types sorted |
| Sorting.SortedElementsDeep | src/sort.ts:31-34 | every field list of every entry's type is in name order |
| Sorting.SortedElementsIdempotent | src/sort.ts:44-47 | sorting a list of components or events twice is sorting it once |
| Sorting.SortFilters | src/sort.ts:36-42 | filters end as `SortedFilters`: in name order, each filter's options sorted |
| Sorting.SortFilterOptions | src/sort.ts:38-41 | each filter's options, when present, are sorted in place, the order of filters kept |
| Sorting.SortOptions | src/sort.ts:40 | the options end in string order, sorted stably as `sortByName` sorts names |
| Sorting.SortedFiltersFacts | src/sort.ts:36-42 | the filters are in name order, a permutation of the input's filters with options sorted, and every filter's options are in order |
| Sorting.SortedFilterOptions | src/sort.ts:38-41 | sorting a filter keeps its name, whether it has options, and the multiset of its options |
| Types.OrAny | src/overrides.ts:288 | `type \|\| "any"`: the result is never the empty type name, and a defined type other than the empty name is kept |
| Types.FirstIndex | src/overrides.ts:265 | `find` gives the first index satisfying the test, or none when no element does |
| Types.Keep | src/overrides.ts:260 | `filter`: every kept element is drawn from the input and passes the test, every passing element is kept, and the result is no longer than the input |
| Types.RemoveAt | src/overrides.ts:371 | filtering out one object by identity removes exactly that position, keeping the rest in order |

## Left out

- Logging (`verbose`, `console.*`) is left out. So is the text printed at the end of the
  audit (`cleanDeep`, `JSON.stringify`); the model returns the pruned groups instead.
- The default override file loaded at start-up (`applyDefaultOverrides`, the module-level
  `cloneDeep` of `type-overrides.json`) is left out. The override file is a parameter.
- The extraction from the documentation, the command-line entry point and file I/O are
  outside the core and not part of this model.
- The `_comment` attribute is left out: nothing reads it.
- `defaultValue` is kept as text; its JSON value is not modelled.
- Key order of JavaScript objects is modelled as the order of a sequence, with the
  bookkeeping keys `_processed` and `_issues` after the authored ones. Duplicate keys are
  not ruled out.
- Audit.RemoveProcessedComponents: `delete items[name]` on an array leaves a hole at
  that index. The model drops the item; the verdict is the same.
- The auditor's JSON has integers and no floating-point numbers.
- Sorting.Less: JavaScript compares strings by UTF-16 code units. The model compares
  Unicode characters, which orders characters beyond U+FFFF differently.
- Sorting.SortByName: `Array.prototype.sort`'s own algorithm is not modelled. The model
  is a stable insertion sort. Its result is the same for any stable sort with this
  comparator.
- Nested field lists and filter options are sorted in place in the source. The model
  sorts a copy in a fresh array and stores the result back, so aliasing between
  documentation parts is not modelled. The same holds for all patchers: they work on
  values, and object identity is modelled by position.
- Sorting.SortFieldTypes: its ghost `parameters` argument and `requires` are only a
  termination measure (every field is drawn from the list being sorted).
- MethodPatch.SelectorMatchAsWritten: the TypeError's message text is the V8 engine's,
  given as a constant.
- ReturnPatch.OverrideReturnType: the branch for `targetReturnTypes === undefined`
  (`src/overrides.ts:471-474`) cannot be reached, because the list is `cloneDeep(...) || []`.
  The model has no such branch.
- The global version that `checkDocumentationVersion` prints (`overrideList.version`)
  is only logged and is left out.
- EngineFacts.RunVerdict and EngineFacts.GroupsAudit assume `OverridesClean`: no override
  is keyed `_processed`. The auditor could not tell such a key from bookkeeping.
  EngineFacts.TypoReported and the `ReportFacts` audit lemmas assume the same of their
  entries.
- Engine.ApplyOverrides, EngineFacts.RunVerdict: the run is composed from the corrected
  members of "## Findings", `MethodPatch.SelectorMatch` and `ReturnPatch.ReturnStep`. So on
  the inputs named there the modelled run neither throws the TypeError nor fails the audit
  for a return-type selector that found its target, as the code as written does; the
  as-written behaviour is stated only step by step, by the as-written members there.
- Audit.RemoveProcessedComponents: the JSON model has no `null`. No override holds one, and
  on a `null` entry the walk as written would throw reading its `_processed`.

## Findings

| source | as written | input that shows it | evidently intended | confidence | as-written member | corrected member |
|---|---|---|---|---|---|---|
| src/overrides.ts:342 | the bound check `e.parameters.length < i` lets `i == e.parameters.length` through, so `e.parameters[i].name` reads a missing parameter and throws a TypeError | overload `move(x)` with selector `{findByParameters: ["x", "y"]}` | `e.parameters.length <= i`: an overload with fewer parameters than the selector names is not selected | high; not executed | MethodPatch.SelectorMatchAsWritten, MethodPatchFacts.SelectorBoundCounterexample | MethodPatch.SelectorMatch, MethodPatch.MatchesSelector |
| src/overrides.ts:469 | a return-type selector's own `_processed` is set to false and never to true, so the audit flags every return-type selector, even one that found its target | any `returnTypes: [{findByType: "list", override: {...}}]` whose criterion matches a returned type | the selector is marked processed when it finds a target, as a method selector is (`src/overrides.ts:335`) | high; not executed | ReturnPatch.ReturnStepAsWritten, ReturnPatchFacts.SelectorNeverProcessedAsWritten, ReturnReportFacts.SelectorFlaggedAsWritten | ReturnPatch.ReturnStep, ReturnPatchFacts.SelectorProcessedWhenFound, ReturnReportFacts.SelectorFlaggedWhenNotFound |
