# helix-client form engine, in Dafny

This project models the schema-driven form validation engine of
helix-client and proves properties of it. It covers four parts:

- **The condition catalog** (`src/utils/validation.ts`). Each condition maps a value to an optional error message. The three marker conditions (`clearCondition`, `idCondition`, `arrayCondition`) never report; the engine recognises them in a leaf.
- **The schema engine** (`src/utils/schema.js`). A schema is one of three forms:
  - a leaf: a list of conditions;
  - an object: `fields(value)`, which can depend on sibling values, plus an optional `validation`;
  - an array: `member(element)`, `keySelector` and an optional `validation`.

  The engine has five operations:
  - `accumulateErrors` builds an error tree.
  - `accumulateDifferentialErrors` rebuilds the tree after an edit. It reuses the old subtrees of unchanged object fields, and those of unchanged array members matched by key.
  - `accumulateValues` builds the submitted payload and applies the marker policies.
  - `analyzeErrors` decides whether a tree blocks submission.
  - `removeNull` prunes null and undefined values.
- **The form controller** (`src/utils/form.ts`):
  - the reducer over `{ value, error }`;
  - `validate`;
  - the submit handshake of `createSubmitHandler`;
  - the nested-part hooks `useFormObject` and `useFormArray`.
- **The event form's schema** (`src/components/forms/EventForm/index.tsx`). Its field map depends on `eventType`.

Four operations of `schema.js` are modelled twice: `accumulateErrors`, `accumulateDifferentialErrors`, `accumulateValues` and `removeNull`. Each has:
- a specification function (`Errors`, `Diff`, `Values`, `Pruned`);
- a method that computes it the way the source does, recursing through itself with the source's `every`, `forEach` and `map` loops, proved equal to the function.

`analyzeErrors`, whose only loops are `some` searches, is a predicate (`IsErrored`).

The reducer, `validate` and the submit handshake are functions. `useForm`, `useFormObject` and `useFormArray` are classes: their fields are the state each hook keeps, and their methods are the callbacks each hook returns.

The main results:
- **Full accumulation.**
  - A leaf reports the message of the *first* condition that reports, and conditions after it cannot change that.
  - A node's error is absent unless it has `$internal` or a non-empty `fields` or `members` map.
  - The resulting tree blocks submission exactly when it is defined.
- **Differential accumulation.**
  - `DifferentialMatchesFull`: it equals full accumulation of the new value whenever the edit satisfies `Agrees`. `Agrees` means:
    - each schema used to reuse or recurse gives the old value the same error as the schema the old tree was built with;
    - array keys are unique;
    - added array elements are valid.
  - Two concrete counterexamples show that neither condition can be dropped. In the first, a sibling-dependent required field keeps its stale absent error. In the second, an invalid added array member is never looked at.
  - On the event form every edit satisfies `Agrees`. So there the differential pass is always exact. Once the form's error has been computed in full (by a submit), every field edit keeps it in sync with the value.
  - A form does not start in sync unless its initial value is valid, because `useForm` starts with no error. The event form opens holding only its crisis, which is invalid. Editing the crisis still shows no error, while full accumulation reports the missing `name` and `eventType`.
- **Value accumulation.** The marker policies hold at the leaves. Arrays always yield a list. Objects keep exactly the schema-listed fields with a defined value.
- **`removeNull`.** Its output has no null or undefined at any depth. It fixes clean values, and applying it twice is the same as applying it once.
- **The form controller.**
  - The reducer replaces exactly the edited key. Its new value is a fresh object, never `===` to the old one, so the top node is always rebuilt and the form's own validation reruns. An edit that stores a field's current value therefore still drops a message installed with `SET_ERROR`.
  - `validate` and the submit handler clear errors on success. They submit exactly when the value is valid and its payload is defined.
  - The list setters of `useFormArray` follow JavaScript's index assignment and `splice`.

Three details of the code shape what the model states:
- **Leaf errors.** A leaf's `every` loop stops at the first condition that reports (`src/utils/schema.js:109-115`), so the first message wins (`FirstErrorIsFirstReport`).
- **Leaf values.** An absent leaf value is tested with `isNotDefined`, which covers null as well as undefined. Without markers and without `nullable` the input is returned as it came (`src/utils/schema.js:49-60`), so a null input stays null (`AbsentWithoutMarkers`).
- **`nullable` in `validate`.** `validate` passes `{ noFalsyValues, falsyValue }` (`src/utils/form.ts:98`). `accumulateValues` reads only `nullable` from its settings, the other two being commented out (`src/utils/schema.js:23-29`), so `nullable` is always false there (`Validated`).

## Model

| member | source | states |
|---|---|---|
| Validation.RequiredCondition | src/utils/validation.ts:6-18 | reports 'The field is required' exactly when the value is undefined or null |
| JsValue.IsDefined | src/utils/validation.ts:6-8 | `isDefined`: neither undefined nor null (a predicate; its consequences are stated by the condition rows) |
| Validation.RequiredListCondition | src/utils/validation.ts:20-24 | reports exactly when the value is undefined, null, or has length 0 (the empty string or the empty list) |
| Validation.Trim | src/utils/validation.ts:10-12 | `trim()` gives the empty string exactly when every character is ECMAScript white space |
| Validation.IsDefinedString | src/utils/validation.ts:10-12 | `isDefinedString`: defined and not blank after `trim()` (a predicate; `RequiredStringCondition` states its meaning) |
| Validation.TrimBothEmptyIffBlank | src/utils/validation.ts:10-12 | trimming both ends leaves nothing exactly when the string is blank |
| Validation.TrimStartEmptyIffBlank | src/utils/validation.ts:10-12 | trimming the start leaves nothing exactly when the string is blank |
| Validation.TrimEndEmptyOnlyIfBlank | src/utils/validation.ts:10-12 | trimming the end leaves nothing only when the string is blank |
| Validation.TrimStart | src/utils/validation.ts:11 | the result is a suffix of the input that does not start with white space |
| Validation.TrimEnd | src/utils/validation.ts:11 | the result is a prefix of the input that does not end with white space |
| Validation.RequiredStringCondition | src/utils/validation.ts:10-30 | reports exactly when the value is undefined, null or a blank string |
| Validation.BlacklistCondition | src/utils/validation.ts:32-38 | reports `cannot be value` exactly when the value is defined and in the list |
| Validation.WhitelistCondition | src/utils/validation.ts:40-46 | reports exactly when the value is defined and not in the list |
| Validation.LengthGreaterThanCondition | src/utils/validation.ts:48-54 | reports exactly when the value is a string of at most x UTF-16 code units or a list of at most x elements |
| Validation.LengthSmallerThanCondition | src/utils/validation.ts:55-62 | reports exactly when the value is a string of more than x UTF-16 code units or a list of more than x elements |
| Validation.AstralCharLength | src/utils/validation.ts:48-62 | an emoji is two code units: with bound 1 it is not too short but is too long |
| Validation.GreaterThanCondition | src/utils/validation.ts:64-70 | on a number reports exactly when it is at most x; never on undefined or null |
| Validation.SmallerThanCondition | src/utils/validation.ts:71-77 | on a number reports exactly when it exceeds x; never on undefined or null |
| Validation.EmailCondition | src/utils/validation.ts:79-83 | on a string reports exactly when it is non-blank and fails the email predicate; never on undefined or null |
| Validation.UrlCondition | src/utils/validation.ts:85-89 | on a string reports exactly when it is non-blank and fails the url predicate; never on undefined or null |
| Validation.Check | src/utils/validation.ts:93-107 | the three marker conditions never report; every reported message is truthy; on undefined or null only 'The field is required' can be reported |
| JsValue.Get | src/utils/schema.js:143 | `obj?.[key]` is the property when the value is an object holding that key, and undefined otherwise |
| JsValue.Items | src/utils/schema.js:127 | `obj?.forEach` visits the elements of a list and nothing otherwise |
| JsValue.Props | src/utils/form.ts:43-46 | the properties an object spread copies from an object: its own; from any other value none (see Left out for lists and strings) |
| JsValue.Length | src/utils/validation.ts:50 | `length` is defined (and non-negative) exactly for strings and lists, and is 0 exactly for `''` and `[]` |
| JsValue.Utf16Length | src/utils/validation.ts:50 | a string's `length` counts UTF-16 code units: at least one and at most two per character, 0 only for `''` |
| JsValue.Utf16LengthOfBmp | src/utils/validation.ts:50 | inside the Basic Multilingual Plane the length is the number of characters |
| JsValue.AstralCharCountsTwice | src/utils/validation.ts:50 | a character outside the Basic Multilingual Plane counts as two |
| JsValue.IsFalsy | src/utils/schema.js:14-20 | `isFalsy`: undefined, null, false, 0 and `''` (a predicate used by `hasNoKeys` and `hasNoValues`) |
| Schemas.Internal | src/utils/schema.js:119-125 | `$internal` is set only to a truthy message, and is set whenever the validation returns one |
| Schemas.Assemble | src/utils/schema.js:131-138 | a node is undefined exactly when it has no `$internal` and no entries |
| Schemas.AssembleCanonical | src/utils/schema.js:119-152 | assembling truthy parts never yields an empty map or an empty node |
| ErrorAccumulation.FirstErrorFrom | src/utils/schema.js:107-117 | any message the leaf's `every` loop keeps is truthy |
| ErrorAccumulation.FirstError | src/utils/schema.js:107-117 | the leaf error: the `every` loop from the first condition; characterised by `FirstErrorIsFirstReport` |
| ErrorAccumulation.FirstErrorIsFirstReport | src/utils/schema.js:107-117 | the leaf error is absent exactly when no condition reports, and otherwise is the message of a reporting condition all of whose predecessors pass |
| ErrorAccumulation.FirstErrorIgnoresLaterConditions | src/utils/schema.js:109-115 | conditions appended after the first reporting one never change the leaf's error |
| ErrorAccumulation.LeafError | src/utils/schema.js:107-117 | the `every` loop that stops at the first message yields the first reporting condition's message |
| ErrorAccumulation.Errors | src/utils/schema.js:96-156 | the tree has the accumulators' shape (no empty maps, truthy messages); a leaf errs exactly when some condition reports; object and array nodes carry the recomputed `$internal`, object `fields` keys lie within `fields(obj)`; an invalid schema gives undefined |
| ErrorAccumulation.FieldErrors | src/utils/schema.js:140-151 | `errors.fields` keys are a subset of `fields(obj)` keys, each entry well-shaped |
| ErrorAccumulation.MemberErrors | src/utils/schema.js:126-138 | every `members` key is the key of some element, each entry well-shaped |
| ErrorAccumulation.MemberErrorsByKey | src/utils/schema.js:126-138 | with unique keys, `members` holds exactly the elements with an error, each under its key with its own error |
| ErrorAccumulation.MemberErrorAt | src/utils/schema.js:126-138 | the same for one element, by induction over the `forEach` |
| ErrorAccumulation.ObjectValidIff | src/utils/schema.js:119-151 | an object is valid exactly when its validation passes and every field is valid |
| ErrorAccumulation.ArrayValidIff | src/utils/schema.js:119-138 | an array is valid exactly when its validation passes and every element is valid |
| ErrorAccumulation.MembersEmptyIffValid | src/utils/schema.js:127-137 | no member entry is created exactly when every element is valid |
| ErrorAccumulation.AccumulateErrors | src/utils/schema.js:96-156 | the method computes `Errors` |
| ErrorAccumulation.AccumulateFieldErrors | src/utils/schema.js:141-150 | the `forEach` over the field names fills `errors.fields` as `FieldErrors` |
| ErrorAccumulation.AccumulateMemberErrors | src/utils/schema.js:127-137 | the `forEach` over the elements fills `errors.members` as `MemberErrors` |
| ErrorAnalysis.CanonicalIsErrored | src/utils/schema.js:266-310 | every tree of the accumulators' shape is errored |
| ErrorAnalysis.IsErrored | src/utils/schema.js:266-310 | `analyzeErrors` of a defined tree: a truthy `$internal`, else some errored child of `fields` (checked first, an empty map not errored), else of `members`; its properties are stated by `CanonicalIsErrored` and `EmptyFieldsShadowMembers` |
| ErrorAnalysis.AnalyzeErrors | src/utils/schema.js:266-270 | `analyzeErrors(undefined)` is false; on accumulated trees errored iff defined (`ErroredIffDefined`) |
| ErrorAnalysis.ErroredIffDefined | src/utils/schema.js:266-310 | `analyzeErrors(accumulateErrors(v))` is true exactly when the accumulated error is defined |
| ErrorAnalysis.EmptyFieldsShadowMembers | src/utils/schema.js:274-298 | an empty `fields` map is not errored even when `members` has errors (fields are looked at first); an empty `members` map or an empty string is not errored |
| ListDifference.FindByKey | src/utils/schema.js:199-202 | the element a key identifies in the old list carries that key; none exactly when no element does |
| ListDifference.FindByKeyUnique | src/utils/schema.js:199-202 | with unique keys an element's own key identifies it |
| ListDifference.Unmodified | src/utils/schema.js:199-202 | `unmodified`: exactly the new elements found in the old list with an equal value |
| ListDifference.Modified | src/utils/schema.js:199-202 | `modified`: exactly the new elements found with a different value, each paired with the old one |
| ListDifference.Added | src/utils/schema.js:199-202 | `added`: exactly the new elements whose key the old list lacks |
| DifferentialErrors.Diff | src/utils/schema.js:164-166 | identical old and new values return the old error unchanged |
| DifferentialErrors.Rebuild | src/utils/schema.js:167-260 | past the identity test a leaf is recomputed in full, and an object or array node carries the validation rerun on the new value, present whenever that reports |
| DifferentialErrors.DiffField | src/utils/schema.js:236-257 | one field: the old subtree copied when the value is unchanged, else rebuilt; characterised by `DiffObjectValid` and `DiffFieldErrorsMatchFull` |
| DifferentialErrors.MembersFrom | src/utils/schema.js:198-231 | the array branch: reused, then recomputed members; characterised by `DiffMembersMatchFull` |
| DifferentialErrors.ReusedMembers | src/utils/schema.js:204-212 | the `unmodified.forEach` loop; characterised by `ReusedMembersByKey` |
| DifferentialErrors.ModifiedMembers | src/utils/schema.js:214-229 | the `modified.forEach` loop; characterised by `ModifiedMembersByKey` and `ModifiedMembersOutside` |
| DifferentialErrors.DiffFieldErrors | src/utils/schema.js:233-259 | the rebuilt `fields` keys lie within `fields(newObj)` |
| DifferentialErrors.DiffObjectValid | src/utils/schema.js:233-259 | after an edit an object is valid exactly when its validation passes on the new value and no field's differential error is present |
| DifferentialErrors.ReusedMembersByKey | src/utils/schema.js:204-212 | the first loop stores, under each unmodified element's key, exactly its old present subtree |
| DifferentialErrors.DiffKeepsCanonical | src/utils/schema.js:158-264 | started from a well-shaped old error, the result is well-shaped (no empty maps, truthy messages), so by `CanonicalIsErrored` it blocks submission whenever it is defined |
| DifferentialErrors.DiffObjectKeepsCanonical | src/utils/schema.js:233-259 | the same for an object node |
| DifferentialErrors.DiffArrayKeepsCanonical | src/utils/schema.js:198-231 | the same for an array node |
| DifferentialErrors.DiffFieldErrorsKeepCanonical | src/utils/schema.js:235-258 | every copied or recomputed field error is well-shaped |
| DifferentialErrors.MembersFromKeepCanonical | src/utils/schema.js:204-229 | every reused or recomputed member error is well-shaped |
| DifferentialErrors.ModifiedMembersKeepCanonical | src/utils/schema.js:214-229 | the second loop keeps the members map well-shaped |
| DifferentialErrors.DifferentialMatchesFull | src/utils/schema.js:158-264 | when the edit satisfies `Agrees`, differential accumulation from the full old error equals full accumulation of the new value |
| DifferentialErrors.RebuildUnchanged | src/utils/schema.js:167-260 | rebuilding the node of an unchanged non-list value from its full error gives that error again |
| DifferentialErrors.UnchangedFieldsCopied | src/utils/schema.js:235-244 | with nothing changed, copying every field's old subtree gives the full `fields` |
| DifferentialErrors.RebuildLeafIsFull | src/utils/schema.js:178-188 | past the identity test a leaf is recomputed in full, whatever the old value and error |
| DifferentialErrors.RebuildMatchesFull | src/utils/schema.js:167-260 | rebuilding the top node from the full old error gives the full new error, under `Agrees`, for a non-list new value |
| DifferentialErrors.DiffFieldErrorsMatchFull | src/utils/schema.js:233-259 | the object case: copying unchanged fields' errors and recomputing the others gives the full `fields` |
| DifferentialErrors.ChildFieldOfErrors | src/utils/schema.js:237 | `oldError?.fields?.[k]` of a full error is the field's full error |
| DifferentialErrors.ChildMemberOfErrors | src/utils/schema.js:206 | `oldError?.members?.[key]` of a full error with unique keys is that element's full error |
| DifferentialErrors.DiffMembersMatchFull | src/utils/schema.js:198-231 | the array case: reused and recomputed members give the full `members` |
| DifferentialErrors.SameKeySameElement | src/utils/schema.js:205 | with unique keys two elements with the same key are the same element |
| DifferentialErrors.ModifiedKeysUnique | src/utils/schema.js:214-216 | with unique new keys no two modified elements share a key |
| DifferentialErrors.ModifiedMembersOutside | src/utils/schema.js:214-229 | the second loop leaves keys of no modified element as the first loop left them |
| DifferentialErrors.ModifiedMembersByKey | src/utils/schema.js:214-229 | the second loop stores each modified element's recomputed error, when present, under its key |
| DifferentialErrors.ReusedMemberMatchesFull | src/utils/schema.js:204-212 | an unmodified element's reused subtree is its full error |
| DifferentialErrors.ReusedExcludesModified | src/utils/schema.js:204-229 | an unmodified element's key is not a modified element's key |
| DifferentialErrors.ModifiedMemberMatchesFull | src/utils/schema.js:214-229 | a modified element's recomputed subtree is its full error |
| DifferentialErrors.UnmatchedKeyMatchesFull | src/utils/schema.js:198-231 | a key of no new element, or of an added valid element, is absent from both results |
| DifferentialErrors.ModifiedSubtreeIsFull | src/utils/schema.js:217-222 | the recursive call on a modified element returns its full error |
| DifferentialErrors.UniqueKeysTail | src/utils/schema.js:214 | dropping the first element keeps keys unique |
| DifferentialErrors.UniqueCurrentKeysCons | src/utils/schema.js:214 | a modification whose key is new keeps modification keys unique |
| DifferentialErrors.ToggleBefore | src/utils/schema.js:140-151 | with `type` "B" the toggle schema gives no error |
| DifferentialErrors.ToggleAfter | src/utils/schema.js:140-151 | with `type` "A" the absent `b` is required: an error |
| DifferentialErrors.ToggleDifferential | src/utils/schema.js:236-243 | the differential pass over that edit copies `b`'s old absent error: no error |
| DifferentialErrors.DifferentialMissesSiblingDependentError | src/utils/schema.js:236-243 | a field that becomes required because a sibling changed, but did not change itself, keeps its stale absent error, so differential and full accumulation differ |
| DifferentialErrors.DifferentialSkipsAddedMembers | src/utils/schema.js:199-229 | an invalid element added to a list is never looked at: the differential result is valid while full accumulation is not |
| DifferentialErrors.AccumulateDifferentialErrors | src/utils/schema.js:158-264 | the method computes `Diff` |
| DifferentialErrors.RebuildErrors | src/utils/schema.js:167-260 | the method computes `Rebuild` |
| DifferentialErrors.AccumulateDiffFieldErrors | src/utils/schema.js:234-258 | the `forEach` over `fields(newObj)` fills `errors.fields` as `DiffFieldErrors` |
| DifferentialErrors.DiffFieldErrorsPointwise | src/utils/schema.js:234-258 | a map holding exactly the present field errors is `errors.fields` |
| DifferentialErrors.AccumulateDiffField | src/utils/schema.js:236-257 | the callback copies the old field error when the value is unchanged and recurses otherwise |
| DifferentialErrors.AccumulateDiffMembers | src/utils/schema.js:198-230 | the two loops fill `errors.members` as `MembersFrom` |
| DifferentialErrors.ReuseMemberErrors | src/utils/schema.js:204-212 | the `unmodified.forEach` loop |
| DifferentialErrors.RecomputeMemberErrors | src/utils/schema.js:214-229 | the `modified.forEach` loop |
| ValueAccumulation.LeafValue | src/utils/schema.js:41-61 | a leaf yields its input, undefined, null or `[]`, nothing else |
| ValueAccumulation.Values | src/utils/schema.js:22-94 | an array schema always yields a list, an object schema an object or the null/undefined `nullable` picks, an invalid schema undefined |
| ValueAccumulation.MemberValues | src/utils/schema.js:64-69 | one accumulated value per element |
| ValueAccumulation.FieldValues | src/utils/schema.js:78-85 | only schema-listed fields, none of them undefined |
| ValueAccumulation.HasNoKeys | src/utils/schema.js:14-16 | `hasNoKeys` of the accumulated object (never falsy): no keys; its use is stated by `ObjectValues` |
| ValueAccumulation.HasNoValues | src/utils/schema.js:18-20 | `hasNoValues` of the accumulated array: empty or every element falsy; computed by `NoValues` |
| ValueAccumulation.ClearDiscardsInput | src/utils/schema.js:42-47 | `clearCondition` gives `[]` with `arrayCondition`, else null, whatever the input |
| ValueAccumulation.DefinedPassesThrough | src/utils/schema.js:41-61 | a defined input of an uncleared leaf is returned unchanged |
| ValueAccumulation.IdNeverNull | src/utils/schema.js:49-52 | an uncleared id leaf never yields null: an absent id stays undefined |
| ValueAccumulation.AbsentArrayIsEmpty | src/utils/schema.js:49-56 | an absent input with `arrayCondition` and no id yields `[]` |
| ValueAccumulation.AbsentWithoutMarkers | src/utils/schema.js:49-60 | an absent input without markers yields null when nullable, else the input as it came (null stays null) |
| ValueAccumulation.ArrayValues | src/utils/schema.js:62-75 | an array position always yields a list; `[]` exactly when every accumulated element is falsy (or the input is absent), else the accumulated elements in order |
| ValueAccumulation.ObjectValues | src/utils/schema.js:76-90 | an object keeps exactly the schema-listed fields whose value is not undefined; with none left it yields null when nullable, else undefined |
| ValueAccumulation.NoFieldsSendsNothing | src/utils/schema.js:86-88 | an object schema without fields yields null or undefined |
| ValueAccumulation.AccumulateValues | src/utils/schema.js:22-94 | the method computes `Values` |
| ValueAccumulation.NoValues | src/utils/schema.js:18-20 | `hasNoValues` of an array: empty or every element falsy |
| ValueAccumulation.AccumulateMemberValues | src/utils/schema.js:64-69 | the `forEach` pushes one accumulated value per element, in order |
| ValueAccumulation.AccumulateFieldValues | src/utils/schema.js:79-85 | the `forEach` stores every field value that is not undefined |
| NullRemoval.DefinedOnly | src/utils/schema.js:317 | `filter(isDefined)` keeps exactly the defined elements and is no longer than its input |
| NullRemoval.Pruned | src/utils/schema.js:312-335 | a pruned list is no longer than the input list |
| NullRemoval.PrunedUndefinedIff | src/utils/schema.js:313-315 | the result is never null, and is undefined exactly for null and undefined inputs |
| NullRemoval.PrimitivesUnchanged | src/utils/schema.js:334 | booleans, numbers and strings are returned unchanged |
| NullRemoval.PrunedIsClean | src/utils/schema.js:312-335 | the result has no null or undefined at any depth |
| NullRemoval.CleanIsFixed | src/utils/schema.js:312-335 | a value without null or undefined is returned as it is |
| NullRemoval.AllDefinedKept | src/utils/schema.js:317 | filtering a list of defined elements keeps it |
| NullRemoval.PruneIdempotent | src/utils/schema.js:312-335 | removing nulls twice is removing them once |
| NullRemoval.RemoveNull | src/utils/schema.js:312-335 | the method, recursing on list elements and object entries, computes `Pruned` |
| NullRemoval.PruneProps | src/utils/schema.js:320-332 | the `forEach` that reassigns `newData` keeps exactly the keys with a defined pruned value |
| NullRemoval.PruneItems | src/utils/schema.js:317 | `data.map(removeNull)`: each element pruned, in order |
| Forms.SetField | src/utils/form.ts:43-46 | `{...v, [key]: x}` holds x under key, every other key as before, and the old keys plus key |
| Forms.InitialState | src/utils/form.ts:71-74 | the initial state is the given value with no error |
| Forms.InitialStateInSyncIff | src/utils/form.ts:71-74 | a form starts with its error in sync with its value exactly when the initial value is valid |
| Forms.Reduce | src/utils/form.ts:34-69 | only `SET_VALUE_FIELD` changes the value; `SET_ERROR` installs the given error; an unsupported action returns the prior state |
| Forms.SetValueFieldUpdates | src/utils/form.ts:38-59 | `SET_VALUE_FIELD` replaces exactly the key; the error is the differential pass with the top node rebuilt, whose `$internal` is the validation rerun on the new value |
| Forms.NoOpEditDropsServerError | src/utils/form.ts:43-58 | storing a field's current value still rebuilds the top node and drops a whole-form message installed by `SET_ERROR` |
| Forms.OtherActionsKeepValue | src/utils/form.ts:60-68 | `SET_ERROR` replaces the error only; an unsupported action returns the prior state |
| Forms.SetValueFieldKeepsSync | src/utils/form.ts:38-59 | a field edit satisfying `Agrees` keeps the error equal to full accumulation of the value |
| Forms.Validated | src/utils/form.ts:88-103 | errored exactly when full accumulation is defined; then that error and no value, else no error and the non-nullable accumulated values |
| Forms.SubmitValidated | src/utils/form.ts:190-205 | `setError` always receives the full error (success clears it); the callback runs exactly when the form is valid and its payload defined, with that payload |
| Forms.Submit | src/utils/form.ts:199-203 | `setError` receives the validator's error; the callback runs exactly when not errored and the value is defined, with that value |
| Forms.SubmitRestoresSync | src/utils/form.ts:199-200 | installing the error a submit hands to `setError` puts any state in sync |
| Forms.EmptyValidObjectNotSubmitted | src/utils/form.ts:199-203 | a valid object form none of whose fields yields a value clears its errors but is not submitted |
| Forms.Form.constructor | src/utils/form.ts:71-74 | `useForm` starts from the initial value with no error |
| Forms.Form.Dispatch | src/utils/form.ts:34-69 | dispatching applies the reducer to the state |
| Forms.Form.OnValueChange | src/utils/form.ts:76-86 | `onValueChange(value, key)` dispatches `SET_VALUE_FIELD`, and keeps the error in sync when the edit satisfies `Agrees` |
| Forms.Form.OnErrorSet | src/utils/form.ts:105-114 | `onErrorSet` replaces the error only |
| Forms.Form.Validate | src/utils/form.ts:88-103 | the callback, branching on `analyzeErrors` as the source does, computes `Validated` on the current value |
| Forms.Form.HandleSubmit | src/utils/form.ts:195-204 | a submit installs the full error, which puts the form in sync, and hands the callback what the submit handshake decides |
| Forms.FormObject.constructor | src/utils/form.ts:131 | the cell starts with the value |
| Forms.FormObject.Sync | src/utils/form.ts:143-148 | the layout effect sets the cell to the latest value |
| Forms.FormObject.OnValueChange | src/utils/form.ts:132-141 | forwards the cell's object with only `key` replaced, under the object's name |
| Forms.SpliceStart | src/utils/form.ts:175 | `splice` starts within the list |
| Forms.SetIndex | src/utils/form.ts:161-164 | `newValue[index] = val` on a copy; stated by `SetIndexChangesOneElement` |
| Forms.Splice | src/utils/form.ts:172-175 | `newValue.splice(index, 1)` on a copy; stated by `SpliceRemovesOne` and `SpliceFromEnd` |
| Forms.SetIndexChangesOneElement | src/utils/form.ts:164 | in range, exactly that element changes and the length is kept; past the end the list grows with undefined holes; a negative index changes nothing |
| Forms.SpliceRemovesOne | src/utils/form.ts:175 | an in-range index removes exactly one element, keeping the prefix and shifting the suffix |
| Forms.SpliceFromEnd | src/utils/form.ts:175 | a negative index counts from the end (clamped to the first element); an index past the end removes nothing |
| Forms.SetThenRemove | src/utils/form.ts:159-179 | setting an in-range element and then removing it is the same as removing it |
| Forms.FormArray.constructor | src/utils/form.ts:158 | the cell starts with the list |
| Forms.FormArray.Sync | src/utils/form.ts:181-186 | the layout effect sets the cell to the latest list |
| Forms.FormArray.OnValueChange | src/utils/form.ts:159-168 | forwards a copy of the cell with the element set, under the list's name |
| Forms.FormArray.OnValueRemove | src/utils/form.ts:170-179 | forwards a copy of the cell with one element spliced out, under the list's name |
| EventForm.Lifted | src/components/forms/EventForm/index.tsx:229-249 | the event type lifts only sub-type fields |
| EventForm.FieldConditions | src/components/forms/EventForm/index.tsx:211-250 | the conditions of one field for an event type; stated by `FixedFields` and `SubTypeFieldsByEventType` |
| EventForm.EventFields | src/components/forms/EventForm/index.tsx:210-251 | `schema.fields(value)`; stated by `SameFieldsInEveryBranch` |
| EventForm.EventSchema | src/components/forms/EventForm/index.tsx:209-252 | the event schema is a well-formed object schema |
| EventForm.SameFieldsInEveryBranch | src/components/forms/EventForm/index.tsx:210-251 | every branch has the same fifteen field names |
| EventForm.FixedFields | src/components/forms/EventForm/index.tsx:211-221 | `id` is `[idCondition]`, `countries` `[requiredCondition]`, `eventType` and `name` `[requiredStringCondition]`, the other fixed fields `[]` |
| EventForm.SubTypeFieldsByEventType | src/components/forms/EventForm/index.tsx:222-250 | a sub-type field is `[]` when lifted and `[clearCondition]` otherwise |
| EventForm.LiftedByEventType | src/components/forms/EventForm/index.tsx:229-250 | CONFLICT lifts the four violence fields and not disaster or other; DISASTER and OTHER lift their one field; any other type lifts none |
| EventForm.FieldErrorsIgnoreEventType | src/components/forms/EventForm/index.tsx:222-249 | a field's conditions give every value the same error whatever the event type; sub-type fields never report |
| EventForm.EveryEditAgrees | src/components/forms/EventForm/index.tsx:209-252 | every edit of an event form satisfies `Agrees` |
| EventForm.DifferentialIsExact | src/components/forms/EventForm/index.tsx:209-252 | on the event form differential accumulation always equals full accumulation |
| EventForm.EditsStayInSync | src/components/forms/EventForm/index.tsx:209-252 | every field edit of the event form keeps its error in sync with its value |
| EventForm.OnlyCrisisIsInvalid | src/components/forms/EventForm/index.tsx:211-218 | a value holding only its crisis lacks the required `name`: an error |
| EventForm.FreshFormHidesRequiredErrors | src/components/forms/EventForm/index.tsx:315-326 | the form as opened (only its crisis, no error) is not in sync, and after editing the crisis it still shows no error while full accumulation reports one |
| EventForm.InactiveSubTypeSubmittedAsNull | src/components/forms/EventForm/index.tsx:222-250 | a sub-type field the event type does not lift is submitted as null |
| EventForm.ActiveSubTypeSubmittedAsHeld | src/components/forms/EventForm/index.tsx:229-249 | a lifted sub-type field is submitted as held when defined |

## Left out

- React machinery is not modelled:
  - `useReducer`, `useCallback` memoisation, re-renders;
  - the timing of `useLayoutEffect`, which is a `Sync` method called explicitly;
  - `event.preventDefault()` and `event.stopPropagation()`.
- Callbacks the hooks receive (`onChange`, the submit `callback`) are not called. Each method returns the arguments it would call them with.
- `console.error` on an invalid schema or an unsupported action is dropped. The result is modelled as it is returned.
- `===` is modelled as value equality below the top of the form. The model does not capture JavaScript's reference identity of nested objects: a field given a new object equal to its old one is copied here, where JavaScript would rebuild it. The top-level value the reducer builds is always a new object, and the reducer skips the identity test there (`Rebuild`).
- Numbers are integers: no floating point and no NaN. Messages are constructors rather than interpolated strings.
- JavaScript exceptions are not modelled. Each case is modelled as follows:
  - `forEach` on a value that is not a list visits no elements;
  - `trim()` on a defined non-string counts it as non-blank;
  - `value.eventType` on an undefined form value reads undefined.
- `findDifferenceInList` of `@togglecorp/fujs` is not part of this model. It is modelled as looking up each new element's key in the old list, where the last old element with that key is the match:
  - an equal value is unmodified;
  - a different value is modified;
  - a missing key is added, and the accumulator ignores added elements.
- `isValidEmail` and `isValidUrl` are not part of this model. They are predicates each `Email`/`Url` condition carries.
- The error-tree datatype has no arrays of strings. `analyzeErrors` truth-tests such children, and they are not represented.
- JsValue.Props: spreading a list or a string into an object, which gives index keys, is not modelled; every non-object spreads to no properties. The form types keep the value spread in `formReducer` and `useFormObject` an object.
- Forms.SetField: inherits that gap from `Props`.
- Schemas whose nesting has no bound (a schema that returns itself for a child) are not modelled: every schema carries a finite depth, while JavaScript handles such a schema on any finite value.
- `transformToFormError`, `notify`, the GraphQL mutations and all rendering are not part of this model.
- Whole-form values are modelled as `Value`. The TypeScript types of the forms are not modelled.
- GreaterThanCondition: stated for numbers and absent values only. Booleans compare as 0 and 1, and strings never report, where JavaScript would coerce them.
- SmallerThanCondition: stated for numbers and absent values only, for the same reason.
- EmailCondition: stated for strings and absent values. A defined non-string runs the predicate, where JavaScript would throw on `trim()`.
- UrlCondition: stated for strings and absent values, for the same reason.
- DifferentialMatchesFull: proved under `Agrees` (schemas that agree on the old values, unique keys, valid added elements) rather than unconditionally. DifferentialMissesSiblingDependentError and DifferentialSkipsAddedMembers show that the source does not give it otherwise.
- ErrorAccumulation.MemberErrorsByKey: stated for unique keys. With duplicate keys, later elements overwrite earlier ones, which `MemberErrors` models but no lemma characterises.
