# Modify Headers: a verified model of the rule compiler and the profile list

Modify Headers is a browser extension. The user keeps a list of *profiles*. Each
profile has a URL pattern and an ordered list of header actions (add, modify or delete
a request header). The background worker compiles the enabled profiles into
declarativeNetRequest *dynamic rules* and has the browser swap them in. The popup
creates, edits, toggles, clones, deletes, imports, exports and lists the profiles.

This project models both halves in Dafny and proves what they promise.

- `UrlFilter` (url_filter.dfy): `convertToUrlFilter`. It is the five-case chain that
  turns a typed pattern into a `urlFilter`.
- `RuleCompiler` (rule_compiler.dfy): `generateRulesForProfile`. The grouping loop is
  a method proved against `RequestHeaderMods`, the add/modify/delete grouping of the
  kept headers. The id-threading fold of `updateRules` is `CompileRules`.
- `RuleSync` (rule_sync.dfy): `updateRules`. The class `DynamicRules` holds the
  installed rule set. Its method `UpdateRules` runs the source's loop, which threads
  `ruleId`, and issues one full-replace update.
- `ProfileForm` (profile_form.dfy): the checks `saveProfile` runs on the form. This
  includes the header-collecting loop with its early exits.
- `ProfileStore` (profile_store.dfy): the class `ProfileList`. It holds
  `currentProfiles`, with one method per popup operation that changes it. Each method
  is proved equal to a function on the old list, and the frame lemmas about those
  functions state what changes and what stays.
- `ImportExport` (import_export.dfy): import-file validation, selection by position
  on import, selection by id on export, and the export/import round trip.
- `DisplayOrder` (display_order.dfy): the "enabled first" stable sort of
  `renderProfiles`.
- `Profiles`, `Text`, `Seqs`, `Results`: the stored data, and the JavaScript string
  operations used (`trim`, `toLowerCase`, `startsWith`).
- The rest of the support: generic `filter`/`map` with their lemmas, and a
  numbering fold.

Conventions of the model:

- An absent string field (`name`, `value`, `urlPattern`) is the empty string, since
  both are falsy to the source.
- The header action is a datatype: `Add`, `Modify`, `Delete`, or `Other(text)` for
  any other string an imported file may carry. The type of `text` excludes the three
  known action strings.
- `generateId()`, `Date.now()` and the export date are parameters.
- The user's answers (the delete confirmation, the ticked checkboxes) are
  parameters. So are the form's field values and the browser's acceptance of a rule
  update.

## Model

| member | source | states |
|---|---|---|
| UrlFilter.ConvertToUrlFilter | background.js:138-158 | the filter is never empty and is always in filter syntax (has a `*` or starts with the domain anchor); a pattern already in filter syntax is returned unchanged |
| UrlFilter.UrlFilterIdempotent | background.js:142-144 | translating a translated pattern changes nothing more |
| UrlFilter.UrlFilterKeepsPattern | background.js:139-157 | the typed pattern occurs intact inside the filter in every case |
| UrlFilter.UrlFilterDomainExample | background.js:147-149 | a bare domain `a.io` becomes `*://*.a.io/*` |
| UrlFilter.UrlFilterUrlExample | background.js:152-154 | a full URL with a scheme becomes a prefix match, with `*` appended |
| UrlFilter.UrlFilterPathExample | background.js:156-157 | a path without a scheme becomes `*://*` + pattern + `*` |
| UrlFilter.UrlFilterPassThroughExample | background.js:142-143 | a pattern holding `*` is returned unchanged even though it has a scheme |
| Profiles.ParseAction | background.js:74-95 | `add`, `modify` and `delete` map to their actions and only they do; any other string is kept verbatim as an unknown action, which by its type is never one of the three |
| Profiles.FindIndex | popup.js:321 | the position of the first profile with the id, or -1 exactly when no profile has it |
| Text.TrimBlank | popup.js:272-285 | a trimmed field is empty exactly when the raw field is all whitespace; a non-empty trimmed field starts and ends with a non-space |
| Text.TrimKeepsInner | popup.js:272-285 | trimming returns a contiguous slice of the field with only whitespace before and after it |
| Text.TrimIdempotent | popup.js:272-273 | trimming a trimmed string changes nothing |
| Text.ToLowerChars | background.js:77 | a lower-cased name has no upper-case ASCII letter, and only those letters changed |
| Text.ToLowerIdempotent | background.js:77 | lower-casing a lower-cased name changes nothing |
| RuleCompiler.GroupHeaders | background.js:67-96 | the loop's three groups are the translated add, modify and delete headers with a name, each in profile order, and together they form the rule's list |
| RuleCompiler.ModsByGroup | background.js:102 | the combined list is the add group, then the modify group, then the delete group |
| RuleCompiler.GenerateRulesForProfile | background.js:55-135 | the result is the profile's rule list: empty without headers or without a usable header, otherwise one rule with id `startRuleId` |
| RuleCompiler.EmitsRuleIff | background.js:59-103 | a profile emits a rule iff some header has a name and a known action; for any start id it yields exactly one rule when it emits and none otherwise |
| RuleCompiler.GroupedIsPermutation | background.js:71-102 | the grouped list holds exactly the kept headers, as a multiset |
| RuleCompiler.GroupedIsRankOrdered | background.js:102 | all add entries come before all modify entries, which come before all delete entries |
| RuleCompiler.GroupedIsStable | background.js:71-96 | within each group the headers keep their profile order |
| RuleCompiler.RequestHeaderEntries | background.js:72-94 | each entry carries the lower-cased name of a named header; it is 'remove' without a value exactly for a delete, and otherwise 'set' to the header's value |
| RuleCompiler.RequestHeaderExample | background.js:71-102 | an add of `X-Test: 1` and a delete of `Cookie` compile to a set of `x-test` to `1` followed by a remove of `cookie` |
| RuleCompiler.EmittedRuleShape | background.js:103-131 | an emitted rule has id `startRuleId`, priority 1, action 'modifyHeaders' with a non-empty list, the translated pattern and the 15 resource types |
| RuleCompiler.CompileRules | background.js:33-40 | the fold yields one rule per profile that emits one, so never more rules than profiles |
| RuleCompiler.CompileRulesSnoc | background.js:36-40 | one more profile appends exactly its own rules, numbered from where the others stopped |
| RuleCompiler.CompiledRulesCharacterised | background.js:33-40 | the k-th compiled rule is the rule of the k-th emitting profile, with id start + k; a profile emitting nothing consumes no id |
| RuleCompiler.CompiledIds | background.js:34-40 | compiled ids are start, start + 1, … with no gap or repeat |
| RuleSync.SyncedRules | background.js:23-40 | one rule per enabled profile with a usable header, never more than the stored profiles |
| RuleSync.SyncedRulesCharacterised | background.js:23-40 | the k-th synchronised rule is the rule of the k-th enabled profile with a usable header, with id k + 1 |
| RuleSync.DisabledContributesNothing | background.js:26 | a disabled profile changes nothing in the compiled rules, whatever its headers |
| RuleSync.SyncedIds | background.js:33-40 | the synchronised ids are exactly 1..N, distinct |
| RuleSync.WithoutListed | background.js:43-46 | removing a list of ids that covers every installed rule leaves no installed rule |
| RuleSync.FullReplace | background.js:29-46 | after the update exactly the freshly compiled rules are installed, whatever was installed before |
| RuleSync.SyncIdempotent | background.js:19-46 | synchronising twice from the same profiles installs the same rules as synchronising once |
| RuleSync.DynamicRules.UpdateRules | background.js:19-52 | the request removes every installed id and adds the compiled rules; accepted, the installed set becomes those rules; rejected, it is unchanged |
| ProfileForm.CollectHeaders | popup.js:288-311 | the loop returns the collection the header rows specify (first bad row's error, or all rows' headers) |
| ProfileForm.CollectedSucceeds | popup.js:291-311 | the header rows are accepted iff every row is good, and then yield one header per row, in form order |
| ProfileForm.CollectedFails | popup.js:296-304 | a refusal reports the error of the first bad row |
| ProfileForm.CollectedWellFormed | popup.js:292-310 | every collected header has a non-empty trimmed name, and a non-empty trimmed value unless it is a delete |
| ProfileForm.ValidateForm | popup.js:272-316 | an accepted form carries the trimmed, non-empty name and pattern and at least one header |
| ProfileForm.ValidateFormIff | popup.js:272-316 | the form is accepted iff name and pattern are not blank, there is a row and every row is good; a blank name, then a blank pattern, then the first bad row's own error, then no rows are reported in that order; an accepted form stores the trimmed header of each row, in form order |
| ProfileForm.SavedProfileEmitsRule | popup.js:296-316 | a profile saved from an accepted form with select-offered actions compiles to exactly one rule |
| ImportExport.ValidateImport | popup.js:494-503 | refused as not an array exactly when `profiles` is missing, refused as invalid exactly when some entry lacks a name, pattern or headers; accepted, one pending profile per entry |
| ImportExport.CheckImport | popup.js:494-503 | the validation loop returns the file's verdict: no array, a bad entry, or the entries as pending profiles |
| ImportExport.AcceptedImport | popup.js:494-506 | an accepted file yields one pending profile per entry, with the entry's non-empty name and pattern and its headers |
| ImportExport.Picked | popup.js:564 | the pick never holds more entries than the pending list |
| ImportExport.PickedSelectionOrder | popup.js:563-564 | only which positions are ticked matters, not the order they were ticked in |
| ImportExport.PickedAll | popup.js:563-564 | ticking every position picks the whole pending list in order |
| ImportExport.PickedMembers | popup.js:564 | the pick holds every ticked entry and nothing from an unticked position |
| ImportExport.PickedAtPositions | popup.js:563-564 | the pick is the pending entries at the ticked positions, in strictly increasing position order, each once, with every ticked position in range included |
| ImportExport.SelectedProfiles | popup.js:453 | every selected profile has a ticked id, and there are no more of them than in the list |
| ImportExport.ExportSelection | popup.js:443-460 | nothing ticked is refused; otherwise the document has version "1.0" and no more profiles than the list |
| ImportExport.ExportedProfiles | popup.js:453 | the export holds exactly the profiles whose id is ticked, each as often as in the list, and no other; ticking all exports the list |
| ImportExport.ExportImportRoundTrip | popup.js:452-459 | an exported file of named profiles is accepted on import and yields their data in export order |
| ProfileStore.Stamped | popup.js:567-572 | one imported profile per picked entry |
| ProfileStore.EditFrame | popup.js:319-329 | editing replaces name, pattern and headers of the first profile with the id only; id, state, timestamp and all other profiles stay; an unknown id changes nothing |
| ProfileStore.CreateFrame | popup.js:330-341 | creating appends exactly one enabled profile with the form's data, the new id and time; earlier profiles stay |
| ProfileStore.ToggleFrame | popup.js:353-358 | toggling sets the state of the first profile with the id and nothing else; an unknown id changes nothing; toggling twice equals once |
| ProfileStore.DeleteFrame | popup.js:374 | deleting removes every profile with the id and keeps all others; an unknown id changes nothing; a known id shortens the list |
| ProfileStore.DeleteKeepsOthers | popup.js:374 | deleting keeps each other profile as often as it occurs; cut anywhere, each part loses its own profiles with the id, so the survivors keep their order |
| ProfileStore.DeletedShorter | popup.js:374 | a list holding the id gets shorter |
| ProfileStore.CloneFrame | popup.js:386-399 | cloning appends one disabled copy named `name (Copy)` with the same pattern and headers; the rest stays; an unknown id changes nothing |
| ProfileStore.ImportFrame | popup.js:563-575 | importing appends the picked entries after the existing profiles, in pending order, disabled and with the given ids and times; nothing ticked changes nothing |
| ProfileStore.ImportAll | popup.js:563-575 | ticking every entry imports all of them in file order |
| ProfileStore.ExportImportProfiles | popup.js:453-575 | export then import with all ticked reproduces name, pattern and headers of each exported profile, with new id and time and disabled |
| ProfileStore.UniqueIdsPreserved | popup.js:319-399 | edit, toggle and delete keep ids unique; create and clone do when the new id is fresh |
| ProfileStore.DeletedUnique | popup.js:374 | deletion keeps ids unique |
| ProfileStore.ImportKeepsUniqueIds | popup.js:566-575 | importing with fresh distinct ids keeps ids unique |
| ProfileStore.ProfileList.constructor | popup.js:114 | the list is the stored one, or empty when none is stored |
| ProfileStore.ProfileList.SaveProfile | popup.js:271-350 | a refused form reports its first error and leaves the list alone; an accepted one edits or appends as `Saved` says |
| ProfileStore.ProfileList.ToggleProfile | popup.js:353-365 | the list becomes `Toggled` of the old list |
| ProfileStore.ProfileList.DeleteProfile | popup.js:368-381 | declined, nothing changes; confirmed, the list becomes `Deleted` of the old list |
| ProfileStore.ProfileList.CloneProfile | popup.js:384-406 | the list becomes `Cloned` of the old list |
| ProfileStore.ProfileList.ConfirmImport | popup.js:553-575 | the list becomes `Imported` of the old list |
| DisplayOrder.Compare | popup.js:134-137 | equal exactly when both profiles have the same state; negative exactly when the first is enabled and the second is not |
| DisplayOrder.DisplayOrder | popup.js:134-137 | the displayed list has as many entries as the stored one |
| DisplayOrder.CompareIsConsistent | popup.js:134-137 | the comparator is antisymmetric and transitive |
| DisplayOrder.DisplayIsPermutation | popup.js:134-137 | the displayed list is a rearrangement of the stored list |
| DisplayOrder.DisplayIsSorted | popup.js:134-137 | no disabled profile is displayed before an enabled one |
| DisplayOrder.DisplayIsStable | popup.js:134-137 | enabled and disabled profiles each keep their stored order |
| DisplayOrder.SortedSplits | popup.js:134-137 | a sorted list is its enabled profiles followed by its disabled ones |
| DisplayOrder.DisplayOrderUnique | popup.js:134-137 | the displayed list is the only sorted, stable rearrangement |

## Left out

- Browser I/O (`chrome.storage`, `getDynamicRules`, `updateDynamicRules`) is modelled
  as state and parameters. The installed rules are a field of `DynamicRules`. The
  stored list is a parameter of `UpdateRules` and of the `ProfileList` constructor.
  The engine's verdict on an update is a boolean.
- The triggers (`onInstalled`, `storage.onChanged`) and the `onMessage` refresh
  handler are plumbing around `updateRules` and are not modelled. The message
  handler has a failure branch (background.js:165-167), but `updateRules` catches its
  own errors (background.js:49-51), so the handler always answers success. In the
  model a rejected update only leaves the installed rules as they were.
- Writes of the list back to storage after each popup operation are not modelled. A
  failing write is not modelled either: in the source the in-memory list has already
  changed by then.
- The DOM, alerts, focus, modals, the empty-state view and `editProfile`'s form
  filling are UI. Form fields, checkbox selections, the editing id and the answer to
  the confirmation dialog are parameters.
- `escapeHtml` is not modelled: it relies on the browser's HTML serializer.
- `generateId`, `Date.now` and the ISO export date are parameters. Freshness of new
  ids is a precondition of the lemmas that need it.
- Reading files, `JSON.parse`, `JSON.stringify` and the Blob download are not
  modelled. `ImportFile` is the parsed shape.
- ImportExport.ImportEntry: entries of the wrong type cannot be expressed in the
  model. This covers a truthy non-string `name` or `urlPattern`, a truthy non-array
  `headers`, a header whose `name` or `value` is not a string, and a `null` entry.
  In the source, a `null` entry makes the check at popup.js:500 throw, so the file
  is refused as if invalid. The other cases pass the import check. Once enabled, such
  a profile can make every sync fail: `pattern.includes` (background.js:142),
  iterating `headers` (background.js:71) or `name.toLowerCase()` (background.js:77)
  may throw, or the engine may reject the rule. The catch at background.js:49-51
  then abandons the whole update, and no profile's rules are replaced. Not every
  such profile fails:
  - A string `headers` such as `"abc"` passes the length test at background.js:59.
    Its characters have no `name`, so line 72 skips each one, and the profile
    compiles to no rule.
  - A non-string `urlPattern` with empty `headers` returns at background.js:59-61,
    before `convertToUrlFilter` runs.
  - A header with a non-string `name` and an unknown action matches no case of the
    switch at background.js:74, so `toLowerCase` is never called.
  The model cannot reach any of these states, so it captures neither the failure
  nor these exceptions.
- The empty-pending alert of `showImportModal` is UI. With nothing pending, the
  model's import picks nothing.
- ProfileStore.CloneOf: a stored profile without `headers` is cloned with an empty
  list. In the source, `JSON.parse(JSON.stringify(undefined))` throws there, and the
  clone is abandoned with an alert. Profiles created by the form or by import always
  carry headers.
- Text.ToLower: maps only the ASCII letters A-Z. JavaScript's `toLowerCase` also
  maps other Unicode letters.
- Text.Trim: strips exactly the JavaScript WhiteSpace and LineTerminator
  characters. Strings are sequences of Unicode scalar values, so surrogate pairs
  are not modelled.
- Rule ids are unbounded integers. JavaScript numbers are exact far beyond any rule
  count.
- Asynchrony is not modelled: each operation runs to completion, and interleaved
  `updateRules` runs are not modelled.
