# Notes manager: optimistic notes hooks and feature flags

This is a Dafny model of the client-side data layer of a browser notes manager. It covers two pure-logic cores.

**The notes hooks** (`useNotes.ts`):
- The list hook keeps an ordered list of notes. The detail hook keeps one optional note.
- Both hooks run a fetch cycle. It raises `loading`, clears `error`, aborts the held abort controller and installs a fresh one. When the call settles it either replaces the data, swallows an `AbortError`, or records an error message. `loading` drops in every case.
- Each optimistic operation (create, update, delete, favourite toggle) is split into two pure transition functions:
  - a *begin* step: the local edit made before the service call, plus the snapshot it captures and the call it issues;
  - a *settle* step: it reconciles with the service's answer or rolls back from the snapshot.
- The service's answer enters as `Outcome = Ok(value) | Err(name, message)`.
- The hook state is one generic record, `FetchCycle.Controller<D>`, holding the data, `loading`, `error` and the abort-token bookkeeping. `D` is `seq<Note>` for the list and `Option<Note>` for the detail.

**Feature flags** (`useFeatureFlags.ts`):
- The flag normaliser turns a raw string into a `map<string, bool>`. It reads the string as JSON when the JSON parser accepted it, and as comma-separated names otherwise.
- The parser's result enters as a `Json` value.
- The model includes the boolean coercion with its truthy-word table, the CSV, array and object readings, and `isEnabled`.

Modules, one per file:
- `Outcomes`: `Option`, `Outcome`, and the error-text fallback.
- `Text`: the JavaScript `trim`, `split`/`join` and ASCII `toLowerCase`.
- `Notes`: entities, service calls and whole-list rewrites.
- `FetchCycle`
- `NotesList`
- `NoteDetail`
- `FeatureFlags`

One might expect an update or toggle of an unknown id to be a local no-op, and a stale fetch result never to be applied. The code does neither, and the model follows the code:
- The list hook's `updateOptimistic` and `toggleFavoriteOptimistic` on an id the list does not hold are not a local no-op. They still call the service. On success nothing is rewritten but the service's note is returned. On failure nothing is rewritten, the error is set, and the result is null (`NotesList.UpdateAbsentId`, `NotesList.ToggleAbsentId`).
- A superseded fetch is not ignored by the hook itself. Its settle still runs, and it drops `loading` while the newer fetch is outstanding (`FetchCycle.SupersededSettle`). Stale data is kept out only if the service rejects once the abort signal fires.
- The snapshot the list's update and toggle keep is the *last* entry carrying the id, because the map callback assigns `previous` on every match. Rollback writes that entry over every match. So the list is guaranteed to be restored exactly when ids are unique (`NotesList.UpdateFailureRestores`); two different notes sharing an id both come back as the later one (`NotesList.DuplicateIdsNotRestored`).

## Model

| member | source | states |
|---|---|---|
| `Outcomes.ErrorText` | notes_app_frontend/src/hooks/useNotes.ts:99 | the stored message is the error's own message when non-empty, the fixed fallback otherwise, and never empty when the fallback is not |
| `Text.Trim` | notes_app_frontend/src/hooks/useFeatureFlags.ts:33 | trimming yields a contiguous slice of the input that neither starts nor ends with ECMAScript white space, and everything cut away is white space |
| `Text.TrimEmptyIff` | notes_app_frontend/src/hooks/useFeatureFlags.ts:34 | a piece trims to the empty string exactly when it is all white space, so `filter(Boolean)` drops exactly the blank pieces |
| `Text.ToLower` | notes_app_frontend/src/hooks/useFeatureFlags.ts:84 | lower-casing keeps the length and maps each ASCII capital to its small letter |
| `Text.Split` | notes_app_frontend/src/hooks/useFeatureFlags.ts:32 | splitting on a comma yields at least one piece, and no piece holds the separator |
| `Text.JoinSplit` | notes_app_frontend/src/hooks/useFeatureFlags.ts:32 | joining the pieces of a split with the separator gives back the original string |
| `Text.SplitJoin` | notes_app_frontend/src/hooks/useFeatureFlags.ts:32 | splitting a join of separator-free pieces gives back exactly those pieces |
| `Notes.Patch` | notes_app_frontend/src/hooks/useNotes.ts:157-163 | title and content come from the patch when it supplies them and are kept otherwise; favorite is replaced only by a supplied boolean; id and updatedAt are unchanged |
| `Notes.PatchEmpty` | notes_app_frontend/src/hooks/useNotes.ts:313-317 | a patch that supplies nothing leaves the note unchanged |
| `Notes.PatchThen` | notes_app_frontend/src/hooks/useNotes.ts:313-317 | two successive patches equal their field-wise combination, so reapplying a patch changes nothing more |
| `Notes.Flip` | notes_app_frontend/src/hooks/useNotes.ts:213 | the toggled note has the opposite favorite flag and is otherwise the same note |
| `Notes.MapMatching` | notes_app_frontend/src/hooks/useNotes.ts:153-167 | a per-id rewrite keeps the length and order, rewrites every entry carrying the id, and leaves every other entry as it was |
| `Notes.ReplaceById` | notes_app_frontend/src/hooks/useNotes.ts:171 | reconciling puts the given note at exactly the positions that carried the id and changes no other position |
| `Notes.PatchById` | notes_app_frontend/src/hooks/useNotes.ts:153-167 | the optimistic update patches exactly the entries carrying the id, in place |
| `Notes.ToggleById` | notes_app_frontend/src/hooks/useNotes.ts:209-217 | the optimistic toggle flips the flag of exactly the entries carrying the id and touches nothing else |
| `Notes.RemoveById` | notes_app_frontend/src/hooks/useNotes.ts:191 | filtering by id keeps exactly the notes that do not carry the id, and the length drops by the number of entries that do |
| `Notes.RemoveConcat` | notes_app_frontend/src/hooks/useNotes.ts:140 | filtering distributes over concatenation, so the surviving entries keep their relative order |
| `Notes.RemoveAbsent` | notes_app_frontend/src/hooks/useNotes.ts:140 | filtering out an id that no entry carries leaves the list unchanged |
| `Notes.LastWithId` | notes_app_frontend/src/hooks/useNotes.ts:152-156 | the captured `previous` is absent exactly when no entry carries the id, and otherwise is the last entry that does |
| `Notes.LastWithIdUnique` | notes_app_frontend/src/hooks/useNotes.ts:208-212 | with unique ids the captured `previous` is the single entry carrying the id |
| `Notes.RevertRewrite` | notes_app_frontend/src/hooks/useNotes.ts:175-177 | rewriting the entries of an id and then writing back the single value they all held restores the list exactly |
| `Notes.ToggleTwice` | notes_app_frontend/src/hooks/useNotes.ts:209-217 | flipping the same entries twice restores the list |
| `FetchCycle.Initial` | notes_app_frontend/src/hooks/useNotes.ts:61-69 | a hook mounts idle: not loading, no error, no abort controller held |
| `FetchCycle.Begin` | notes_app_frontend/src/hooks/useNotes.ts:82-91 | a fetch starts with loading raised and error cleared; the held token is aborted and a fresh token is installed that is not among the aborted ones |
| `FetchCycle.Settle` | notes_app_frontend/src/hooks/useNotes.ts:93-103 | success replaces the data wholesale; an AbortError leaves data and error alone; any other error records its text and keeps the data; loading drops on every path |
| `FetchCycle.CycleSucceeds` | notes_app_frontend/src/hooks/useNotes.ts:82-95 | a successful cycle ends with the fetched data, no error, and nothing loading |
| `FetchCycle.CycleAborted` | notes_app_frontend/src/hooks/useNotes.ts:96-102 | an aborted cycle ends with no error and the previous data |
| `FetchCycle.CycleFails` | notes_app_frontend/src/hooks/useNotes.ts:96-102 | a cycle failing otherwise ends with a non-empty error and the previous data |
| `FetchCycle.SupersededSettle` | notes_app_frontend/src/hooks/useNotes.ts:86-103 | after a second fetch supersedes a first, the first's token is aborted and the second's is held and live, yet the first's settle drops loading |
| `NotesList.OrDefault` | notes_app_frontend/src/hooks/useNotes.ts:63 | `x \|\| fallback` on a number: a missing value or 0 gives the fallback, any other value is kept |
| `NotesList.InitialPaging` | notes_app_frontend/src/hooks/useNotes.ts:63-64 | page and page size start from the options, defaulting to 1 and 20 when an option is missing or 0 |
| `NotesList.BuildQuery` | notes_app_frontend/src/hooks/useNotes.ts:71-80 | the query's search is absent exactly when the debounced search is empty; the favourite filter is present exactly when the options give a boolean; page and page size pass through |
| `NotesList.InitialQueryPaged` | notes_app_frontend/src/hooks/useNotes.ts:63-80 | when the page options are absent, 0 or positive, the first query asks for a page and page size of at least 1, and never sends an empty search |
| `NotesList.NegativePagePassesThrough` | notes_app_frontend/src/hooks/useNotes.ts:63 | `\|\|` replaces only a falsy option, so a negative page reaches the query unchanged, below 1 |
| `NotesList.FetchBegin` | notes_app_frontend/src/hooks/useNotes.ts:82-94 | the list fetch raises loading, clears error, aborts the held token, and calls `listNotes` with the query under the newly held token |
| `NotesList.FetchSettle` | notes_app_frontend/src/hooks/useNotes.ts:93-103 | the list fetch replaces the notes on success and keeps the error, keeps the notes on failure, records "Failed to load notes" or the message except on abort, drops loading, and leaves the tokens alone |
| `NotesList.TempNote` | notes_app_frontend/src/hooks/useNotes.ts:123-128 | the placeholder carries the temporary id, has title and content defaulting to "", favorite true only for a supplied true, and no updatedAt |
| `NotesList.CreateBegin` | notes_app_frontend/src/hooks/useNotes.ts:119-132 | create puts the placeholder in front of the unchanged list; its id is "tmp_" followed by the suffix; nothing else in the state changes; `createNote` is called with the input |
| `NotesList.CreateSettle` | notes_app_frontend/src/hooks/useNotes.ts:131-144 | on success the temporary entries are replaced in place and the created note is returned; on failure every temporary entry is removed, the error text is set and the result is null |
| `NotesList.CreateFailureRestores` | notes_app_frontend/src/hooks/useNotes.ts:138-143 | a failed create with a fresh temporary id gives back exactly the list before it |
| `NotesList.CreateSuccessInPlace` | notes_app_frontend/src/hooks/useNotes.ts:132-137 | a successful create with a fresh temporary id leaves the created note at the head, in front of the unchanged list |
| `NotesList.UpdateBegin` | notes_app_frontend/src/hooks/useNotes.ts:150-170 | update patches the matching entries in place, keeps the last match as the snapshot, changes nothing else in the state, and calls `updateNote` whether or not the id was found |
| `NotesList.Reconcile` | notes_app_frontend/src/hooks/useNotes.ts:169-181 | on success the matching entries become the service's note, which is returned; on failure they return to the snapshot when one was captured and are not rewritten otherwise, the error text is set and the result is null; loading and tokens are untouched |
| `NotesList.UpdateFailureRestores` | notes_app_frontend/src/hooks/useNotes.ts:173-181 | with unique ids a failed update gives back exactly the list before it, sets the error text and returns null |
| `NotesList.UpdateAbsentId` | notes_app_frontend/src/hooks/useNotes.ts:150-181 | updating an id the list does not hold captures no snapshot and rewrites nothing on either outcome; the result is non-null exactly on success |
| `NotesList.UpdateSettle` | notes_app_frontend/src/hooks/useNotes.ts:169-181 | update's settle holds the service's note on success; on failure it rolls the matches back to the snapshot and records "Failed to update note" or the message |
| `NotesList.DuplicateIdsNotRestored` | notes_app_frontend/src/hooks/useNotes.ts:150-181 | two different notes sharing an id both come back as the later one after a failed update, so the list is not restored |
| `NotesList.DeleteBegin` | notes_app_frontend/src/hooks/useNotes.ts:187-195 | delete snapshots the whole list, drops every entry carrying the id, and calls `deleteNote` |
| `NotesList.DeleteSettle` | notes_app_frontend/src/hooks/useNotes.ts:194-203 | delete answers true exactly on success and then changes nothing; on failure it restores the snapshot and sets the error text |
| `NotesList.DeleteRoundTrip` | notes_app_frontend/src/hooks/useNotes.ts:187-203 | a failed delete restores the original list exactly and answers false; a successful one keeps the removal and answers true |
| `NotesList.ToggleBegin` | notes_app_frontend/src/hooks/useNotes.ts:207-220 | toggle flips the matching entries' flag, keeps the last match as the snapshot, and calls `toggleFavorite` |
| `NotesList.ToggleFailureRestores` | notes_app_frontend/src/hooks/useNotes.ts:223-231 | with unique ids a failed toggle gives back exactly the list before it, sets "Failed to update favorite" or the message, and returns null |
| `NotesList.ToggleAbsentId` | notes_app_frontend/src/hooks/useNotes.ts:207-231 | toggling an id the list does not hold captures no snapshot and rewrites nothing on either outcome; the result is non-null exactly on success |
| `NotesList.ToggleSettle` | notes_app_frontend/src/hooks/useNotes.ts:219-231 | toggle's settle holds the service's note on success; on failure it rolls the matches back to the snapshot and records "Failed to update favorite" or the message |
| `NoteDetail.FetchBegin` | notes_app_frontend/src/hooks/useNotes.ts:274-284 | with no id or an empty id nothing happens; otherwise loading is raised, error cleared, the held token aborted and replaced by one never aborted, and `getNote` called with the id under it |
| `NoteDetail.FetchSettle` | notes_app_frontend/src/hooks/useNotes.ts:283-293 | the fetched note is held on success; on failure the note is kept and the error recorded unless aborted; loading drops and the tokens are left alone |
| `NoteDetail.UpdateBegin` | notes_app_frontend/src/hooks/useNotes.ts:308-321 | with no note held, update returns null at once with no state change and no call; otherwise the note is patched and `updateNote` is called with its id |
| `NoteDetail.Reconcile` | notes_app_frontend/src/hooks/useNotes.ts:320-329 | success holds and returns the service's note; failure holds the prior note again, sets the error text and returns null; loading and the tokens are untouched |
| `NoteDetail.UpdateFailureRestores` | notes_app_frontend/src/hooks/useNotes.ts:324-329 | a failed update puts back exactly the note held before it |
| `NoteDetail.UpdateSettle` | notes_app_frontend/src/hooks/useNotes.ts:320-329 | the detail update's settle holds the service's note on success; on failure it holds the prior note and records "Failed to update note" or the message |
| `NoteDetail.DeleteBegin` | notes_app_frontend/src/hooks/useNotes.ts:334-339 | with no note held, delete answers false at once; otherwise the note is cleared and `deleteNote` is called with its id |
| `NoteDetail.DeleteSettle` | notes_app_frontend/src/hooks/useNotes.ts:338-346 | delete answers true exactly on success; failure holds the prior note again and sets the error text |
| `NoteDetail.DeleteRoundTrip` | notes_app_frontend/src/hooks/useNotes.ts:334-346 | a failed delete restores the note and answers false; a successful one leaves no note and answers true |
| `NoteDetail.ToggleBegin` | notes_app_frontend/src/hooks/useNotes.ts:349-354 | with no note held, toggle returns null at once; otherwise only the favorite flag flips and `toggleFavorite` is called with the id |
| `NoteDetail.ToggleFailureRestores` | notes_app_frontend/src/hooks/useNotes.ts:357-361 | a failed toggle puts back exactly the note held before it |
| `NoteDetail.ToggleSettle` | notes_app_frontend/src/hooks/useNotes.ts:353-361 | the detail toggle's settle holds the service's note on success; on failure it holds the prior note and records "Failed to update favorite" or the message |
| `FeatureFlags.Truthy` | notes_app_frontend/src/hooks/useFeatureFlags.ts:87 | `Boolean(v)` (also `!input` at line 49) is false exactly for null, false, 0 and the empty string |
| `FeatureFlags.CoerceToBoolean` | notes_app_frontend/src/hooks/useFeatureFlags.ts:80-88 | a boolean maps to itself; a number maps to true iff it is non-zero; a string maps to true iff its trimmed lower-cased form is a truthy word; anything else follows JavaScript truthiness |
| `FeatureFlags.CoerceVersusTruthy` | notes_app_frontend/src/hooks/useFeatureFlags.ts:80-88 | coercion implies truthiness and equals it off strings, while a truthy string such as "no" coerces to false |
| `FeatureFlags.CsvPieces` | notes_app_frontend/src/hooks/useFeatureFlags.ts:31-38 | the flags are exactly the non-blank trimmed pieces other than "__proto__" (whose assignment the prototype setter swallows), each set to true |
| `FeatureFlags.ParseCsvFlags` | notes_app_frontend/src/hooks/useFeatureFlags.ts:29-39 | an absent or empty string gives no flags; otherwise the keys are exactly the non-blank trimmed comma-separated pieces other than "__proto__", and every value is true |
| `FeatureFlags.CsvRoundTrip` | notes_app_frontend/src/hooks/useFeatureFlags.ts:29-39 | a comma-joined list of clean flag names parses back to a map whose keys are exactly those names ("__proto__" aside), each enabled |
| `FeatureFlags.ArrayFlags` | notes_app_frontend/src/hooks/useFeatureFlags.ts:52-58 | the keys are exactly the non-blank trimmed string items other than "__proto__", all true; non-string items are ignored |
| `FeatureFlags.Assign` | notes_app_frontend/src/hooks/useFeatureFlags.ts:62-66 | every key other than "" and "__proto__" ends up in the map holding the value of its last assignment; those two never appear |
| `FeatureFlags.ObjectFlags` | notes_app_frontend/src/hooks/useFeatureFlags.ts:61-67 | every non-blank trimmed key other than "__proto__" is present, and no other key is; each flag holds the coerced value of the last entry whose key trims to it |
| `FeatureFlags.ObjectKeysPresent` | notes_app_frontend/src/hooks/useFeatureFlags.ts:62-65 | every entry whose trimmed key is neither blank nor "__proto__" leaves a flag under that key |
| `FeatureFlags.ObjectLaterWins` | notes_app_frontend/src/hooks/useFeatureFlags.ts:62-65 | when keys collide after trimming, the later entry's coerced value wins |
| `FeatureFlags.NormalizeJsonFlags` | notes_app_frontend/src/hooks/useFeatureFlags.ts:48-73 | a falsy value gives no flags and no "default"; an array and an object give their readings; any other value gives exactly the one key "default" with its coercion |
| `FeatureFlags.BlankStringIsDefaultOff` | notes_app_frontend/src/hooks/useFeatureFlags.ts:49-72 | a blank string is truthy and becomes a "default" flag that is off; the empty string gives no flag |
| `FeatureFlags.SelectFlags` | notes_app_frontend/src/hooks/useFeatureFlags.ts:118-126 | an absent or empty raw string gives no flags; otherwise the JSON reading is used when parsing succeeded and the CSV reading when it failed; no reading yields an own "" or "__proto__" flag |
| `FeatureFlags.CsvNameEnabled` | notes_app_frontend/src/hooks/useFeatureFlags.ts:118-133 | for a raw string that is not JSON, under the intended own-flag lookup `IsEnabled` a name is enabled exactly when the string is non-empty, the name is neither empty nor "__proto__", and some comma-separated piece trims to it; the written `Boolean(flags[name])` agrees on every name `Object.prototype` does not supply |
| `FeatureFlags.ArrayNameEnabled` | notes_app_frontend/src/hooks/useFeatureFlags.ts:118-133 | for a raw string that parses to an array, under the intended own-flag lookup `IsEnabled` a name is enabled exactly when it is neither empty nor "__proto__" and some string item trims to it; the written `Boolean(flags[name])` agrees on every name `Object.prototype` does not supply |
| `FeatureFlags.ObjectNameEnabled` | notes_app_frontend/src/hooks/useFeatureFlags.ts:118-133 | for a raw string that parses to an object, under the intended own-flag lookup `IsEnabled` a name is enabled exactly when it is neither empty nor "__proto__" and the last entry whose key trims to it coerces to true; the written `Boolean(flags[name])` agrees on every name `Object.prototype` does not supply |
| `FeatureFlags.IsEnabled` | notes_app_frontend/src/hooks/useFeatureFlags.ts:129-133 | an empty name is disabled; otherwise a name is enabled iff the flags hold it set to true |
| `FeatureFlags.IsEnabledAsWritten` | notes_app_frontend/src/hooks/useFeatureFlags.ts:131-132 | the empty name is disabled; the written lookup reports an inherited Object.prototype name that the flags lack as enabled, and otherwise reads the flag's own value |
| `FeatureFlags.InheritedNameReadsEnabled` | notes_app_frontend/src/hooks/useFeatureFlags.ts:132 | with no flags configured, every inherited name reads as enabled under the written lookup and disabled under the intended one |
| `FeatureFlags.LookupsAgreeOffPrototype` | notes_app_frontend/src/hooks/useFeatureFlags.ts:129-133 | the written and the intended lookup agree on every name that is not inherited |

## Left out

- React machinery (`useState`, `useEffect`, `useCallback`, `useMemo`, refs): only the resulting state transitions are modelled. A query change re-running the fetch is left to the caller, who applies `FetchBegin` again.
- The abort fired by effect cleanup on unmount (useNotes.ts:106-112, 296-302). This is teardown behaviour of the hook runtime.
- Debouncing (`useDebouncedValue` and the list's debounced search input). This is real-time timer behaviour. `BuildQuery` takes the already-debounced search.
- The `setSearch`, `setPage` and `setPageSize` setters. They store a value and carry no logic.
- The notes API module (`../lib/api/notes`) and the shared types (`../lib/types`) are not part of this model. Every call settles as an opaque `Outcome`. `Note` carries only the fields the hooks and their callers read.
- The claim that stale responses are never applied. It depends on the service rejecting once the abort signal fires. `Settle` does not consult the token.
- The randomness of the temporary-id suffix (`Math.random`). The suffix is a parameter. Only the "tmp_" prefix is guaranteed.
- Interleavings of concurrent optimistic operations on the same id. The code does not serialise them, so only single begin/settle pairs are modelled. Each settle still acts on the state current at that moment.
- React's timing of state updaters: `previous` and `snapshot` are assigned inside a `setNotes` updater. The model takes them as computed at the begin step.
- `JSON.parse`, `process.env` and `globalThis` reads in useFeatureFlags.ts. They are foreign or ambient, so the raw string and the parse result are inputs. The order of `Object.entries` and the handling of duplicate JSON keys belong to the parse result.
- NaN and fractional numbers. Every number is an integer, both the JSON numbers `coerceToBoolean` sees and the list hook's `page` and `pageSize` options. So `options?.page || 1` with NaN (which gives 1) or with 0.5 (which is kept) cannot be expressed.
- Text.ToLower: lower-cases ASCII letters only. No other Unicode case mapping yields a letter that occurs in the truthy words.
- Presentational, routing and page files, and the healthcheck route. They are UI and HTTP I/O with no statable logic.

## Findings

| source | as written | input that shows it | evidently intended | confidence | as-written member | corrected member |
|---|---|---|---|---|---|---|
| notes_app_frontend/src/hooks/useFeatureFlags.ts:132 | `Boolean(flags[name])` on a plain object also reads properties inherited from `Object.prototype` | no flags configured, `isEnabled("toString")` (also "constructor", "valueOf", "__proto__", ...) returns true | a name is enabled only when the configured flags hold it set to true (an own-property lookup) | high; not executed | `FeatureFlags.IsEnabledAsWritten` (counterexample `FeatureFlags.InheritedNameReadsEnabled`) | `FeatureFlags.IsEnabled` |
