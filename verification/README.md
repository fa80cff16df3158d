# Release checklist tracker — Dafny model

This project models the backend core of a release-checklist tracker. A
*release* has a name, a target date, optional notes and one completion flag
for each step of a fixed seven-step checklist ("All PRs merged" …
"Deployed to production"). The model covers four parts:

- **Status derivation** (`Status`). A release's status is `planned`, `ongoing`
  or `done`, derived from its completion flags. It is total: it is also
  defined for a stored value that is not an array at all.
- **Response mapping** (`ReleaseMapper`). A stored row becomes the API shape.
  A non-array flag column is coerced to `[]`, the status is attached, and a
  seven-entry named `steps` breakdown is built. `additionalInfo`, `createdAt`
  and `updatedAt` are renamed to `additional_info`, `created_at` and
  `updated_at`.
- **Store operations** (`ReleaseRepository`): `findAll`, `findById`,
  `create`, `update`, `toggleStep` and `remove`. They work on a
  `map<Id, Release>` instead of a database client. A flag says whether the
  database can be reached.
- **Request handlers** (`ReleaseController`): `list`, `getById`, `create`,
  `update`, `toggleStep` and `remove`. Each handler validates its input,
  calls the store, and turns the outcome into a tagged reply: 200, 201, 400,
  404 or 500.

The checklist itself (`Constants.DefaultSteps`) is one immutable value. Both
the store and the mapper read it.

Things outside the code are parameters of `Env`: the clock (`now`), the
generated primary key (`nextId`) and date parsing (`parseDate`, which models
`new Date(text)` and gives `None` for an invalid date). Dates and timestamps
are opaque integers (`Instant`).

Three behaviours of the code worth stating:

- `update` does not require a non-empty name. An empty string is written as
  given; only `create` refuses a falsy name.
- The store's "no fields" result of `update` is `null`. The handler would turn
  it into a 404, but that branch is dead, because the handler has already
  answered 400 for an empty body.
- The deleted id that `remove` echoes back is the id of the returned row. In a
  well-formed store (`ReleaseRepository.WellFormed`) that is the id that was
  asked for.

## Model

| member | source | states |
|---|---|---|
| Constants.StepCountIsSeven | backend/constants/index.js:4-12 | the shared checklist has seven steps, and a fresh checklist is seven unset flags |
| Status.CountCompleted | backend/utils/status.js:11 | the number of completed flags never exceeds the number of flags |
| Status.CountZeroIffNoneCompleted | backend/utils/status.js:11-15 | the completed count is zero exactly when no flag is set |
| Status.CountFullIffAllCompleted | backend/utils/status.js:11-17 | the completed count equals the length exactly when every flag is set |
| Status.CountIsMultiplicityOfTrue | backend/utils/status.js:11 | the completed count equals the multiplicity of `true` in the flags |
| Status.ComputeStatus | backend/utils/status.js:6-21 | planned iff the value is not an array or no flag is set (this covers the empty array); done iff the array is non-empty and every flag is set; ongoing iff at least one flag is set and at least one is not |
| ReleaseMapper.ToReleaseResponse | backend/utils/releaseMapper.js:9-26 | id, name and date are copied, and the camel-case fields appear under snake-case keys; a stored array is passed through and a non-array becomes `[]`; the status is that of the coerced stored flags (planned for a non-array); `steps` has exactly one entry per checklist step, named after it, and is completed iff the stored array has a set flag at that index |
| ReleaseMapper.FullChecklistViewAgrees | backend/utils/releaseMapper.js:20-24 | for a seven-flag array the breakdown's completion column is exactly the stored flags, so the status read from it is the same |
| ReleaseMapper.ShortChecklistStatusIgnoresPadding | backend/utils/releaseMapper.js:20-24 | the status comes from the stored flags, not the padded breakdown: stored `[true]` is done while its seven-step breakdown would be ongoing |
| ReleaseMapper.AllCompletedMapsToDone | backend/test/utils/releaseMapper.test.js:66-81 | seven set flags map to done, with every step completed |
| ReleaseMapper.NonArrayMapsToPlanned | backend/utils/releaseMapper.js:10-12 | a non-array column gives `steps_completed = []`, planned, and seven incomplete steps |
| ReleaseRepository.FindById | backend/repositories/releaseRepository.js:15-19 | the row stored under the id, or null when there is none; an unreachable database is an error |
| ReleaseRepository.FindAll | backend/repositories/releaseRepository.js:9-13 | every row appears, the length is the number of rows, nothing else is listed, and the list is ordered by date with the newest first |
| ReleaseRepository.InsertIsPermutation | backend/repositories/releaseRepository.js:11 | placing a row into the date-ordered list adds that row and loses none |
| ReleaseRepository.Create | backend/repositories/releaseRepository.js:21-31 | succeeds iff the database is reachable, the date parses and the new id is unused; the row has the given name and parsed date, and the notes or null when they are absent; its flags are seven `false` whatever else the caller sent; the store gains exactly that row; on failure the store is unchanged |
| ReleaseRepository.Update | backend/repositories/releaseRepository.js:33-47 | with no field present it returns null before any database access and changes nothing; otherwise present fields overwrite their columns (a null date is the epoch) and absent ones keep theirs; the flags, id and creation time are untouched; a missing id is not-found; a null name or an invalid date is rejected |
| ReleaseRepository.Normalise | backend/repositories/releaseRepository.js:57-59 | a stored array is kept as it is; a non-array becomes a fresh seven-flag checklist; either way each entry reads as the stored completion |
| ReleaseRepository.Flip | backend/repositories/releaseRepository.js:60 | entry k is negated and every other entry is kept; past the end of the array, the array is extended with unset flags up to k |
| ReleaseRepository.ToggleStep | backend/repositories/releaseRepository.js:49-66 | a missing id gives null and leaves the store unchanged; otherwise flag k of the normalised flags is negated and every other flag is kept; the array grows to k + 1 only when k lies beyond it, so a non-array column becomes seven flags; every other column except the modification time, and every other row, is unchanged |
| ReleaseRepository.RewriteSteps | backend/repositories/releaseRepository.js:49-66 | with a key that is not an array index, a missing id gives null; otherwise exactly the normalised flags are written back (seven `false` for a non-array column) and every step reads as before; only the modification time changes |
| ReleaseRepository.Remove | backend/repositories/releaseRepository.js:68-72 | deletes exactly that id and returns the deleted row; an absent id is not-found and changes nothing |
| ReleaseRepository.ToggleTwiceRestores | backend/repositories/releaseRepository.js:57-65 | toggling the same in-range step twice gives back the original row, apart from its modification time, and leaves the other rows unchanged |
| ReleaseRepository.ToggleTwiceRestoresNormalised | backend/repositories/releaseRepository.js:57-65 | for any stored value, two toggles of one step give back the normalised flags, padded with `false` up to that step |
| ReleaseRepository.RemoveUndoesCreate | backend/repositories/releaseRepository.js:21-31 | removing the row that `create` just added returns that row and gives back the store as it was before |
| ReleaseRepository.CreatePreservesWellFormed | backend/repositories/releaseRepository.js:21-31 | creating keeps every row under its own id, with seven flags |
| ReleaseRepository.UpdatePreservesWellFormed | backend/repositories/releaseRepository.js:33-47 | updating keeps the store well formed |
| ReleaseRepository.TogglePreservesWellFormed | backend/repositories/releaseRepository.js:49-66 | toggling a step inside the checklist keeps the store well formed |
| ReleaseRepository.RemovePreservesWellFormed | backend/repositories/releaseRepository.js:68-72 | removing keeps the store well formed |
| ReleaseController.List | backend/controllers/releaseController.js:10-18 | 500 iff the database is unreachable; otherwise 200 with the mapped response of every row, one per row, newest first |
| ReleaseController.GetById | backend/controllers/releaseController.js:20-32 | 200 with the mapped row when it exists, 404 when it does not, 500 when the database is unreachable; the store is not changed |
| ReleaseController.Create | backend/controllers/releaseController.js:34-50 | a missing or empty name or date gives 400 whatever the store's state, and the store is not touched; otherwise 201 with a planned release with seven incomplete steps under the new id, carrying the name, the parsed date and the notes (null when absent), the store being exactly the repository's result with every old row kept; or 500 with the store unchanged |
| ReleaseController.Forwarded | backend/controllers/releaseController.js:57-60 | the data handed to the store is empty exactly when none of name, date and additional_info is defined |
| ReleaseController.Update | backend/controllers/releaseController.js:52-78 | 400 exactly when no recognised field is given, and the store is not touched; 500 exactly when fields are given but the date does not parse, the name is null, or the database is unreachable; a missing id gives 404; success gives 200 with the present fields changed and the flags and status as before, the store being exactly the repository's result with every other row kept |
| ReleaseController.UpdateIgnoresOtherKeys | backend/controllers/releaseController.js:55-60 | keys other than name, date and additional_info do not change the reply or the store |
| ReleaseController.ToggleStep | backend/controllers/releaseController.js:80-105 | an absent or null index, or one below 0 or at least 7, gives 400 whatever the store's state (corrected check, see Findings); a missing id gives 404; an unreachable database gives 500; success gives 200 with exactly step k of the breakdown flipped, the reply being the stored row's mapping and the store the repository's result, every other row unchanged |
| ReleaseController.IndexChecksDifferOnlyOnNull | backend/controllers/releaseController.js:85-91 | the index check as written passes exactly the valid indices and JSON null |
| ReleaseController.ToggleStepAsWritten | backend/controllers/releaseController.js:80-105 | as written: an absent or out-of-range index gives 400; a numeric index behaves like the corrected handler; a null index on an existing row gives 200, the store being the normalised flags written back with every step reading as before and every other row kept, and the reply the stored row's mapping; a null index on an absent id gives 404, and on an unreachable database 500, the store unchanged |
| ReleaseController.NullStepIndexFlipsNothing | backend/controllers/releaseController.js:85-93 | with a null index on an existing row, the handler as written answers 200 and flips no step, neither in the reply nor in the stored row, while the corrected handler answers 400 |
| ReleaseController.Remove | backend/controllers/releaseController.js:107-119 | 200 with the success message and the deleted id, the store being the repository's result: the id leaves and every other row is kept; 404 for an absent id; 500 when the database is unreachable |
| ReleaseController.RemoveEchoesId | backend/controllers/releaseController.js:111 | in a well-formed store the echoed id is the requested id |
| ReleaseController.GetByIdMissingIsNotFound | backend/controllers/releaseController.js:24-26 | with a reachable database, an unknown id is 404, never 500 |
| ReleaseController.UpdateMissingIsNotFound | backend/controllers/releaseController.js:67-74 | with acceptable fields and a reachable database, an unknown id is 404, never 500 |
| ReleaseController.ToggleStepMissingIsNotFound | backend/controllers/releaseController.js:94-101 | with a valid index and a reachable database, an unknown id is 404, never 500 |
| ReleaseController.RemoveMissingIsNotFound | backend/controllers/releaseController.js:113-115 | with a reachable database, an unknown id is 404, never 500 |
| ReleaseController.HandlersPreserveWellFormed | backend/controllers/releaseController.js:34-119 | every handler keeps the store well formed |
| ReleaseController.CreateToggleScenario | backend/test/integration/releases.test.js:163-198 | a new release is planned (201); ticking step 0 makes it ongoing (200); ticking step 0 again brings back the created row, apart from its modification time, and it is planned again |

## Left out

- Database client construction, environment variables and shutdown hooks (`backend/db/index.js`): this is I/O plumbing. An abstract map and the `online` flag stand in for it.
- Express routing (`backend/routes/releases.js`) and the frontend: these are transport and UI.
- Date parsing: `new Date(text)` is the `Env.parseDate` parameter, and dates are opaque integers.
- The database schema is not part of this model. The model assumes five things about it: `createdAt` is set to the current time when a row is created, `updatedAt` is refreshed on every write, the name column is not nullable, a null name or an invalid date is refused before the row is looked up, and a generated id that is already taken is refused (the handler then answers 500).
- Logging with `console.error`: it is a side effect only.
- The read-modify-write race in `toggleStep`: each operation is one atomic step here.
- Non-boolean entries in a stored array (which `filter(Boolean)` would coerce): entries are booleans.
- Request-body keys of other JSON types (numbers, booleans, objects for `name`, `date` or `additional_info`): keys are missing, null or strings.
- A `stepIndex` that is a string, a fraction or a boolean: `stepIndex` is missing, null or an integer. A non-numeric string, a fraction or a boolean slips through the check in the same way null does (see Findings).
- ReleaseRepository.ToggleStep: it takes the index as a `nat`. The handler rejects negative indices first, so the store never sees one.
- ReleaseRepository.Flip: JavaScript leaves holes when a short array is extended. Holes are modelled as `false`, which is how the mapper and the status read them.
- ReleaseMapper.ToReleaseResponse: the object spread also copies the camel-case keys (`additionalInfo`, `stepsCompleted`, `createdAt`, `updatedAt`) into the response. The response datatype holds only the documented keys.

## Findings

| source | as written | input that shows it | evidently intended | confidence | as-written member | corrected member |
|---|---|---|---|---|---|---|
| backend/controllers/releaseController.js:85-91 | `stepIndex === undefined \|\| stepIndex < 0 \|\| stepIndex >= DEFAULT_STEPS.length`; JSON null compares as 0, so it passes, and `stepsCompleted[null]` then sets a property, not a step | body `{ "stepIndex": null }` on an existing release: 200, no step flipped | 400 "Invalid step index" for any index that is not an integer in 0..6 | medium, not executed | ReleaseController.ToggleStepAsWritten | ReleaseController.ToggleStep |

The rest of the model uses the corrected check, `ReleaseController.ValidStepIndex`.

