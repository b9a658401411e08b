# Car maintenance register — a Dafny model

The register keeps cars, AI-generated maintenance suggestions and
maintenance tasks in three SQLite tables. A tRPC router exposes it. This
project models four parts of it:

- **The router** (`Router`, `App`). The nine procedures over an in-memory
  `Router.Store`: sequences of rows plus one auto-increment counter per
  table.
  - Queries: `getCars`, `getCarById`, `getTaskSuggestions`, `getTasks`.
    These are functions of the store.
  - Mutations: `createCar`, `fetchAISuggestions`, `createTask`,
    `updateTaskStatus`, `deleteTaskSuggestion`. These are methods that
    return a `Result` with an `ApiError` kind.
  - The rules the model proves:
    - the per-car cap of 10 tasks;
    - how the `completed` flag is derived;
    - a suggestion cannot be deleted while a task refers to it;
    - a failed or narrow update changes nothing else.
- **The suggestion sanitiser** (`Ai`). This is the `.map` that turns each
  element of the model's parsed JSON reply into a bounded
  `{title, description, estimatedMinutes}` record.
  - Titles are cut to 120 characters and descriptions to 500.
  - The estimate is rounded with `Math.round`, stated exactly as
    `Floor(x + 0.5)` on reals. It is kept only when it falls in
    [15, 240]; out-of-range values are dropped, not clamped.
- **The vehicle registry client** (`Vegvesen`). This covers everything
  after the HTTP request:
  - the status check;
  - make and model, defaulting to "Ukjent";
  - the year, read from the first four characters of the
    first-registration date;
  - the colour from `karosseri.farge`;
  - the five ways the lookup fails: a response that is not ok, a body that
    does not parse, a missing first-registration date, a year that reads as
    NaN, and a `tekniskKjoretoy` without `karosseri`.
- **The schema** (`Schema`). This holds:
  - the `TaskStatus` enumeration;
  - the row types, with nullable columns as `Option`;
  - the table constraints as predicates: ascending positive keys, the
    unique `reg_nr`, and foreign keys that resolve.

`Text` and `Json` model the ECMAScript operations the code uses:

- `Text`: `trim`, `toUpperCase`, `slice(0, n)`, and decimal text.
- `Json`: JSON values, `?.`, `??`, truthiness and `String(v)`.

`Wrappers` holds `Option` and `Result`.

Remote calls become parameters:

- `App.CreateCar` takes the registry as a function from the key in the
  request URL to the HTTP response.
- `App.FetchAISuggestions` takes the text backend plus `JSON.parse` as a
  function from the car to the parsed reply, or `None` when either throws.
- The cores `Router.Store.CreateCarUsing` and
  `Router.Store.FetchAISuggestionsUsing` take the lookup and the generator
  as functions on their results.

Each zod input schema becomes a `requires`:

- ids are positive;
- a title has at least one character;
- an estimate is between 1 and 3000 minutes;
- a status is one of the three.

## Behaviour worth knowing

- **Failed createCar.** Every createCar failure is `LookupFailed`. A
  registration number that is already stored gets the same `LookupFailed`
  as a failed lookup, because the `catch` at `server/routers/_app.ts:50-55`
  also catches the unique-key violation.
- **Stored registration number.** createCar looks the car up under
  `trim(upper(input))` but stores `upper(input)` without trimming
  (`server/routers/_app.ts:36-42`).
  - So an input with leading or trailing white space is not held by the
    car already stored for the same vehicle, and the unique key does not
    stop a second row (`Router.UntrimmedRegNrStored`).
  - The page trims the number before it calls createCar
    (`app/page.tsx:20`), so only a direct call of the procedure reaches
    this case.
  - The model keeps this behaviour rather than correcting it.
- **Number of suggestions.** The sanitiser keeps as many suggestions as the
  reply array holds; three are only asked for in the prompt.
- **Default title.** The placeholder title is the Norwegian
  "Vedlikeholdsoppgave N", where N is the 1-based position.
- **Description.** Every falsy description, such as `""` or `0`, becomes
  null, as a missing one does.
- **Missing bodywork.** A registry answer whose `tekniskKjoretoy` has no
  `karosseri` throws at `server/services/vegvesen.ts:54`. The model gives
  it a failure of its own (`MissingBodywork`), which createCar reports as
  `LookupFailed`.
- **Empty reply.** A successful reply that is an empty array makes the
  batch insert throw (`values([])`). The model gives this its own kind,
  `EmptyInsert`, and nothing is stored.
- **Foreign keys.** The router checks none itself: createTask checks
  neither `carId` nor `suggestionId`. So `Router.Store.Valid()` does not
  include `ReferencesResolve`. Each mutation instead proves that it keeps
  references resolving when they resolved before. For createTask this holds
  when the referenced car and suggestion exist.

## Model

| member | source | states |
|---|---|---|
| Text.TrimStart | server/services/vegvesen.ts:21 | the result is a suffix of the input that does not start with white space, and every character it drops is white space |
| Text.TrimEnd | server/services/vegvesen.ts:21 | the result is a prefix of the input that does not end with white space, and every character it drops is white space |
| Text.Trim | server/routers/_app.ts:36 | trim is never longer than its input and neither starts nor ends with white space |
| Text.TrimRemovesOnlySpace | server/routers/_app.ts:36 | trim keeps one contiguous slice of the input and removes only white space before and after it |
| Text.TrimIdempotent | server/services/vegvesen.ts:21 | trimming a trimmed string changes nothing |
| Text.UpperChar | server/services/vegvesen.ts:21 | toUpperCase maps one character to one or two; white space maps to itself and no other character yields white space |
| Text.ToUpper | server/routers/_app.ts:42 | toUpperCase gives a string at least as long as its input and at most twice as long |
| Text.ToUpperHead | server/routers/_app.ts:42 | upper-casing keeps a string non-empty and keeps whether its first character is white space |
| Text.ToUpperLast | server/routers/_app.ts:42 | upper-casing keeps a string non-empty and keeps whether its last character is white space |
| Text.ToUpperConcat | server/routers/_app.ts:42 | toUpperCase distributes over concatenation |
| Text.UpperCharIsUpper | server/services/vegvesen.ts:21 | upper-casing the upper case of a character changes nothing |
| Text.ToUpperIdempotent | server/routers/_app.ts:36 | upper-casing twice is upper-casing once |
| Text.TrimStartUpper | server/services/vegvesen.ts:21 | dropping leading white space commutes with upper-casing |
| Text.TrimEndUpper | server/services/vegvesen.ts:21 | dropping trailing white space commutes with upper-casing |
| Text.TrimUpperCommute | server/routers/_app.ts:36 | trim().toUpperCase() equals toUpperCase().trim() |
| Text.Prefix | server/services/ai.ts:59 | slice(0, n) is a prefix of the string whose length is the smaller of n and the string's length |
| Text.TrimDigits | server/services/vegvesen.ts:48 | trim leaves a run of digits unchanged |
| Text.NatToString | server/services/ai.ts:48 | the decimal text of a number is non-empty, all digits, without a leading zero, and no longer than the number |
| Text.DecimalRoundTrip | server/services/ai.ts:48 | reading back the decimal text of n gives n |
| Json.Get | server/services/ai.ts:48 | `item?.key` is defined exactly when item is an object that has the key, and then it is that property's value |
| Json.Member | server/services/vegvesen.ts:38-42 | `o?.key` is undefined for a null or undefined base; it is defined exactly when the base is an object that has the key, and then it is that property's value |
| Json.Truthy | server/services/vegvesen.ts:44 | null and undefined are falsy, and every array and object, even an empty one, is truthy |
| Json.ToJsString | server/services/ai.ts:59-60 | String of a string is the string itself, String of a non-negative integer is its decimal text, and only strings and arrays can give the empty text |
| Schema.NewTask | server/routers/_app.ts:137-145 | a new task is pending and not completed and carries the given id, car, title, description, suggestion and estimate |
| Ai.RoundHalfUp | server/services/ai.ts:53 | Math.round gives the integer n with n - 0.5 <= x < n + 0.5 |
| Ai.RoundHalfUpUnique | server/services/ai.ts:53 | no other integer lies in that window, so the rounding is exactly determined |
| Ai.SanitiseTitle | server/services/ai.ts:59 | a sanitised title has at most 120 characters |
| Ai.SanitiseDescription | server/services/ai.ts:60 | the description is null exactly when the raw one is falsy, and otherwise the prefix of its string form of length min(len, 500) |
| Ai.SanitiseEstimate | server/services/ai.ts:50-57 | an estimate is kept exactly when the raw value is a number whose rounding lies in [15, 240], and then it is that rounding |
| Ai.SanitiseItem | server/services/ai.ts:58-62 | every element, however malformed, yields a record within the three bounds |
| Ai.SanitiseReply | server/services/ai.ts:47-63 | the reply is accepted exactly when it is an array; the result has its length and order, element i sanitised with index i, and every record within bounds |
| Ai.GenerateTaskSuggestions | server/services/ai.ts:37-66 | a failed backend call or parse gives ReplyUnusable; otherwise the result is the sanitised reply, and every suggestion returned is within bounds |
| Ai.MissingTitleDefaults | server/services/ai.ts:48 | a null or missing title becomes "Vedlikeholdsoppgave " plus the 1-based index, whole for the first 100 elements |
| Ai.EmptyTitleKept | server/services/ai.ts:48 | an empty string title stays empty, because `??` keeps it |
| Ai.PresentTitleTruncated | server/services/ai.ts:59 | a present title is a prefix of its string form of length min(len, 120); a string of at most 120 characters is kept as is |
| Ai.NonNumberEstimateDropped | server/services/ai.ts:51 | an estimate that is not a number, such as the string "30", becomes null |
| Ai.OutOfRangeEstimateDropped | server/services/ai.ts:54-56 | an estimate whose rounding is outside [15, 240] becomes null rather than being clamped |
| Ai.EstimateExamples | server/services/ai.ts:53-56 | 45.6 gives 46, 14.5 gives 15, 240.5 and 500 give null, and the string "30" gives null |
| Ai.NonObjectItem | server/services/ai.ts:47-62 | an element that is not an object still yields a suggestion: the placeholder title and nulls |
| Vegvesen.RegNrKey | server/services/vegvesen.ts:21 | trim().toUpperCase() equals toUpperCase().trim(), so the key is the trimmed upper case of the input |
| Vegvesen.UntrimmedIsNotKey | server/routers/_app.ts:36-42 | an input starting or ending with white space upper-cases to something other than its lookup key |
| Vegvesen.RegNrKeyIdempotent | server/services/vegvesen.ts:21 | normalising a normalised registration number changes nothing |
| Vegvesen.NumberOfText | server/services/vegvesen.ts:48 | a non-empty run of digits reads as the number it spells |
| Vegvesen.ReadResponse | server/services/vegvesen.ts:32-55 | the checks in the code's order: a non-ok response fails with NotFound, an unreadable body with MalformedBody, a falsy date with MissingFirstRegistration, a NaN year with YearNotNumeric and a missing karosseri with MissingBodywork; success exactly when the date is truthy, its prefix reads as a number and the bodywork can be read; then make, model, year and colour are the defaulted fields |
| Vegvesen.CarLookUp | server/services/vegvesen.ts:20-56 | for the registry's answer at trim(upper(input)): NotFound exactly when it is not ok, MalformedBody exactly when its body does not parse, and success only with a truthy first-registration date |
| Vegvesen.LookupAsksNormalisedKey | server/services/vegvesen.ts:21-25 | the lookup depends on the registry only through its answer for trim(upper(input)) |
| Vegvesen.YearFromDate | server/services/vegvesen.ts:48-52 | a date that starts with four digits gives a successful lookup whose year is those digits' value |
| Vegvesen.DigitPrefixYear | server/services/vegvesen.ts:48 | a four-digit prefix reads as its decimal value |
| Vegvesen.NonNumericTextIsNaN | server/services/vegvesen.ts:48-52 | a prefix starting with anything other than white space, a sign or a digit is NaN |
| Vegvesen.YearExamples | server/services/vegvesen.ts:48-52 | "20180315" and "2018-03-15" give 2018, and "ukjent" is NaN |
| Vegvesen.SuccessIgnoresMakeAndModel | server/services/vegvesen.ts:40-41 | two answers that agree on status, body presence, date and bodywork both succeed or both fail: make and model never cause a failure |
| Vegvesen.MissingMakeModelUnknown | server/services/vegvesen.ts:40-41 | a missing make and model become "Ukjent" |
| Vegvesen.TextOr | server/services/vegvesen.ts:40-41 | `?? fallback` gives the fallback for null or undefined and keeps a string as it is |
| Vegvesen.Color | server/services/vegvesen.ts:54 | the colour is null without tekniskKjoretoy, and null exactly when karosseri.farge is null or missing |
| Vegvesen.ColorOfBodywork | server/services/vegvesen.ts:54 | the colour is the string at karosseri.farge, and null when farge is missing or null or when there is no tekniskKjoretoy |
| Router.TasksOfCar | server/routers/_app.ts:125-128 | the tasks selected for a car are no more than the table holds and every one has that car's id |
| Router.TasksOfCarMembers | server/routers/_app.ts:105 | the tasks of a car are exactly the rows with its id |
| Router.SuggestionsOfCar | server/routers/_app.ts:62-65 | the suggestions of a car are exactly the rows with its id |
| Router.TasksOfCarOrdered | server/routers/_app.ts:125-130 | on a table with ascending ids the tasks of a car keep that order, so each matching row appears once and the count `existingTasks.length` is the number of the car's rows |
| Router.SuggestionsOfCarOrdered | server/routers/_app.ts:62-65 | on a table with ascending ids the suggestions of a car keep that order, so each matching row appears once |
| Router.TasksOfSuggestion | server/routers/_app.ts:192-197 | no task is linked to the suggestion exactly when no task has it as suggestionId |
| Router.FindCar | server/routers/_app.ts:18-22 | a found car is in the table with that id; nothing is found exactly when no car has the id |
| Router.FindTask | server/routers/_app.ts:166 | a found task is in the table with that id; nothing is found exactly when no task has the id |
| Router.NewestFirst | server/routers/_app.ts:12 | `order by id desc` on the id-ordered table is its reversal |
| Router.WithoutSuggestion | server/routers/_app.ts:204 | the delete keeps exactly the rows with another id |
| Router.CompletedFlag | server/routers/_app.ts:164 | completed is the explicit input when given, and otherwise whether the new status is completed |
| Router.SetTaskStatus | server/routers/_app.ts:160-167 | the update keeps the number of rows; what each row becomes is stated by SetTaskStatusPointwise |
| Router.SetTaskStatusPointwise | server/routers/_app.ts:160-167 | the update sets status and completed on exactly the rows with the id and leaves every other row as it was |
| Router.SuggestionRows | server/routers/_app.ts:89-94 | one row per suggestion, row i with id firstId + i, the car's id, and suggestion i's title, description and estimate |
| Router.SuggestionRowsFacts | server/routers/_app.ts:86-96 | the inserted rows number as many as the suggestions, take consecutive ids from the counter, carry the car's id and keep the sanitiser's bounds |
| Router.TasksOfCarAppend | server/routers/_app.ts:135-146 | appending a task adds it to its own car's tasks and to no other's |
| Router.InsertKeepsQuota | server/routers/_app.ts:125-146 | inserting below the quota adds one task to that car and none to any other, so no car within the quota leaves it |
| Router.SetTaskStatusKeepsCarTasks | server/routers/_app.ts:160-167 | a status update keeps each car's task count |
| Router.SetTaskStatusKeepsCounts | server/routers/_app.ts:160-167 | a status update keeps every car's task count at once |
| Router.SetTaskStatusKeepsQuota | server/routers/_app.ts:160-167 | a status update never breaks the quota |
| Router.SetTaskStatusMissingId | server/routers/_app.ts:160-171 | an update of an id no task has leaves the table as it was |
| Router.FindAfterSetTaskStatus | server/routers/_app.ts:160-173 | the returned row is the old row with the new status and completed flag, and there is none when there was no such task |
| Router.WithoutSuggestionKeepsKeys | server/routers/_app.ts:204 | deleting keeps the remaining suggestion keys ascending and below the counter |
| Router.WithoutAbsentSuggestion | server/routers/_app.ts:204 | deleting an id no suggestion has changes nothing |
| Router.WithoutSuggestionCount | server/routers/_app.ts:204 | with unique keys, deleting an existing suggestion removes exactly one row, and deleting a missing one none |
| Router.DeleteUnusedKeepsReferences | server/routers/_app.ts:192-204 | deleting a suggestion no task refers to keeps every foreign key resolved |
| Router.DeleteUsedBreaksReference | server/routers/_app.ts:192-201 | deleting a suggestion that a task refers to would leave that task's suggestionId dangling, which is why the delete is refused |
| Router.AnyTransitionAllowed | server/routers/_app.ts:155-167 | in any table, the update of an existing task finds it and gives it the new status and derived flag, whatever its old status: no transition is refused |
| Router.UntrimmedRegNrStored | server/routers/_app.ts:36-42 | an input with leading or trailing white space has the same lookup key as the car stored under that key, yet is not taken by it, so the vehicle can be stored twice |
| Router.CarInsertKeepsKeys | db/schema.ts:10-11 | a new car with the next id and an unused registration number keeps the car keys ascending and reg_nr unique |
| Router.CarInsertKeepsReferences | db/schema.ts:23-25 | adding a car keeps every foreign key resolved |
| Router.SuggestionInsertKeepsKeys | db/schema.ts:22 | a batch with consecutive ids from the counter keeps the suggestion keys ascending |
| Router.SuggestionInsertKeepsReferences | db/schema.ts:23-25 | suggestions for existing cars keep every foreign key resolved |
| Router.TaskInsertKeepsKeys | db/schema.ts:35 | a task with the next id keeps the task keys ascending |
| Router.TaskInsertKeepsReferences | db/schema.ts:36-41 | a task whose car and suggestion exist keeps every foreign key resolved |
| Router.SetTaskStatusKeepsKeys | db/schema.ts:35 | a status update keeps the task keys valid |
| Router.SetTaskStatusKeepsRows | server/routers/_app.ts:160-167 | a status update keeps every task row within the createTask input schema |
| Router.SetTaskStatusKeepsReferences | db/schema.ts:36-41 | a status update keeps every foreign key resolved |
| Router.CarInsertKeepsValid | server/routers/_app.ts:39-48 | inserting a car keeps the table invariant |
| Router.SuggestionInsertKeepsValid | server/routers/_app.ts:86-96 | inserting sanitised suggestions keeps the table invariant |
| Router.TaskInsertKeepsValid | server/routers/_app.ts:135-146 | inserting a valid task keeps the table invariant |
| Router.SetTaskStatusKeepsValid | server/routers/_app.ts:160-167 | a status update keeps the table invariant and resolved references |
| Router.DeleteSuggestionKeepsValid | server/routers/_app.ts:204 | deleting a suggestion keeps the table invariant and removes one row exactly when the id exists |
| Router.Store.constructor | db/schema.ts:9-51 | the empty database meets the invariant, the quota and the foreign keys |
| Router.Store.GetCars | server/routers/_app.ts:11-13 | getCars returns every car exactly, ordered by id descending |
| Router.Store.GetCarById | server/routers/_app.ts:15-27 | getCarById succeeds exactly when a car has the id, returning that car, and fails with NotFound otherwise |
| Router.Store.GetTaskSuggestions | server/routers/_app.ts:59-66 | getTaskSuggestions returns exactly the suggestions of the car, each once, in ascending id order |
| Router.Store.GetTasks | server/routers/_app.ts:102-106 | getTasks returns exactly the tasks of the car, each once, in ascending id order |
| Router.Store.CreateCarUsing | server/routers/_app.ts:35-55 | succeeds exactly when the lookup of the normalised key succeeds and upper(input) is not yet stored; the new row has the next id, upper(input) untrimmed and the looked-up fields; every failure is LookupFailed and changes nothing |
| Router.Store.FetchAISuggestionsUsing | server/routers/_app.ts:70-98 | success exactly when the car exists and the generator returns a non-empty batch; an unknown car gives NotFound, a generator failure GenerationFailed and an empty batch EmptyInsert; on success one row per suggestion, in order, with that car's id and fresh ids, is appended after the existing rows; failures change nothing |
| Router.Store.CreateTask | server/routers/_app.ts:124-148 | fails with QuotaExceeded, changing nothing, exactly when the car has 10 or more tasks; otherwise appends one pending, not completed task with a fresh id and the given fields, keeps every car within the quota, and touches no other table |
| Router.Store.UpdateTaskStatus | server/routers/_app.ts:159-173 | succeeds exactly when a task has the id; the failure is NotFound and changes nothing; on success the table is the update of that row alone, and the returned row has the new status and derived completed flag |
| Router.Store.DeleteTaskSuggestion | server/routers/_app.ts:179-206 | fails with NotFound for an absent id and with InUse when a task refers to it, changing nothing; otherwise removes exactly that one suggestion and touches no other table |
| App.LookupKeyNormalisedOnce | server/routers/_app.ts:36-38 | the client's second normalisation of the already normalised key changes nothing |
| App.CreateCar | server/routers/_app.ts:29-56 | createCar over carLookUp: success exactly when the registry's answer for trim(upper(input)) reads as a car and upper(input) is not yet stored, with the new row as above |
| App.FetchAISuggestions | server/routers/_app.ts:68-99 | fetchAISuggestions over generateTaskSuggestions: success exactly when the car exists and the sanitised reply is a non-empty array, with every other outcome in terms of the generator's result for the stored car |

## Left out

- The React pages and layout, and the database connection and configuration, are not part of this model.
- The HTTP request to the registry and the text-generation call with its prompt are function parameters. The model says which key the registry is asked for, not how the request or the prompt is built.
- `JSON.parse` and `response.json()` are not modelled. The model starts from a parsed `Json` value; a parse that throws is `None`.
- Vegvesen.NumberOfText: `Number(text)` is modelled only for optional white space, an optional sign and decimal digits; every other form, such as a fraction, an exponent, a trailing dot (`"201."`), a hexadecimal, binary or octal prefix (`"0x1F"`, `"0b11"`, `"0o17"`) or `Infinity`, reads as NaN. The date prefix has four characters, so this abstraction is narrower than JavaScript's `Number`.
- JSON numbers are read as exact reals: the rounding of `JSON.parse` to doubles is not modelled, so neither is an overflow to `Infinity` (as for `1e400`) nor a value that rounds to a different double (such as `14.49999999999999999`, which JavaScript reads as 14.5).
- Json.ToJsString writes non-integral numbers as exact decimals of at most 20 fraction digits, never in exponent form, and writes every object as "[object Object]".
- Text.UpperChar upper-cases ASCII and Latin-1 only, including ß to "SS"; characters of other scripts are left as they are.
- Strings are sequences of `char`, not of UTF-16 code units, so lengths in `slice` count characters.
- The `created_at` timestamps, `console.error` logging and the localized error texts are not modelled; errors are `ApiError` kinds.
- The check-then-insert race on the task quota is not modelled, because the model is sequential.
- Storage-level foreign-key checks are not modelled; the router itself checks none.
- Vegvesen.TextOr and Vegvesen.Color: a make, model or colour that is present but not a string is stored as its `String()` text (5 as "5", true as "true", an object as "[object Object]"). The code passes such a raw value unchanged to the insert, and what the database driver does with it is not modelled.
- Router.Store.UpdateTaskStatus: the method does not state quota preservation itself. It states that the new table is `SetTaskStatus` of the old one, and `Router.SetTaskStatusKeepsQuota` proves that `SetTaskStatus` never breaks the quota.
- The user interface that turns a suggestion into a task (a createTask call with that suggestionId) is part of the pages, not of the router.
