# Medical appointment service — a verified Dafny model

This project models the appointment service of `src/index.ts`: a keyed store of
medical appointments and the operations over it. Callers can schedule, cancel,
complete, remind, update, annotate and delete appointments. They can also read
one appointment, all of them, a name search, the appointments in an upcoming
time window, or the canceled ones.

Layout, one module per file:

- `appointments.dfy` (`Appointments`): the record, the payload, `Nat64`, the
  error kinds and the `Result` / `Option` values.
- `text.dfy` (`Text`): JavaScript's `trim`, `toLowerCase` (ASCII letters only)
  and `includes`, each with a contract that characterises it.
- `uuid.dfy` (`Uuid`): `isValidUUID`. The body is built from the parts of the
  regular expression. Its contract states the result position by position.
- `stable_map.dfy` (`StableMap`): the ordered store's `values()`, which lists
  the records by ascending key.
- `queries.dfy` (`Queries`): `filter` and the three filtered queries over a
  listing of the values.
- `transitions.dfy` (`Transitions`): each update operation as a pure function
  from the old store to a result and a new store. The store invariant and the
  lemmas about sequences of calls are here too.
- `service.dfy` (`Service`): the class `AppointmentService`. It owns the store
  as a `map` field. The update operations are methods that read, branch and
  write that field. Each method is proved to compute exactly its
  `Transitions` function. The read operations are functions of the field.
- `scenarios.dfy` (`Scenarios`): runs of several operations and what the
  queries see afterwards.

The host clock `ic.time()` becomes a parameter `now`. The id that `uuidv4()`
returns becomes a parameter `freshId`. A schedule requires that id to have the
UUID layout, as the generator's output always does. Nothing requires it to be
unused: the source inserts without checking, so an existing record under that
id would be overwritten. `ScheduleAddsOne` states the growth of the store for
an unused id. The class invariant (`Transitions.WellFormed`) says that every
record sits under its own `id` and that every key has the UUID layout. Hence
every stored record can be deleted (`DeleteStoredSucceeds`).

Behaviours of `src/index.ts` that the model keeps as written:

- Cancel, complete and send-reminder leave `updatedAt` as it was. They do not
  stamp the current time.
- `updateAppointment` is the only operation that changes `appointmentDate`. It replaces the
  names and the date together. It refuses a blank name or a date before `now`,
  as scheduling does. It checks that the id exists before it validates.
- `getUpcomingAppointments` takes a `nat64` day count, so it has no
  negative-count error.
- Ids are not checked for freshness (see above).

## Model

| member | source | states |
|---|---|---|
| Text.TrimStart | src/index.ts:59 | the result is a suffix of the input; only whitespace was dropped; it does not start with whitespace |
| Text.TrimEnd | src/index.ts:59 | the result is a prefix of the input; only whitespace was dropped; it does not end with whitespace |
| Text.Trim | src/index.ts:59 | the result is a contiguous slice of the input with only whitespace before and after it, and it is empty or starts and ends with a non-whitespace character |
| Text.IsBlank | src/index.ts:59 | `trim().length > 0` fails exactly when every character is JavaScript whitespace |
| Text.ToLower | src/index.ts:44 | same length; no ASCII capital remains; capitals move to lower case; all other characters are kept |
| Text.ToLowerIdempotent | src/index.ts:44-49 | lower-casing twice equals lower-casing once |
| Text.Includes | src/index.ts:48-49 | `includes` holds exactly when the needle occurs at some position of the haystack |
| Uuid.HexGroups | src/index.ts:281 | `([\da-f]{4}-){n}` matches exactly the strings of length 5n with a dash at every fifth place and hex digits elsewhere |
| Uuid.IsValidUuid | src/index.ts:280-282 | accepted exactly when the id is 36 characters long, with dashes at 8, 13, 18 and 23 and a hex digit of either case everywhere else |
| Uuid.IgnoresCase | src/index.ts:281 | under the `i` flag, lower-casing an id never changes the verdict |
| Uuid.RejectsMissingDashes | src/index.ts:281 | 32 hex digits without dashes are refused |
| Uuid.RejectsNonHexDigit | src/index.ts:281 | a non-hex letter in the last group is refused |
| StableMap.SortedKeys | src/index.ts:38 | the store's keys, each exactly once, in strictly ascending order |
| StableMap.ValuesOf | src/index.ts:139 | `values()` has one entry per key: entry `i` is the record under the `i`-th of a list holding every key exactly once, so it lists exactly the stored records |
| StableMap.ValuesOrderedById | src/index.ts:38 | in a store whose records sit under their own ids, `values()` lists them by strictly ascending id |
| StableMap.ListsStored | src/index.ts:139 | every stored record appears in `values()` |
| Queries.Filter | src/index.ts:46-50 | `filter` keeps an order-preserving subsequence; each accepted element keeps its multiplicity; rejected elements are dropped |
| Queries.FilterKeepsAll | src/index.ts:46-50 | a filter that accepts everything returns its input |
| Queries.FilterMonotone | src/index.ts:232-237 | a more permissive filter keeps a superset, as a subsequence |
| Queries.Search | src/index.ts:42-55 | the result is a subsequence of the listing and keeps every copy, with its multiplicity, of exactly the records whose lower-cased patient or doctor name contains the lower-cased query |
| Queries.SearchEmptyQuery | src/index.ts:44-50 | the empty query returns every record, in order |
| Queries.SearchIgnoresQueryCase | src/index.ts:44 | a query and its lower-cased form give the same result |
| Queries.SearchFindsPatientName | src/index.ts:48 | a record is found by its own patient name |
| Queries.SearchFindsSubstring | src/index.ts:44-49 | searching "sm" finds a patient named "John Smith" |
| Queries.Upcoming | src/index.ts:226-243 | the result is a subsequence keeping every copy, with its multiplicity, of exactly the scheduled records with `now < date < now + daysAhead * 86_400_000_000_000`, computed without overflow |
| Queries.UpcomingExcludesBounds | src/index.ts:236 | a date equal to `now` or to the window's end is excluded |
| Queries.UpcomingZeroDays | src/index.ts:228-236 | a zero-day window is empty |
| Queries.UpcomingMonotone | src/index.ts:228-236 | a wider window keeps every record of a narrower one, in order |
| Queries.Canceled | src/index.ts:247-258 | the result is a subsequence keeping every copy, with its multiplicity, of exactly the records that are not scheduled |
| Queries.UpcomingCanceledDisjoint | src/index.ts:236 | no record is both upcoming and canceled |
| Transitions.IsInvalidPayload | src/index.ts:57-62 | invalid exactly when the doctor or the patient name is all whitespace, or the date is before `now`; a date equal to `now` passes |
| Transitions.Schedule | src/index.ts:64-92 | refused with the store unchanged exactly when the payload is invalid; otherwise the new record has the payload's fields, `isScheduled`, no reminder, empty notes, `createdAt = now` and no `updatedAt`, and only the key `freshId` changes |
| Transitions.Cancel | src/index.ts:95-111 | not found or already canceled leave the store unchanged; otherwise only that record's `isScheduled` becomes false (`updatedAt` kept) and no other key changes; keeps the store invariant |
| Transitions.Complete | src/index.ts:261-277 | the same as cancel, with its own error when the record is not scheduled |
| Transitions.SendReminder | src/index.ts:114-133 | succeeds exactly for a stored, scheduled record whose reminder is not yet sent; then only `reminderSent` becomes true; failures leave the store unchanged |
| Transitions.UpdateAppointment | src/index.ts:156-180 | a missing id is reported whatever the payload; an invalid payload leaves the store unchanged; otherwise names and date are replaced, `updatedAt = now`, and id, state flags, notes and `createdAt` are kept |
| Transitions.UpdateMedicalRecord | src/index.ts:204-222 | any text, the empty one included, replaces the notes and sets `updatedAt = now`; only that record changes |
| Transitions.Delete | src/index.ts:183-201 | a non-UUID id is refused with the store untouched; a missing id is reported; otherwise the prior record is returned in `Some` and only its key is removed |
| Transitions.Get | src/index.ts:147-153 | succeeds exactly for a stored id and returns its record; otherwise not found |
| Transitions.UpdateKeepsWellFormed | src/index.ts:104-105 | rewriting a record without changing its id keeps every record under its own UUID key |
| Transitions.ScheduleKeepsWellFormed | src/index.ts:72-86 | inserting under a UUID keeps the store invariant |
| Transitions.ScheduleThenGet | src/index.ts:86-88 | the scheduled record reads back unchanged under `freshId` |
| Transitions.ScheduleAddsOne | src/index.ts:86 | with an unused id, a successful schedule adds exactly one record |
| Transitions.CancelTwiceFails | src/index.ts:99-101 | a second cancel of the same id always fails |
| Transitions.CompleteAfterCancelFails | src/index.ts:265-267 | complete after cancel fails, and so does cancel after complete |
| Transitions.CancelCompleteSameEffect | src/index.ts:104-105 | cancel and complete leave the same store and succeed on the same records with the same value |
| Transitions.ReminderTwiceFails | src/index.ts:118-120 | a reminder goes out at most once per record |
| Transitions.DeleteThenGet | src/index.ts:192 | after a successful delete the id is not found |
| Transitions.DeleteStoredSucceeds | src/index.ts:187-197 | in a well-formed store every stored record can be deleted by its id |
| Transitions.CreatedAtStable | src/index.ts:104 | cancel, complete, reminder and both updates keep every record's `createdAt` |
| Service.AppointmentService.constructor | src/index.ts:38 | the service starts with an empty store that satisfies the invariant |
| Service.AppointmentService.ScheduleAppointment | src/index.ts:64-92 | returns and stores exactly what `Transitions.Schedule` gives; keeps the invariant |
| Service.AppointmentService.CancelAppointment | src/index.ts:95-111 | returns and stores exactly what `Transitions.Cancel` gives; keeps the invariant |
| Service.AppointmentService.SendReminder | src/index.ts:114-133 | returns and stores exactly what `Transitions.SendReminder` gives; keeps the invariant |
| Service.AppointmentService.UpdateAppointment | src/index.ts:156-180 | returns and stores exactly what `Transitions.UpdateAppointment` gives; keeps the invariant |
| Service.AppointmentService.DeleteAppointment | src/index.ts:183-201 | returns and stores exactly what `Transitions.Delete` gives; keeps the invariant |
| Service.AppointmentService.UpdateMedicalRecord | src/index.ts:204-222 | returns and stores exactly what `Transitions.UpdateMedicalRecord` gives; keeps the invariant |
| Service.AppointmentService.CompleteAppointment | src/index.ts:261-277 | returns and stores exactly what `Transitions.Complete` gives; keeps the invariant |
| Service.AppointmentService.GetAppointments | src/index.ts:136-144 | one entry per stored key; lists exactly the stored records |
| Service.AppointmentService.GetAppointment | src/index.ts:147-153 | succeeds exactly for a stored id, with its record; otherwise not found |
| Service.AppointmentService.SearchAppointments | src/index.ts:41-55 | a subsequence of `values()` keeping every copy, with its multiplicity, of exactly the stored records that match the lower-cased query |
| Service.AppointmentService.GetUpcomingAppointments | src/index.ts:225-243 | a subsequence of `values()` keeping every copy, with its multiplicity, of exactly the scheduled stored records strictly inside the window |
| Service.AppointmentService.GetCanceledAppointments | src/index.ts:246-258 | a subsequence of `values()` keeping every copy, with its multiplicity, of exactly the stored records that are not scheduled |
| Scenarios.ScheduleCancelCancel | src/index.ts:64-111 | schedule Alice with Dr. Lee for tomorrow, then cancel succeeds and a second cancel reports it already canceled |
| Scenarios.BlankPatientRefused | src/index.ts:69-71 | an empty patient name is refused and the empty store stays empty |
| Scenarios.ReminderForMissingId | src/index.ts:131 | a reminder for an unknown id reports not found |
| Scenarios.TwoSchedulesListed | src/index.ts:86-88 | two schedules under distinct unused ids grow `values()` by two and list both records |
| Scenarios.CanceledRecordListed | src/index.ts:104-105 | a canceled record is listed by the canceled query and not by the upcoming one |
| Scenarios.ScheduledRecordFound | src/index.ts:86 | a scheduled record is found by searching for its patient name |

## Left out

- The Azle platform wiring is not modelled: the `$query`/`$update` decorators, the `match` and `Result` helpers, and Candid encoding. Inputs are typed values, and `nat64` is a bounded integer subtype.
- The stable-memory parameters of `StableBTreeMap` are not modelled: the memory id and the 44-byte key and 1024-byte value limits. An insert that exceeds a limit fails inside the library, so the model's inserts always succeed.
- The `try`/`catch` wrappers are not modelled. The exceptions they catch come from library code outside this model. So the model's queries return plain sequences and never an error.
- Error message texts become the tags of `Appointments.Error`.
- `ic.time()` becomes the parameter `now`.
- `uuidv4()` becomes the parameter `freshId`. The `globalThis.crypto` workaround, which draws random bytes from `Math.random`, is not modelled.
- The `console.log` line of the reminder is output only and is not modelled.
- Text.ToLower: only ASCII capitals are lower-cased. JavaScript's full Unicode case mapping, including mappings that change length, is not modelled. This affects `Queries.Search` for non-ASCII names.
- Text.Includes: strings are sequences of Unicode scalar values, not UTF-16 code units. This matters only for needles that would split a surrogate pair.
- StableMap.ValuesOf: keys are ordered by comparing characters one by one. The real map orders keys by their serialized bytes, so the listing order for the same keys may differ. `StableMap.SortedKeys` and `StableMap.ValuesOrderedById` state the character-by-character order, so they describe this model's listing order rather than the byte order of the real map.
