# Mock outpatient backend, modelled in Dafny

The portal's browser-side mock backend, `src/mock/api.ts`, keeps five
module-level collections: departments, experts, schedules, appointments and
the system settings. It serves `departmentAPI`, `expertAPI`, `scheduleAPI`,
`appointmentAPI` and `settingsAPI` over them. Each call looks a record up by
id with `findIndex`/`find`, so the first match wins. It then changes the
arrays in place: `push`, `splice(index, 1)`, assignment at an index,
`availableSlots -= 1` / `+= 1`, and `Object.assign` on the settings.

The model has four modules:

- `Records` (`records.dfy`) holds the records as datatypes. Each `Partial<T>`
  patch is a datatype of `Option` fields. The spread `{ ...old, ...patch }`
  becomes a merge in which a field the patch carries wins, `id` included.
- `Tables` (`tables.dfy`) holds the array idioms the backend uses, as
  functions on sequences: first-match `findIndex`, a one-element `splice`,
  `filter`, and the "for each victim, find its id and splice" loop of the
  cascade. Record ids are never assumed unique, because nothing in the
  backend keeps them unique.
- `Ledger` (`ledger.dfy`) states what each changing call does to a table as
  a function of the table before the call. It proves the properties of slot
  accounting, schedule generation and the expert cascade.
- `MockApi` (`store.dfy`) is a `Store` class with the five collections as
  fields and one method per API call. A method's `modifies` clause names the
  only collections it may change, so "nothing else changes" follows from the
  frame. `generateSchedules` and the `deleteExpert` cascade are loops, proved
  against the `Ledger` functions. Two client methods chain calls on one store:
  booking then cancelling, and generating twice.

Where the backend is looser than a booking ledger would be, the model keeps
what the code does:

- `createAppointment` takes a slot without checking that one is left. A
  ledger with a capacity check would refuse this booking; the backend does
  not. No `0 <= availableSlots` invariant is claimed, and `Ledger.BookingHasNoCapacityCheck`
  shows a count going from 0 to -1.
- Cancelling gives the slot back only to the first schedule that still has
  the appointment's schedule id.
- There is no payment or refund logic in the backend, so none is modelled.

The shared types file describes a later version of the records. The field
lists of experts, schedules, appointments and settings therefore follow the
records that `src/mock/data.ts` creates and that `src/mock/api.ts` writes.

## Model

| member | source | states |
|---|---|---|
| Tables.IndexOf | src/mock/api.ts:35 | `findIndex` by id: -1 or a position in the table, and a position it answers holds a record with the id |
| Tables.IndexOfSpec | src/mock/api.ts:35 | `findIndex` answers -1 exactly when no record has the id, and otherwise no earlier record has it (first match) |
| Tables.RemoveAt | src/mock/api.ts:47 | `splice(index, 1)`: one shorter, earlier records in place, later ones shifted down by one, same multiset minus the removed record |
| Tables.Filter | src/mock/api.ts:67 | `filter`: no longer than the input, and each record occurs as often as in the input if it passes the predicate, else not at all |
| Tables.FilterAppend | src/mock/api.ts:67 | `filter` keeps table order: filtering a concatenation gives the filtered parts in the same order |
| Tables.FilterSingle | src/mock/api.ts:67 | a single record is kept exactly when it passes the predicate |
| Tables.RemoveFirstWithId | src/mock/api.ts:45-47 | find-then-splice: unchanged when the id is absent, otherwise the table with the first record of that id removed |
| Tables.RemoveEach | src/mock/api.ts:96-99 | the cascade loop shape: for each victim, splice out the first record with the victim's id; it removes at most one record per victim, and what is left is a sub-multiset of the input (nothing altered or invented) |
| Tables.RemoveEachSparesOtherIds | src/mock/api.ts:96-103 | the cascade loop removes only records carrying some victim's id: a record whose id no victim has keeps its multiplicity |
| Tables.RemoveEachOfFilter | src/mock/api.ts:96-99 | with unique ids, splicing out by id every record that satisfies a predicate gives exactly the records that satisfy its complement, in order |
| Tables.RemoveFirstWithUniqueId | src/mock/api.ts:92-94 | with unique ids, splicing out the first record with an id gives exactly the records with other ids |
| Records.DepartmentWithId | src/mock/api.ts:25-28 | the new department carries the given id, and every other field is the draft's |
| Records.ExpertWithId | src/mock/api.ts:72-75 | the new expert carries the given id, and every other field is the draft's |
| Records.MergeDepartmentLaws | src/mock/api.ts:37 | the spread merge: an empty patch changes nothing, merging the same patch twice equals merging it once, and for each of `id`, `name`, `specialties` and `description` an absent field keeps the old value and a present one wins |
| Records.MergeExpertLaws | src/mock/api.ts:84 | the same laws for experts, field by field for all seven fields (`id`, `name`, `departmentId`, `title`, `specialty`, `maxAppointments`, `description`) |
| Records.MergeScheduleLaws | src/mock/api.ts:135 | the same laws for schedules: `availableSlots` is kept when the patch omits it and replaced when the patch carries it |
| Records.MergeAppointmentLaws | src/mock/api.ts:217 | the same laws for appointments: the status is kept or replaced accordingly |
| Records.MergeSettingsLaws | src/mock/api.ts:260 | `Object.assign` on the settings: `requireConfirmation` is kept or replaced accordingly, and an empty patch changes nothing |
| Ledger.AdjustSlotsSpec | src/mock/api.ts:204-207 | the slot counter step: same length; no change when no schedule has the id; only the first schedule with the id changes, and only its `availableSlots`, which moves by exactly `delta` with no bound |
| Ledger.AdjustSlotsKeepsIndex | src/mock/api.ts:229 | after a slot change every id is found at the same position as before |
| Ledger.AdjustSlotsInverse | src/mock/api.ts:231 | giving back to a schedule id what was taken from it restores every schedule (in exact arithmetic; see Left out) |
| Ledger.AdjustSlotsKeepsWholeCounts | src/mock/api.ts:204-207 | a whole-number slot change keeps every whole-number count whole |
| Ledger.InitialStatus | src/mock/api.ts:199 | a new appointment is pending exactly when confirmation is required, and confirmed exactly when it is not |
| Ledger.NewAppointment | src/mock/api.ts:196-201 | the stored appointment is the draft plus the new id, the creation time and the initial status |
| Ledger.BookThenCancelRestores | src/mock/api.ts:204-234 | with a fresh id, the cancellation finds the new appointment at the end, splicing it out gives back the old list, and the two slot changes restore every schedule (in exact arithmetic; see Left out) |
| Ledger.BookingHasNoCapacityCheck | src/mock/api.ts:204-207 | booking a schedule whose count is 0 leaves it at -1: nothing enforces a lower bound |
| Ledger.SlotCapacity | src/mock/api.ts:154 | each bucket gets exactly a third of the expert's daily maximum, unrounded |
| Ledger.WholeCapacity | src/mock/api.ts:154 | a generated count is a whole number exactly when the expert's daily maximum is a multiple of 3 |
| Ledger.NewSchedule | src/mock/api.ts:155-162 | a generated schedule has id `sched-<expertId>-<date>-<slot>`, the expert, date and bucket, and `availableSlots == maxSlots` = the bucket capacity |
| Ledger.AddIfMissingSpec | src/mock/api.ts:149-165 | one generator step: the table is unchanged exactly when the triple exists, otherwise exactly the new schedule is appended; afterwards the triple exists; old records kept as a prefix; the appended record is a fresh triple |
| Ledger.AddSlotsSpec | src/mock/api.ts:148-166 | the bucket pass only appends; each appended schedule is the expert's for a visited bucket on the date, for a triple not present before it; afterwards every bucket exists |
| Ledger.AddForExpertsSpec | src/mock/api.ts:147-167 | generation only appends, never duplicates an existing (expert, date, bucket) triple, appends only schedules of target experts, and leaves every target with every bucket on the date |
| Ledger.Targets | src/mock/api.ts:145 | the experts visited are all experts when no list is given; otherwise exactly the experts whose id is listed, each as often as in the expert table |
| Ledger.GenerationKeepsTriplesDistinct | src/mock/api.ts:149-165 | a table without duplicate triples still has none after generation |
| Ledger.AddSlotsCovered | src/mock/api.ts:153 | a bucket pass over buckets that all exist appends nothing |
| Ledger.AddForExpertsCovered | src/mock/api.ts:153 | an expert pass over experts whose buckets all exist appends nothing |
| Ledger.GenerationIdempotent | src/mock/api.ts:149-153 | generating a second time for the same date and experts leaves the table as the first time left it |
| Ledger.ExpertsIn | src/mock/api.ts:67 | exactly the experts of the department, with their multiplicities |
| Ledger.SchedulesOf | src/mock/api.ts:118 | exactly the schedules of the expert, with their multiplicities |
| Ledger.SchedulesOn | src/mock/api.ts:123 | exactly the schedules on the date |
| Ledger.SchedulesOfOn | src/mock/api.ts:128 | exactly the schedules of the expert on the date |
| Ledger.AppointmentsOfPatient | src/mock/api.ts:181 | exactly the appointments of the patient |
| Ledger.AppointmentsOf | src/mock/api.ts:186 | exactly the appointments with the expert |
| Ledger.AppointmentsOn | src/mock/api.ts:191 | exactly the appointments on the date |
| Ledger.ExpertsWithout | src/mock/api.ts:92-94 | the intended expert table after a deletion: every expert with another id, none with this one |
| Ledger.ExpertRemovalWithUniqueIds | src/mock/api.ts:92-94 | with unique ids, splicing out the found expert is exactly that intended table |
| Ledger.CascadeSchedules | src/mock/api.ts:96-99 | the schedule cascade as written removes at most one schedule per schedule of the expert, and every schedule left was in the table before, as often at most |
| Ledger.CascadeAppointments | src/mock/api.ts:100-103 | the appointment cascade as written removes at most one appointment per appointment with the expert, and every appointment left was in the table before, as often at most |
| Ledger.SchedulesWithout | src/mock/api.ts:96-99 | the intended result of the cascade: no schedule of the expert, every other schedule kept |
| Ledger.AppointmentsWithout | src/mock/api.ts:100-103 | the intended result of the cascade: no appointment with the expert, every other appointment kept |
| Ledger.CascadeWithUniqueIds | src/mock/api.ts:96-103 | with unique ids, the cascade as written gives exactly the intended schedules and appointments, in order |
| Ledger.DeletionWithUniqueIds | src/mock/api.ts:92-103 | the expert splice and both cascades give the intended tables, each whenever its own tables have unique ids |
| Ledger.CascadeRemovesWrongScheduleOnSharedId | src/mock/api.ts:96-99 | with two schedules sharing an id, the cascade as written removes the other expert's schedule and keeps the deleted expert's |
| MockApi.Store.constructor | src/mock/api.ts:9 | the store starts from the seeded collections |
| MockApi.Store.GetDepartments | src/mock/api.ts:13-16 | returns the department table |
| MockApi.Store.GetDepartment | src/mock/api.ts:18-21 | none exactly when no department has the id, otherwise the first department with the id |
| MockApi.Store.CreateDepartment | src/mock/api.ts:23-31 | appends exactly the draft with the new id and returns it; nothing else changes |
| MockApi.Store.UpdateDepartment | src/mock/api.ts:33-41 | absent id: undefined and no change; otherwise only the first department with the id is replaced, by its merge with the patch, which is returned |
| MockApi.Store.DeleteDepartment | src/mock/api.ts:43-51 | true exactly when a department has the id; then that first department is spliced out; otherwise no change |
| MockApi.Store.GetExperts | src/mock/api.ts:55-58 | returns the expert table |
| MockApi.Store.GetExpert | src/mock/api.ts:60-63 | none exactly when no expert has the id, otherwise the first expert with the id |
| MockApi.Store.GetExpertsByDepartment | src/mock/api.ts:65-68 | the experts of the department, in table order |
| MockApi.Store.CreateExpert | src/mock/api.ts:70-78 | appends exactly the draft with the new id and returns it |
| MockApi.Store.UpdateExpert | src/mock/api.ts:80-88 | absent id: undefined and no change; otherwise only the first expert with the id is replaced by its merge with the patch |
| MockApi.Store.DeleteExpert | src/mock/api.ts:90-107 | true exactly when an expert has the id; absent id changes nothing; otherwise the first expert is spliced out and the cascades run as written; with unique ids no expert, schedule or appointment of that expert is left and every other record is kept in order; departments and settings never change |
| MockApi.Store.SpliceSchedulesOf | src/mock/api.ts:96-99 | the schedule loop of the cascade leaves exactly `CascadeSchedules` of the old table |
| MockApi.Store.SpliceAppointmentsOf | src/mock/api.ts:100-103 | the appointment loop of the cascade leaves exactly `CascadeAppointments` of the old table |
| MockApi.Store.GetSchedules | src/mock/api.ts:111-114 | returns the schedule table |
| MockApi.Store.GetSchedulesByExpert | src/mock/api.ts:116-119 | the schedules of the expert, in table order |
| MockApi.Store.GetSchedulesByDate | src/mock/api.ts:121-124 | the schedules on the date, in table order |
| MockApi.Store.GetSchedulesByExpertAndDate | src/mock/api.ts:126-129 | the schedules of the expert on the date, in table order |
| MockApi.Store.UpdateSchedule | src/mock/api.ts:131-139 | absent id: undefined and no change; otherwise only the first schedule with the id is replaced by its merge with the patch |
| MockApi.Store.GenerateSchedules | src/mock/api.ts:141-170 | the new schedule table is the generation function of the old one, and the returned list is exactly what was appended; the properties of that function are proved above |
| MockApi.Store.GenerateForExperts | src/mock/api.ts:147-167 | the loop over target experts leaves exactly the expert pass of the old table and returns what it appended |
| MockApi.Store.GenerateNext | src/mock/api.ts:147-166 | the bucket pass of the next target expert moves the expert pass on by one expert and only appends |
| MockApi.Store.GenerateForExpert | src/mock/api.ts:148-166 | the loop over buckets leaves exactly the bucket pass of the old table and returns what it appended |
| MockApi.Store.GetAppointments | src/mock/api.ts:174-177 | returns the appointment table |
| MockApi.Store.GetAppointmentsByPatient | src/mock/api.ts:179-182 | the appointments of the patient, in table order |
| MockApi.Store.GetAppointmentsByExpert | src/mock/api.ts:184-187 | the appointments with the expert, in table order |
| MockApi.Store.GetAppointmentsByDate | src/mock/api.ts:189-192 | the appointments on the date, in table order |
| MockApi.Store.MoveSlots | src/mock/api.ts:204-207 | the counter update leaves exactly the slot change of the old schedule table |
| MockApi.Store.CreateAppointment | src/mock/api.ts:194-211 | appends exactly one appointment, pending exactly when confirmation is required; takes one slot from the first schedule with the draft's schedule id, with no lower bound; no other schedule changes |
| MockApi.Store.UpdateAppointment | src/mock/api.ts:213-221 | absent id: undefined and no change; otherwise only the first appointment with the id is replaced by its merge with the patch |
| MockApi.Store.DeleteAppointment | src/mock/api.ts:223-238 | true exactly when an appointment has the id; then that first appointment is spliced out and its schedule gets one slot back; otherwise nothing changes |
| MockApi.Store.ConfirmAppointment | src/mock/api.ts:240-249 | absent id: undefined and no change; otherwise only the first appointment with the id changes, to confirmed with the confirmation time; schedules never change |
| MockApi.Store.GetSettings | src/mock/api.ts:253-256 | returns the settings |
| MockApi.Store.UpdateSettings | src/mock/api.ts:258-262 | the settings become their merge with the patch, which is returned |
| MockApi.CreateThenDeleteRestores | src/mock/api.ts:194-238 | booking with a fresh id and then cancelling that id finds the booking and restores the appointment list and every schedule's slot count (in exact arithmetic; see Left out); departments, experts and settings are outside its frame |
| MockApi.GenerateTwiceAddsNothing | src/mock/api.ts:141-170 | a second generation for the same date and experts returns an empty list, and the schedule table ends as one generation over the experts at the time of the call would leave it; only schedules are in its frame |

## Left out

- The simulated latency (`delay` and `await`, `src/mock/api.ts:6`) is left out. Calls are sequential and run to completion, so there is no interleaving to model.
- New ids from `Date.now()` and timestamps from `dayjs().toISOString()` are method parameters (`newId`, `now`). The model does not assume that the caller supplies distinct ids.
- Ledger.SlotCapacity: `maxAppointments / 3` is a floating-point division. The model uses exact `real` arithmetic, so the binary rounding of non-integer thirds is not modelled. Of the seeded maxima (20, 15, 10, 18, 25) the non-integer thirds are those of 20, 10 and 25.
- Ledger.AdjustSlotsInverse, Ledger.BookThenCancelRestores, MockApi.CreateThenDeleteRestores: the `-= 1` and `+= 1` on `availableSlots` are exact in the model and rounded in the backend, so the round trip is proved for every count but holds in the backend only where both steps are exact. An expert with `maxAppointments: 1` gets a count of 1/3 (0.3333333333333333 as a double); booking leaves -0.6666666666666667 and cancelling leaves 0.33333333333333326, not the original count. The same happens for a count that `updateSchedule` sets to a value such as 0.1. Whole counts below 2^53 are exact under ±1: `Ledger.AdjustSlotsKeepsWholeCounts` shows that slot changes keep whole counts whole, and `Ledger.WholeCapacity` shows that generation gives whole counts exactly when `maxAppointments` is a multiple of 3. The 2^53 bound itself is not modelled.
- The expert record's `maxAppointments` is an `int` in the model, while the backend's field is a JavaScript number that a create or update patch may set to a fraction. Fractional daily maxima are not modelled.
- Returned records alias the stored objects in the backend: `confirmAppointment` and the slot counter change objects in place, and earlier results see that change. The model treats records as values, so a returned record is a snapshot.
- A patch field that is present but set to `undefined` overwrites the old value under the spread. Only absent and present-with-a-value fields are modelled.
- Department deletion does not cascade in the backend, so no cascade is modelled for it.
- The seed generator `src/mock/data.ts` uses `Math.random()` and dates. It is not part of this model; the store's constructor takes the seeded collections as arguments.
- The axios mock replies in `src/mocks/index.ts`, the pages, the layouts, the zustand stores and the axios services are not part of this model.
- Payments and refunds are not modelled, because no code for them exists in the backend.
- MockApi.Store.GenerateSchedules: the bucket list `["morning", "afternoon", "evening"]` reaches the loops as a parameter. Its contract states the new table through the generation function, and the no-duplicate, target-only, coverage and idempotence facts live in `Ledger.AddForExpertsSpec`, `Ledger.GenerationKeepsTriplesDistinct` and `Ledger.GenerationIdempotent`, not in the method's own `ensures`.

## Findings

| source | as written | input that shows it | evidently intended | confidence | as-written member | corrected member |
|---|---|---|---|---|---|---|
| src/mock/api.ts:96-99 | each schedule of the deleted expert is looked up again by its id, and the first schedule with that id is spliced out, whoever it belongs to | `generateSchedules("d", ["e1"])`, then `updateSchedule("sched-e1-d-morning", {expertId: "e2"})`, then `generateSchedules("d", ["e1"])`, then `deleteExpert("e1")`: table `[e2's sched-e1-d-morning, e1's sched-e1-d-morning]` | remove exactly the deleted expert's schedules and keep every other schedule | not executed | Ledger.CascadeRemovesWrongScheduleOnSharedId | Ledger.SchedulesWithout |

`Ledger.CascadeRemovesWrongScheduleOnSharedId` shows that on this table the cascade as written (`Ledger.CascadeSchedules`) leaves `[e1's schedule]`, while the intended result leaves `[e2's schedule]`. `Ledger.SchedulesWithout` keeps exactly the schedules of other experts. `Ledger.CascadeWithUniqueIds` proves that the two agree whenever ids are unique. `MockApi.Store.DeleteExpert` keeps the loop as written and states both facts: the general result, and the intended result under unique ids. The appointment half (`src/mock/api.ts:100-103`) has the same shape. It is reached only when two appointments share an id, for example through `Date.now()` collisions or an update that rewrites an id.
