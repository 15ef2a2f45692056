# Hostel management front end — a Dafny model

This project models the logic of a small hostel management web application
built with Next.js. Its parts:

- **Attendance day ledger** (`/api/attendance`). It is a list of days, each a
  date with one record per student. GET returns the records of the first day
  whose date equals the query. POST derives one record per roster student from
  an id→boolean presence map, then either overwrites that date's records or
  appends a new day.
- **Mock stores** (`/api/students`, `/api/rooms`). Both are append-only lists.
  - A new student gets the id `ST` followed by its position, zero-padded to
    three digits, and the room code `block-number`.
  - A new room is always empty and "available".
- **Page aggregates and filters.**
  - Attendance page: present/absent counts and the attendance rate, plus the
    search and block filter.
  - Rooms page: occupied/available counts and the occupancy rate, plus the
    room filter.
  - Dashboard: the totals, the set of blocks, occupancy per block and the
    recent check-ins.
  - Students page: the student filter.
- **Dialogs.**
  - Take attendance: the presence map, all-true at first, set one checkbox at
    a time and sent whole.
  - Add student: field updates, the room existence and availability checks,
    the payload and the form reset.
  - Add room: field updates, the payload and the form reset.

The server modules that change state are classes over sequences:
`AttendanceRoute.Ledger`, `StudentsRoute.StudentStore` and
`RoomsRoute.RoomStore`. Each POST method states the whole new state and keeps
the store's invariant:

- `Ledger`: at most one day per date, and every record coherent.
- `StudentStore`: the ids are `ST001`, `ST002`, … in order.
- `RoomStore`: occupied rooms have occupants and available rooms have none.

The dialog's `reduce`, whose callback mutates its accumulator, is a method
with a loop proved against a recursive function. Everything else is pure
functions and lemmas.

Modules:

- `Basics`: Option; filter, count and distinct; the rounded percentage.
- `Text`: the JavaScript string operations used.
- `AttendanceRoute`, `StudentsRoute`, `RoomsRoute`: the three API routes.
- `AttendancePage`, `RoomsPage`, `Dashboard`, `StudentsPage`: the pages.
- `TakeAttendanceDialog`, `AddStudentDialog`, `AddRoomDialog`: the dialogs.

JavaScript semantics modelled:

- Presence is `=== true`, so only a boolean `true` counts. A missing key,
  `false`, a string or a number all give "absent".
- A field the JSON body lacks is `undefined`. Interpolated into a template it
  becomes the text "undefined" (`Text.Interpolate`).
- `find` and `findIndex` return the first match.
- `padStart` pads but never truncates.
- `Math.round(p / t * 100)` is the exact rational rounding
  `(200p + t) div 2t` (`Basics.RoundedPercent`).
- `toLowerCase`, `includes` and `startsWith` are ASCII sequence operations.
- The rooms page calls `toLowerCase` on `roomNumber` and then `id`. A room
  missing the field reached first makes the whole filter throw. The model
  returns None in that case.
- `student.room && …` treats both a missing room and an empty room as false.

## Model

| member | source | states |
|---|---|---|
| AttendanceRoute.Ledger.constructor | app/api/attendance/route.ts:4-39 | the ledger starts as the one seed day and satisfies the ledger invariant |
| AttendanceRoute.Ledger.Get | app/api/attendance/route.ts:47-53 | GET answers the records of the first day with that exact date, or [], and changes nothing |
| AttendanceRoute.LookupFirstMatch | app/api/attendance/route.ts:47-50 | when day i is the first whose date equals the query, GET returns day i's records |
| AttendanceRoute.LookupMissing | app/api/attendance/route.ts:51-53 | a date no day carries gives [] |
| AttendanceRoute.FindIndex | app/api/attendance/route.ts:62 | -1 exactly when no day has the date; otherwise the index of the first day with it |
| AttendanceRoute.DeriveRecords | app/api/attendance/route.ts:77-95 | one record per roster student in roster order, with id/name/room copied, status present iff `attendance[id] === true` |
| AttendanceRoute.DerivedRecordsWellFormed | app/api/attendance/route.ts:83-93 | each derived record is absent with both times "-"; or present with an `H:MM AM` check-in (H in 8..11) and an `H:MM PM` check-out (H in 8..10), minutes two digits in 00..59 |
| AttendanceRoute.DeriveEntryWellFormed | app/api/attendance/route.ts:78-93 | the time and status rule for a single roster student, whatever the random draws |
| AttendanceRoute.ParseClockText | app/api/attendance/route.ts:84-86 | a formatted time `H:MM X` with a two-digit padded minute reads back as its hour, minute and suffix |
| AttendanceRoute.ClockTextInRange | app/api/attendance/route.ts:84-91 | an hour in range and a minute below 60 give a canonical time text in that range |
| AttendanceRoute.DerivedIdsUnique | app/api/attendance/route.ts:65-82 | distinct roster ids give distinct record ids |
| AttendanceRoute.DerivedRecordsConsistent | app/api/attendance/route.ts:83-93 | derived records satisfy the stored-record rule: absent with both times "-", or present with neither "-" |
| AttendanceRoute.ClockTextEnds | app/api/attendance/route.ts:84-91 | a time text with a positive hour starts with a non-zero digit and ends with its AM/PM suffix |
| AttendanceRoute.ClockTextShape | app/api/attendance/route.ts:84-91 | so does every canonical time whose allowed hours are positive |
| AttendanceRoute.NotPostFormat | app/api/attendance/route.ts:83-93 | a present record with a time starting with '0', or a check-in not ending in "AM", is not in POST's format |
| AttendanceRoute.SeedOutsidePostFormat | app/api/attendance/route.ts:7-37 | no present seed record is in POST's time format |
| AttendanceRoute.PostResult | app/api/attendance/route.ts:56-111 | POST fails (500, nothing written) iff the body is malformed, or `attendance` is missing while the roster is non-empty; on success the new ledger is the upsert of the derived records |
| AttendanceRoute.UpsertExisting | app/api/attendance/route.ts:98-99 | an existing date keeps its position; only its records change; the number and the other days are unchanged |
| AttendanceRoute.UpsertNew | app/api/attendance/route.ts:100-105 | a new date is appended at the end and earlier days are unchanged |
| AttendanceRoute.UpsertPreservesInvariant | app/api/attendance/route.ts:62-105 | the write step keeps at most one day per date and every record consistent |
| AttendanceRoute.ReadYourWrite | app/api/attendance/route.ts:47-105 | GET of a date just written returns exactly the written records |
| AttendanceRoute.LookupOtherDate | app/api/attendance/route.ts:47-105 | writing one date never changes GET of another date |
| AttendanceRoute.OverwriteLaw | app/api/attendance/route.ts:62-105 | writing a date twice leaves the same ledger as writing only the second time |
| AttendanceRoute.SecondPostWins | app/api/attendance/route.ts:47-105 | POST(D, P1) then POST(D, P2) makes GET(D) the records derived from P2 alone |
| AttendanceRoute.PostThenGet | app/api/attendance/route.ts:47-105 | after a successful POST, GET of that date lists the roster in order, present exactly where the map holds `true` |
| AttendanceRoute.Ledger.Post | app/api/attendance/route.ts:56-111 | POST returns 201 iff `PostResult` succeeds; the ledger becomes that result, or is unchanged on a 500; the invariant is kept |
| StudentsRoute.StudentIdDenotes | app/api/students/route.ts:25 | the id is "ST" then at least three digits that denote exactly n; it is never truncated |
| StudentsRoute.StudentIdInjective | app/api/students/route.ts:25 | different positions give different ids |
| StudentsRoute.IdPast999 | app/api/students/route.ts:25 | the thousandth student is ST1000 |
| StudentsRoute.NewStudent | app/api/students/route.ts:32-38 | the new student's room is `roomBlock-roomNumber` with undefined parts written "undefined"; name, phone and date copied |
| StudentsRoute.SeedIdsSequential | app/api/students/route.ts:4-13 | the seed ids ST001..ST008 are the generated ids for positions 1..8 |
| StudentsRoute.SequentialIdsUnique | app/api/students/route.ts:25-41 | a list with sequential ids has pairwise distinct ids |
| StudentsRoute.NextIdFresh | app/api/students/route.ts:25-41 | the next generated id is held by no stored student |
| StudentsRoute.StudentStore.constructor | app/api/students/route.ts:4-13 | the store starts as the seed list, whose ids are sequential |
| StudentsRoute.StudentStore.Get | app/api/students/route.ts:15-18 | GET returns the whole list in insertion order |
| StudentsRoute.StudentStore.Post | app/api/students/route.ts:20-47 | a parse failure returns 500 and keeps the list; otherwise exactly one student with the next id is appended, earlier students unchanged, ids still sequential |
| RoomsRoute.NewRoom | app/api/rooms/route.ts:25-32 | the new room's code is `block-roomNumber`; block and floor are copied; capacity is the parsed integer; occupants is 0 and status "available" |
| RoomsRoute.NewRoomConsistent | app/api/rooms/route.ts:30-31 | whatever the body's fields, the built room has consistent occupancy |
| RoomsRoute.RoomStore.constructor | app/api/rooms/route.ts:4-13 | the store starts as the seed rooms, all with consistent occupancy |
| RoomsRoute.RoomStore.Get | app/api/rooms/route.ts:15-18 | GET returns the list in order |
| RoomsRoute.RoomStore.Post | app/api/rooms/route.ts:20-41 | a parse failure returns 500 and keeps the list; otherwise exactly one new room is appended, built from block, room number, floor and capacity only, so it is "available" with 0 occupants whatever status the body carries; occupancy stays consistent |
| AttendancePage.PresentCount | app/attendance/page.tsx:61 | the present count is at most the number of records |
| AttendancePage.LoadStats | app/attendance/page.tsx:60-63 | present counts status "present"; absent + present = students; the rate is the rounded percentage of present over students, 0 for no students, ≤ 100 when present ≤ students |
| AttendancePage.AbsentCanBeNegative | app/attendance/page.tsx:62 | absent is not clamped: one present record and no students give -1 |
| AttendancePage.SeedDayStats | app/attendance/page.tsx:60-63 | the seed day with 8 students gives 6 present, 2 absent and a 75% rate |
| AttendancePage.SeedPresentCount | app/api/attendance/route.ts:7-37 | six of the eight seed records are present |
| AttendancePage.SeedPresenceMarks | app/api/attendance/route.ts:65-78 | the map marking all but ST006 and ST008 makes every other roster student present |
| AttendancePage.SixOfEightPresent | app/attendance/page.tsx:61 | eight records present but for the sixth and eighth count 6 present |
| AttendancePage.MockPostStats | app/api/attendance/route.ts:56-105 | posting that map for the hard-coded roster and reading the date back gives 6 present, 2 absent and 75%, whatever the time draws |
| AttendancePage.EmptyRosterRate | app/attendance/page.tsx:63 | no students gives a 0% rate rather than a division error |
| AttendancePage.RefreshStats | app/attendance/page.tsx:102-111 | the refresh recomputes present, absent and rate from the new records with the previous student count, the same as a load |
| AttendancePage.FilteredRecordsSpec | app/attendance/page.tsx:85-93 | a record is shown iff the lower-cased name or id contains the lower-cased query and the block is "all" or a room prefix; order is kept |
| AttendancePage.FilterShowsAll | app/attendance/page.tsx:85-93 | an empty query with "all" shows every record |
| RoomsPage.ComputeRoomStats | app/rooms/page.tsx:39-42 | counts of "occupied" and "available"; their sum is at most the total; the rate is the rounded percentage, at most 100, and 0 for no rooms |
| RoomsPage.RoomMatch | app/rooms/page.tsx:64-73 | the filter throws exactly on a missing room number, or on a missing id once the room number failed. Otherwise a room matches iff room number or id contains the query (case-insensitive), the block is equal or "all", and the status is equal or "all" |
| RoomsPage.FilterRooms | app/rooms/page.tsx:64-73 | the filter fails iff some room throws; otherwise every shown room matches and every matching room is shown |
| RoomsPage.FilterRoomsIsFilter | app/rooms/page.tsx:64-73 | when nothing throws, the shown rooms are `filter` by the room predicate, so each matching occurrence is kept (`Basics.FilterMultiplicity`) |
| RoomsPage.FilterRoomsSubseq | app/rooms/page.tsx:64 | the shown rooms keep their order |
| RoomsPage.BlockFilterIsExact | app/rooms/page.tsx:69 | block filtering is equality, not prefix: block "AB" is hidden under "A" |
| Dashboard.ComputeDashboard | app/page.tsx:60-76 | available rooms counted; rate is the rounded percentage of present over students, 0 with no students; blocks is the number of distinct blocks, at most the number of rooms and at least 1 when there are rooms |
| Dashboard.BlockEntry | app/page.tsx:87-92 | a block's entry is labelled "Block b"; its total is the number of rooms of that block and its occupied the number of occupied rooms of that block, so occupied ≤ total |
| Dashboard.OccupancyAccountsForEveryRoom | app/page.tsx:86-93 | one entry per distinct block, every room's block among them, in the order the blocks first appear; entry i counts the rooms and the occupied rooms of the i-th block; the totals sum to the number of rooms |
| Dashboard.SumTotalsOfEntries | app/page.tsx:86-93 | the sum of the entry totals is the sum of the per-block room counts |
| Dashboard.RecentCheckinsArePresent | app/page.tsx:79-82 | whatever order the sort gives, recent check-ins are at most 5 records, all present and all from that day |
| StudentsPage.FilteredStudentsSpec | app/students/page.tsx:40-48 | a student is shown iff name or id contains the query (case-insensitive) and the filter is "all" or the room is present, non-empty and starts with it; order is kept |
| StudentsPage.EmptyFilterKeepsAll | app/students/page.tsx:40-48 | an empty query with "all" keeps every student, with or without a room |
| StudentsPage.NoRoomExcluded | app/students/page.tsx:45 | with a block filter other than "all", no shown student lacks a room |
| StudentsPage.RoomCodeInOwnBlock | app/students/page.tsx:45 | a room code built from block b passes the filter b |
| TakeAttendanceDialog.AllPresent | components/take-attendance-dialog.tsx:50-53 | the initial map's keys are exactly the fetched ids, and every value is true |
| TakeAttendanceDialog.InitialAttendance | components/take-attendance-dialog.tsx:50-53 | the `reduce` loop builds exactly that all-present map |
| TakeAttendanceDialog.SetPresence | components/take-attendance-dialog.tsx:78-83 | the toggle sets one id and leaves every other key and value unchanged |
| TakeAttendanceDialog.OnCheckedChange | components/take-attendance-dialog.tsx:168 | a checkbox event sets its student to true exactly when the box reports `true` |
| TakeAttendanceDialog.IndeterminateIsAbsent | components/take-attendance-dialog.tsx:168 | an unchecked or indeterminate box gives false |
| TakeAttendanceDialog.SetPresenceLastWins | components/take-attendance-dialog.tsx:78-83 | setting a student twice keeps the second value |
| TakeAttendanceDialog.SetPresenceCommutes | components/take-attendance-dialog.tsx:78-83 | setting two different students commutes |
| TakeAttendanceDialog.ApplyChangesSnoc | components/take-attendance-dialog.tsx:78-83 | a run of events ending in e is e applied to the state before it |
| TakeAttendanceDialog.ChangesKeepRoster | components/take-attendance-dialog.tsx:50-83 | events on roster students keep the keys equal to the roster ids; each ends with its last event's value, or true |
| TakeAttendanceDialog.FilteredStudentsSpec | components/take-attendance-dialog.tsx:70-76 | a student is listed iff name or id contains the query (case-insensitive) and the block is "all" or a room prefix; order is kept |
| TakeAttendanceDialog.SavePayload | components/take-attendance-dialog.tsx:89 | the submission carries the given date and the whole presence map |
| TakeAttendanceDialog.SaveIgnoresFilter | components/take-attendance-dialog.tsx:70-89 | the saved map does not depend on the query or block; it has every roster id, including filtered-out ones, with its last value |
| AddStudentDialog.FieldNamed | components/add-student-dialog.tsx:40-47 | a recognised key names the field whose key it is |
| AddStudentDialog.FieldKeyRoundTrip | components/add-student-dialog.tsx:30-38 | every field's key names that field |
| AddStudentDialog.UpdateForm | components/add-student-dialog.tsx:40-47 | a change or select event sets only the named field; every other field is unchanged |
| AddStudentDialog.FindRoom | components/add-student-dialog.tsx:58 | no index exactly when no room has that `roomNumber`; otherwise the first room that has it |
| AddStudentDialog.BuildStudentPayload | components/add-student-dialog.tsx:73-81 | the payload copies name/email/phone/address/emergencyContact, its room is `roomBlock-roomNumber`, and the joining date is the given day |
| AddStudentDialog.Decide | components/add-student-dialog.tsx:57-81 | "does not exist" iff no room has the number; "not available" iff the first such room's status is not "available"; otherwise the payload is sent |
| AddStudentDialog.HandleSubmit | components/add-student-dialog.tsx:49-109 | the dialog closes iff no error is shown; closing resets the form and follows a send; a failure keeps the form; anything sent is what `Decide` chose |
| AddStudentDialog.MissingRoomBlocksSubmit | components/add-student-dialog.tsx:60-64 | with no room of that number, the "does not exist" message is shown and `addStudent` is not called |
| AddStudentDialog.FirstMatchDecides | components/add-student-dialog.tsx:66-70 | when the first room of that number is not available, the "not available" message is shown and nothing is sent, even if a later room of that number is available |
| AddStudentDialog.AvailableRoomSends | components/add-student-dialog.tsx:73-102 | an available first match sends the payload with `room == roomId`; a successful add resets the form and closes |
| AddStudentDialog.MockRoomsNeverMatch | components/add-student-dialog.tsx:58 | rooms shaped like the mock room store (keyed `room`, no `roomNumber`) make every submit fail with "does not exist" |
| AddRoomDialog.RoomFieldNamed | components/add-room-dialog.tsx:38-45 | a recognised key names the field whose key it is |
| AddRoomDialog.RoomFieldKeyRoundTrip | components/add-room-dialog.tsx:29-36 | every field's key names that field |
| AddRoomDialog.UpdateRoomForm | components/add-room-dialog.tsx:38-45 | a change or select event sets only the named field |
| AddRoomDialog.StatusKeptUnlessSet | components/add-room-dialog.tsx:38-45 | events that never name "status" leave the status unchanged |
| AddRoomDialog.BuildRoomPayload | components/add-room-dialog.tsx:53-60 | the code is `block-roomNumber`; block, floor and status are copied; capacity is NaN iff the text does not start with a digit; occupants is 0 |
| AddRoomDialog.PayloadCodeSplits | components/add-room-dialog.tsx:54 | for a block without a dash, the code splits back into block and room number |
| AddRoomDialog.CapacityRoundTrip | components/add-room-dialog.tsx:57 | a capacity typed as a decimal number n is sent as n |
| AddRoomDialog.RoomTypeNotSent | components/add-room-dialog.tsx:53-60 | the room type does not affect the payload |
| AddRoomDialog.DefaultStatusIsAvailable | components/add-room-dialog.tsx:35 | a room added without touching the status select is sent as "available" |
| AddRoomDialog.HandleRoomSubmit | components/add-room-dialog.tsx:47-87 | the payload is always built; success resets the form and closes; failure alerts and keeps the form |
| AddRoomDialog.ResetRestoresDefault | components/add-room-dialog.tsx:66-73 | after success every field is empty except status, which is "available" |
| Basics.RoundedPercent | app/attendance/page.tsx:63 | 0 for a zero total; otherwise the nearest integer to 100p/t with halves rounded up; at most 100 when p ≤ t |
| Basics.Filter | app/attendance/page.tsx:85 | every kept element is from the input and satisfies the predicate, and every satisfying element is kept |
| Basics.FilterMultiplicity | app/attendance/page.tsx:85 | `filter` keeps each satisfying value as many times as it occurs, and no other value |
| Basics.FilterFilter | app/page.tsx:87-91 | filtering the block's rooms again by status is one filter by the conjunction |
| Basics.FilterIsSubseq | app/attendance/page.tsx:85 | `filter` keeps the order of the elements it keeps |
| Basics.Distinct | app/page.tsx:86 | `Array.from(new Set(…))` holds each value once, all of the input's values and nothing else, in the order of their first appearance |
| Basics.FirstIndex | app/page.tsx:86 | the first position of a value: it holds the value and no earlier position does |
| Basics.NewKeyCount | app/page.tsx:86-93 | a key no earlier element has is counted once more after an element with that key is appended |
| Basics.GroupTotals | app/page.tsx:86-93 | counting the elements of each distinct key accounts for every element exactly once |
| Basics.CountDisjoint | app/rooms/page.tsx:40-41 | two exclusive predicates count at most the whole list together |
| Text.Lower | app/attendance/page.tsx:87 | `toLowerCase` keeps the length, leaves no upper-case letter, and lowers each letter in place |
| Text.ContainsAt | app/attendance/page.tsx:87 | `includes` holds iff the substring occurs at some position |
| Text.NatToString | app/api/students/route.ts:25 | `String(n)` is a non-empty digit string without a leading zero |
| Text.ParseNatToString | app/api/students/route.ts:25 | the decimal text of n reads back as n |
| Text.PadStart | app/api/students/route.ts:25 | `padStart` has length max(width, length), ends with the input, and starts with pad characters |
| Text.PadStartDigits | app/api/students/route.ts:25 | zero-padding a digit string keeps its value |
| Text.ParseIntPrefix | app/api/rooms/route.ts:29 | `Number.parseInt` gives NaN iff the text is empty or does not start with a digit |
| Text.ParseIntOfNatToString | app/api/rooms/route.ts:29 | the decimal text of n, followed by a non-digit or nothing, parses to n |
| Text.RoomCode | app/api/rooms/route.ts:26 | the code starts with the block and has length block + 1 + number |
| Text.SplitRoomCodeInverse | app/api/rooms/route.ts:26 | a code built from a block without a dash splits back into block and number |

Functions without a contract of their own are specified by the lemma rows above:

- `AttendanceRoute.Lookup` (app/api/attendance/route.ts:47-53) by LookupFirstMatch, LookupMissing and ReadYourWrite.
- `AttendanceRoute.Upsert` (app/api/attendance/route.ts:98-105) by UpsertExisting, UpsertNew, UpsertPreservesInvariant and OverwriteLaw.
- `StudentsRoute.StudentId` (app/api/students/route.ts:25) by StudentIdDenotes, StudentIdInjective and NextIdFresh.
- `Dashboard.Occupancy` (app/page.tsx:86-93) by OccupancyAccountsForEveryRoom.
- `Dashboard.RecentCheckins` (app/page.tsx:79-82) by RecentCheckinsArePresent.
- `AttendancePage.FilteredRecords` (app/attendance/page.tsx:85-93) by FilteredRecordsSpec and FilterShowsAll.
- `StudentsPage.FilteredStudents` (app/students/page.tsx:40-48) by StudentsPage.FilteredStudentsSpec and EmptyFilterKeepsAll.
- `TakeAttendanceDialog.FilteredStudents` (components/take-attendance-dialog.tsx:70-76) by TakeAttendanceDialog.FilteredStudentsSpec.
- `AttendanceRoute.DeriveEntry` (app/api/attendance/route.ts:77-94) by DeriveEntryWellFormed and DeriveRecords.
- `RoomsRoute.ParseCapacity` (app/api/rooms/route.ts:29) by Text.ParseIntPrefix and ParseIntOfNatToString.
- `AddStudentDialog.RoomId` (components/add-student-dialog.tsx:57) by Text.RoomCode and AvailableRoomSends.

## Left out

- HTTP plumbing is not part of this model: `NextResponse`, status codes, URL parsing and `request.json()`. A body that does not parse is the `Malformed` case of the request types. A GET query with no `date` falls back to today, which is a parameter.
- Ledger.Get: takes the already-resolved date. In the route an empty `?date=` also falls back to today (because of `||`), so the route never looks up "", while `Get("")` reads a day stored under "".
- The roster inside the attendance POST is a parameter; `AttendanceRoute.MockRoster` holds the hard-coded one.
- `Math.random` is not modelled. The four draws of a present student are caller-supplied naturals reduced by the same `% 4`, `% 60`, `% 3`, `% 60`.
- Dates and locale formatting are strings supplied by the caller: `new Date().toISOString()`, the students route's `toLocaleString` date, and `date-fns` `format`.
- `lib/api-client.ts` is not part of this model. It is an axios client for a separate backend. The pages, dialogs and routes are connected to each other here in three places only: the add-student lookup run against mock-store rooms (`AddStudentDialog.MockRoomsNeverMatch`), the attendance page's stats of the seed day (`AttendancePage.SeedDayStats`), and those stats after a POST and a GET of the route (`AttendancePage.MockPostStats`).
- React rendering, hooks, fetch sequencing, `Promise.all`, loading flags and the dialog open/close toggle are not modelled. So are the fetch `catch` branches that only set an error banner (pages, take-attendance submit).
- The dashboard sort by parsed `checkIn` time (`new Date("08:30 AM")`) is not modelled. `Dashboard.RecentCheckinsArePresent` accepts any permutation of the present records.
- The bar widths of the dashboard's occupancy chart are not modelled.
- Floating point is not modelled. `Basics.RoundedPercent` is exact rational rounding with halves up, and can differ from `Math.round(p / t * 100)` at some half-way cases.
- `Text.ParseIntPrefix`: models `Number.parseInt` on a leading run of decimal digits only, with no leading whitespace, sign, or radix prefix.
- Non-string values in string fields of a JSON body are not modelled: numbers, objects, arrays. Only present strings and `undefined` are.
- Text.Lower: lowers only ASCII letters. JavaScript's `toLowerCase` also folds non-ASCII letters, so "É" does not match "é" in any search box of the model.
- StudentsPage.FilteredStudentsSpec: assumes every student has a string `name` and `id`. A student without one would make `toLowerCase` throw, which is not modelled.
- The ledger invariant requires every stored record to be absent with both times "-", or present with neither "-". The stricter `H:MM AM`/`H:MM PM` format holds only for POST-derived records (`AttendanceRoute.DerivedRecordsWellFormed`). No present seed record is in that format (`AttendanceRoute.SeedOutsidePostFormat`): every present seed record other than ST005 has at least one time with a zero-padded hour ("08:30 AM", where POST writes "8:30 AM"); ST005's "12:05 PM" / "11:00 PM" are out of range (a PM check-in, hours 12 and 11).
- Form inputs that name no modelled field add a property nothing reads. `AddStudentDialog.UpdateForm` and `AddRoomDialog.UpdateRoomForm` leave the modelled fields as they were.
- The `capacity`, `floor` and `occupants` of a room are stored and sent; the rooms page reads them only to render table cells, which is not modelled, so page-side room views omit them.
- The `finally { setLoading(false) }` steps and the notification callbacks (`onStudentAdded`, `onRoomAdded`, `onAttendanceUpdated`) are UI effects and are not modelled.
