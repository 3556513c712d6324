# Restaurant table booking: slot allocation

A Dafny model of the booking core of a restaurant table-reservation service.
Guests book a table for a fixed-length slot on a date and time. The model covers:

- **Slot rules.** A slot must lie within working hours, start and end on one day, not be in the past, be no further ahead than a horizon, and start on the slot grid.
- **Bookings.** A guest can create, move and cancel a booking. A reminder is queued one day before the start.
- **Tables.** Tables can be listed, created, updated and deleted. A table is free for a slot when no Active booking overlaps it.

## Data model

- An instant is an integer count of microseconds since 1970-01-01T00:00:00Z.
- A calendar date is a day number counted from 1970-01-01.
- Python's `time` and `datetime` values keep their clock fields and an optional tzinfo. The tzinfo is modelled as a fixed UTC offset.
- The settings (timezone offset, horizon, slot size, duration, opening and closing times) form one `Config.Settings` record, passed explicitly. `Config.Default` holds the shipped defaults.
- The current time is the parameter `now` of every operation that reads the clock.

## Stores and services

The two stores, `BookingRepository` and `TableRepository`, are classes. Each holds:

- `rows`: a map from id to row;
- `nextId`: the next serial id.

Their methods insert rows and update them in place. The table store also holds the booking store of the same database. It uses it for the busy-table subquery, and to delete a table's bookings together with the table.

The services, `BookingService` and `TableService`, run their checks in the source's order. Each failure is an `Errors.AppError` carrying the source's message.

The booking service keeps this invariant across every operation: no two Active bookings of one table overlap, and every booking names a stored table. Intervals are half-open: `[s, e)` and `[s', e')` overlap when `s < e'` and `s' < e`.

The reminder task queue is modelled as `outbox`, a sequence that reminders are appended to.

The slot builder and its validators appear twice in the source, with identical text: in `src/bookings/services.py` and in `src/tables/services.py`. Both services here use the single definition in module `SlotRules`.

The module `Bookability` shows that the two services agree. A table listed as free for a date and time passes every check of booking creation for that date and time. Every bookable table is in the listing when no party size is given, and under any seat filter its seats satisfy.

## Model

| member | source | states |
|---|---|---|
| `TimeUtils.NormalizeTime` | src/core/time_utils.py:11-14 | the result has no tzinfo and the same clock fields; a time without tzinfo is returned unchanged |
| `TimeUtils.NormalizeTimeIdempotent` | src/core/time_utils.py:11-14 | normalizing a normalized time changes nothing |
| `TimeUtils.CombineLocal` | src/core/time_utils.py:17-19 | the result is on the given date with the normalized clock, in the application timezone. The instant it denotes is midnight of that date plus the clock reading, minus the offset |
| `TimeUtils.ToUtc` | src/core/time_utils.py:22-25 | the result is in UTC; a naive value keeps its date and clock fields; an aware value keeps the instant it denotes |
| `TimeUtils.ToUtcIdempotent` | src/core/time_utils.py:22-25 | converting to UTC twice is converting once |
| `TimeUtils.ClockBefore` | src/bookings/services.py:121 | Python's `<` on two `time` values, field by field, holds exactly when the first is less time after midnight than the second |
| `TimeUtils.ClockBeforeIsStrictOrder` | src/bookings/services.py:121 | that comparison is irreflexive, asymmetric, transitive and total on distinct clock readings |
| `TimeUtils.AddMinutes` | src/bookings/services.py:154-156 | adding a `timedelta` in minutes keeps the tzinfo and moves both the wall clock and the instant by that many minutes |
| `TimeUtils.IsPast` | src/core/time_utils.py:32-33 | a value is past exactly when the UTC instant it denotes is strictly before now |
| `TimeUtils.IsWithinHorizon` | src/core/time_utils.py:36-37 | a value is within the horizon exactly when its UTC instant is at most the given number of days after now |
| `TimeUtils.IsValidSlotTime` | src/core/time_utils.py:40-45 | a value is aligned exactly when its minute is a multiple of the slot size and its clock reading is a whole minute (no seconds, no microseconds) |
| `TimeUtils.WindowBoundaries` | src/core/time_utils.py:32-37 | a start equal to now is not past, and one microsecond earlier is; the horizon bound is inclusive |
| `TimeUtils.SlotTimeIgnoresHour` | src/core/time_utils.py:40-45 | slot alignment never depends on the hour |
| `TimeUtils.SlotTimeIsOnGrid` | src/core/time_utils.py:40-45 | for a slot size that divides the hour, a time is aligned exactly when its time since midnight is a whole number of slots |
| `SlotRules.EnsureWithinWorkingHours` | src/bookings/services.py:116-122 | passes exactly when the start is not before opening and the end is not after closing (both bounds inclusive); otherwise the working-hours error |
| `SlotRules.EnsureSameDay` | src/bookings/services.py:124-127 | passes exactly when start and end share a date; otherwise the working-hours message |
| `SlotRules.EnsureBookingWindow` | src/bookings/services.py:137-144 | passes exactly when now ≤ start ≤ now + horizon and the start is on the grid. A past start reports "in the past" before the horizon is looked at. A start beyond the horizon reports "too far" before alignment is looked at. A start inside the window but off the grid reports "must align to the slot minutes" |
| `SlotRules.EnsureCancelAllowed` | src/bookings/services.py:129-135 | passes exactly when at least one hour remains before the start (exactly one hour is allowed) |
| `SlotRules.BuildSlot` | src/bookings/services.py:150-160 | a built slot starts on the requested date at the requested clock, in the application timezone. Its end is on the same date, exactly one booking duration later. Every failure is a business error |
| `SlotRules.BuildSlotOutcome` | src/bookings/services.py:150-160 | the outcome of the slot builder in terms of the request alone. Each rule's error is reported exactly when every earlier rule passes and that rule fails. The slot is built exactly when every rule passes |
| `SlotRules.UtcInterval` | src/bookings/services.py:38-40 | the UTC interval handed to the stores exists exactly when the slot is built. It starts at the requested local time read in the application timezone, lasts one duration, and lies within the booking window |
| `SlotRules.WorkingHoursExamples` | tests/services/test_tables_service.py:9-26 | 12:00-14:00 and 20:00-22:00 pass, 11:00-13:00 fails, 21:00 to 01:00 the next day fails the same-day rule |
| `SlotRules.LateRequestCaughtBySameDay` | src/bookings/services.py:157-158 | with the defaults, a 23:00 request passes the working-hours rule (its end, 01:00, is before closing) and is refused by the same-day rule |
| `SlotRules.BookingWindowExamples` | tests/services/test_bookings_service.py:48-65 | a start one minute ago is past, one 31 days ahead is too far, and :07 on the 15-minute grid is refused |
| `SlotRules.CancelExamples` | tests/services/test_bookings_service.py:31-34 | cancelling 30 minutes ahead is refused; one or two hours ahead is allowed |
| `BookingRepositories.Blocks` | src/bookings/repositories.py:41-49 | a booking matched by the conflict query overlaps the request; a Canceled booking, a booking of another table and the excluded booking never match |
| `BookingRepositories.AnyConflict` | src/bookings/repositories.py:34-51 | the conflict check holds exactly when the conflict query returns at least one booking |
| `BookingRepositories.HasConflictAsWritten` | src/bookings/repositories.py:51 | the query as written fails exactly when two or more bookings match. When it does not fail, its answer agrees with `AnyConflict` |
| `BookingRepositories.AdjacentBookingsRaise` | src/bookings/repositories.py:41-51 | two back-to-back Active bookings that the invariant allows, and a request overlapping both, make the query as written fail although a conflict exists |
| `BookingRepositories.Upcoming` | src/bookings/repositories.py:26-29 | a Canceled booking, another user's booking, and a booking starting before now are never listed |
| `BookingRepositories.Inserted` | src/bookings/repositories.py:53-74 | the new booking is stored under its fresh id and every existing booking is kept unchanged |
| `BookingRepositories.Retimed` | src/bookings/repositories.py:76-86 | only start and end of the booking change. Its id, owner, table, status and creation stamp, and every other booking, stay the same |
| `BookingRepositories.Cancelled` | src/bookings/repositories.py:88-92 | only the status of the booking changes, to Canceled |
| `BookingRepositories.CancelIdempotent` | src/bookings/repositories.py:88-92 | cancelling twice is cancelling once |
| `BookingRepositories.TouchingDoesNotBlock` | src/bookings/repositories.py:45-46 | a booking that ends when the request starts, or starts when it ends, is no conflict |
| `BookingRepositories.IrrelevantRowsNeverConflict` | src/bookings/repositories.py:43-44 | adding a Canceled booking, or a booking of another table, never changes the conflict answer |
| `BookingRepositories.ExcludedNeverConflicts` | src/bookings/repositories.py:48-49 | excluding an id gives the same answer as checking the store without that booking |
| `BookingRepositories.InsertKeepsNoOverlap` | src/bookings/services.py:42-43 | inserting an Active booking for which no conflict is found keeps Active bookings of a table apart |
| `BookingRepositories.RetimeKeepsNoOverlap` | src/bookings/services.py:66-69 | moving a booking to an interval with no conflict (excluding itself) keeps Active bookings of a table apart |
| `BookingRepositories.CancelKeepsNoOverlap` | src/bookings/repositories.py:88-92 | cancelling never creates an overlap |
| `BookingRepositories.BookingRepository.constructor` | src/bookings/repositories.py:12-13 | an empty, well-formed store |
| `BookingRepositories.BookingRepository.GetById` | src/bookings/repositories.py:15-21 | the booking with that id when stored, None otherwise |
| `BookingRepositories.BookingRepository.HasConflict` | src/bookings/repositories.py:34-51 | true exactly when the conflict query returns some booking; wherever the query as written does not raise, the same answer as the source |
| `BookingRepositories.BookingRepository.ListFutureForUser` | src/bookings/repositories.py:23-32 | exactly the user's Active bookings starting at or after now, each once, in ascending order of start |
| `BookingRepositories.BookingRepository.Create` | src/bookings/repositories.py:53-74 | one new Active booking with the given user, table, interval and creation stamp, under a fresh id; the store stays well formed |
| `BookingRepositories.BookingRepository.UpdateTime` | src/bookings/repositories.py:76-86 | the stored booking is moved in place as `Retimed` states, and returned |
| `BookingRepositories.BookingRepository.Cancel` | src/bookings/repositories.py:88-92 | the stored booking is cancelled in place as `Cancelled` states, and returned |
| `TableRepositories.Busy` | src/tables/repositories.py:28-33 | a table is busy exactly when the booking conflict check, with no booking excluded, finds an Active booking of it overlapping the interval |
| `TableRepositories.Available` | src/tables/repositories.py:28-36 | a table passes the listing's filter exactly when the conflict check finds no booking of it in the interval and it has enough seats when a size is given |
| `TableRepositories.AvailableOfMeansNoConflict` | src/tables/repositories.py:28-36 | a table is free exactly when it is stored, has enough seats (when asked), and the conflict check finds no booking of it |
| `TableRepositories.MoreSeatsFewerTables` | src/tables/repositories.py:35-36 | a larger seat filter never lists more tables, and no filter lists the most |
| `TableRepositories.UpdatedTable` | src/tables/repositories.py:47-59 | a field that is given replaces the stored one; a field left out keeps its value; the id never changes |
| `TableRepositories.EmptyUpdateIsIdentity` | src/tables/repositories.py:53-56 | an update with neither field given leaves the table unchanged |
| `TableRepositories.UpdateIdempotent` | src/tables/repositories.py:53-56 | applying the same update twice is applying it once |
| `TableRepositories.WithoutTable` | src/tables/models.py:18-22 | the cascade removes exactly the bookings of the table, whatever their status, and keeps every other booking unchanged |
| `TableRepositories.DeleteKeepsConsistent` | src/tables/repositories.py:61-63 | after the cascade every booking still names a stored table, and Active bookings stay apart |
| `TableRepositories.CascadeNeeded` | src/tables/models.py:18-22 | without the cascade, deleting a table with a booking would leave a booking that names no table |
| `TableRepositories.TableRepository.constructor` | src/tables/repositories.py:11-12 | an empty, well-formed store over the given booking store |
| `TableRepositories.TableRepository.GetById` | src/tables/repositories.py:14-16 | the table with that id when stored, None otherwise |
| `TableRepositories.TableRepository.GetAll` | src/tables/repositories.py:18-20 | every stored table, each once, in strictly ascending order of id |
| `TableRepositories.TableRepository.GetAvailable` | src/tables/repositories.py:22-38 | exactly the tables with no Active booking intersecting the interval and enough seats when a size is given, each once |
| `TableRepositories.TableRepository.Create` | src/tables/repositories.py:40-45 | one new table with the given name and seats under a fresh id |
| `TableRepositories.TableRepository.Update` | src/tables/repositories.py:47-59 | the stored table is updated in place as `UpdatedTable` states; no other table changes |
| `TableRepositories.TableRepository.Delete` | src/tables/repositories.py:61-63 | the table is removed and, through the cascade, exactly its bookings; both stores stay well formed |
| `BookingServices.ReminderFor` | src/bookings/services.py:83-96 | at most one reminder. There is one exactly when the moment one day before the start is after now. It is for the booking's user and start and runs one day before the start |
| `BookingServices.CreateCheck` | src/bookings/services.py:38-42 | slot errors come first, then "Table not found", then "Table is not available". Creation succeeds exactly when the slot is valid, the table exists and no conflict is found, and it stores the slot's UTC interval |
| `BookingServices.UpdateCheck` | src/bookings/services.py:58-68 | checked in order: "Booking not found", then the owner ("You cannot modify this booking"), then the slot, then a conflict with any other booking, which reports "Table is not available". The status is not checked |
| `BookingServices.CancelCheck` | src/bookings/services.py:74-80 | checked in order: "Booking not found", then the owner ("You cannot cancel this booking"), then at least one hour before the start. The status is not checked |
| `BookingServices.SameSlotIsNoConflict` | src/bookings/services.py:66-68 | moving an Active booking to the interval it already has never conflicts |
| `BookingServices.CancelFreesSlot` | src/bookings/repositories.py:41-51 | after an Active booking is cancelled, its table is free again for its interval |
| `BookingServices.OverlappingRequestRefused` | tests/services/test_bookings_service.py:37-45 | with the defaults, an Active 19:00-21:00 booking makes a 20:00 request for that table fail with "Table is not available" |
| `BookingServices.BookingService.constructor` | src/bookings/services.py:22-24 | a service over consistent stores, with nothing queued |
| `BookingServices.BookingService.ListMyBookings` | src/bookings/services.py:26-28 | the user's Active bookings from now on, each once, by start |
| `BookingServices.BookingService.ScheduleReminder` | src/bookings/services.py:83-96 | appends the booking's reminder, if any, to the queue |
| `BookingServices.BookingService.CreateBooking` | src/bookings/services.py:30-48 | on success, exactly one new Active booking with the given user and table, the slot's UTC interval and the creation stamp, with its reminder queued. On failure, the first failed check's error and no change. The invariant is kept |
| `BookingServices.BookingService.UpdateBookingTime` | src/bookings/services.py:50-71 | on success, only the booking's start and end change, and a reminder for the new start is queued. On failure, the first failed check's error and no change. The invariant is kept |
| `BookingServices.BookingService.CancelBooking` | src/bookings/services.py:73-81 | on success, only the booking's status changes, to Canceled. On failure, the first failed check's error and no change. The invariant is kept |
| `TableServices.TableService.constructor` | src/tables/services.py:18-19 | a service over a consistent pair of stores |
| `TableServices.TableService.GetTables` | src/tables/services.py:21-23 | every table once, by ascending id |
| `TableServices.TableService.GetTable` | src/tables/services.py:25-30 | the stored table, or "Table not found" exactly when the id is absent |
| `TableServices.TableService.CreateTable` | src/tables/services.py:32-38 | the returned table carries a fresh id and the given name and seats, and is the only new row |
| `TableServices.TableService.UpdateTable` | src/tables/services.py:40-50 | an absent id gives "Table not found" and no change; otherwise the update applies to that table only |
| `TableServices.TableService.DeleteTable` | src/tables/services.py:52-57 | an absent id gives "Table not found" and no change; otherwise the table and its bookings go, and the stores stay consistent |
| `TableServices.TableService.ListAvailableTables` | src/tables/services.py:59-78 | the first failed slot rule's error, or exactly the free tables for the slot's UTC interval and seat filter, each once |
| `Bookability.SameSlotErrors` | src/tables/services.py:72-74 | the listing refuses a request exactly when the slot rules do. Booking creation then refuses it with the same error, for any table |
| `Bookability.ListedMeansBookable` | src/tables/repositories.py:28-36 | every table in the listing, under any seat filter, passes every check of booking creation for the same date and time |
| `Bookability.BookableMeansListed` | src/tables/repositories.py:28-36 | every table that passes the checks of booking creation appears in the listing for that date and time when no party size is given, and under any seat filter its seats satisfy |

## Left out

- The HTTP layer (routers, dependency injection, status codes), authentication and the logging decorators are not part of this model. Errors are the `AppError` datatype.
- Email delivery and the task queue are not part of this model. A scheduled reminder is an entry appended to `outbox`.
- `BookingServices.ReminderFor`: a reminder carries the booking's user id in place of the user's email and full name, because user records are not modelled.
- `BookingServices.BookingService.UpdateBookingTime`: a reminder queued earlier for the old start stays queued, as in the source. Cancelling withdraws no reminder either.
- `utc_now` is not modelled; the current instant is the parameter `now`.
- The application timezone is a fixed UTC offset. Named timezones and daylight-saving transitions are not modelled. The default offset is 0, as for "UTC".
- The opening and closing times are `Clock` values; parsing them from strings is not modelled.
- Python's datetime range (years 1 to 9999) and its `OverflowError` are not modelled. Dates and instants are unbounded integers.
- `TimeUtils.IsValidSlotTime`: requires a non-zero slot size, where Python raises `ZeroDivisionError` on `minute % 0`.
- `SlotRules.EnsureBookingWindow`: requires a non-zero slot size, where Python raises `ZeroDivisionError`. The service classes keep this in their invariants.
- `SlotRules.BuildSlot`: requires a non-zero slot size, for the same reason.
- `SlotRules.UtcInterval`: requires a non-zero slot size, for the same reason.
- `BookingServices.CreateCheck`: requires a non-zero slot size, for the same reason.
- `BookingServices.UpdateCheck`: requires a non-zero slot size, for the same reason.
- Each operation is atomic and runs one at a time. The race between the conflict check and the insert, under concurrent requests, is not modelled.
- The services re-read a created booking or table and raise "not found" if it is missing. That branch cannot be reached with these stores, so the model reads the row back without it.
- `TableRepositories.TableRepository.GetAvailable`: the source promises no order. The model returns the tables in id order but states only which tables are returned.
- Name length limits and request schema validation are not part of this model.
- Neither `update_booking_time` nor `cancel_booking` checks the status of the booking, although the cancel endpoint's description (src/bookings/routers.py:76) speaks of an active booking. The model follows the code: `UpdateCheck` and `UpdateBookingTime` move Canceled bookings too, and a Canceled booking can be cancelled again.
- `BookingRepositories.BookingRepository.HasConflict`: uses the corrected conflict check `AnyConflict` (at least one booking matches), not `scalar_one_or_none`. Where two or more Active bookings match the request, the model reports "Table is not available" where the source raises `MultipleResultsFound` (see Findings).
- `BookingServices.CreateCheck`: uses the corrected conflict check `AnyConflict` (at least one booking matches), not `scalar_one_or_none`. Where two or more Active bookings match the request, the model reports "Table is not available" where the source raises `MultipleResultsFound` (see Findings).
- `BookingServices.UpdateCheck`: uses the corrected conflict check `AnyConflict` (at least one booking matches), not `scalar_one_or_none`. Where two or more Active bookings match the request, the model reports "Table is not available" where the source raises `MultipleResultsFound` (see Findings).
- `BookingServices.BookingService.CreateBooking`: uses the corrected conflict check `AnyConflict` (at least one booking matches), not `scalar_one_or_none`. Where two or more Active bookings match the request, the model reports "Table is not available" where the source raises `MultipleResultsFound` (see Findings).
- `BookingServices.BookingService.UpdateBookingTime`: uses the corrected conflict check `AnyConflict` (at least one booking matches), not `scalar_one_or_none`. Where two or more Active bookings match the request, the model reports "Table is not available" where the source raises `MultipleResultsFound` (see Findings).
- Transactions, commits and the reloading of rows after a commit are not modelled; every change is immediate.

## Findings

| source | as written | input that shows it | evidently intended | confidence | as-written member | corrected member |
|---|---|---|---|---|---|---|
| src/bookings/repositories.py:51 | `has_conflict` calls `scalar_one_or_none()` on the ids of the matching bookings. This raises `MultipleResultsFound`, an unhandled error, when two or more bookings match | Active bookings 12:00-14:00 and 14:00-16:00 of table 1 (allowed, since touching intervals do not overlap), and a request for 13:00-15:00 on table 1. Both bookings match (lemma `BookingRepositories.AdjacentBookingsRaise`) | report a conflict whenever at least one booking matches, so that the request is refused with "Table is not available for the selected time" | high; not executed | `BookingRepositories.HasConflictAsWritten` | `BookingRepositories.AnyConflict` |
