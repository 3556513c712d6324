/**
 * BookingService of src/bookings/services.py: creating, moving and
 * cancelling a booking, with the checks in the order the service runs them,
 * and the reminder it schedules one day before the start.
 *
 * The clock is the parameter `now`. The reminder task queue is the append-only
 * field `outbox`: a reminder is scheduled by appending to it.
 */
module BookingServices {
  import opened Wrappers
  import opened TimeUtils
  import opened Errors
  import opened Config
  import opened Models
  import opened Rows
  import opened SlotRules
  import opened BookingRepositories
  import opened TableRepositories

  /** A reminder task: for the booking's user, about the booking's start, to run at `eta`. */
  datatype Reminder = Reminder(userId: int, start: Instant, eta: Instant)

  /**
   * `_schedule_reminder`: one reminder, one day before the start, when that
   * moment is still ahead of now; nothing otherwise.
   */
  function ReminderFor(b: Booking, now: Instant): (r: seq<Reminder>)
    ensures |r| <= 1
    ensures |r| == 1 <==> b.start - MicrosPerDay > now
    ensures forall m :: m in r ==> m.userId == b.userId && m.start == b.start
    ensures forall m :: m in r ==> now < m.eta && m.eta + MicrosPerDay == m.start
  {
    var eta := b.start - 86_400_000_000;
    if eta <= now then [] else [Reminder(b.userId, b.start, eta)]
  }

  /**
   * The checks of `create_booking`, in order: the slot rules, the table
   * exists, no conflicting booking. On success, the UTC interval to store.
   */
  function CreateCheck(s: Settings, tables: map<Id, Table>, bookings: map<Id, Booking>,
                       tableId: int, d: Date, t: Time, now: Instant): (r: Result<(Instant, Instant), AppError>)
    requires s.slotMinutes != 0
    ensures UtcInterval(s, d, t, now).Failure? ==> r == Failure(UtcInterval(s, d, t, now).error)
    ensures UtcInterval(s, d, t, now).Success? && tableId !in tables ==> r == Failure(NotFoundError(TableNotFound))
    ensures r.Success? <==>
      && UtcInterval(s, d, t, now).Success? && tableId in tables
      && !AnyConflict(bookings, tableId, UtcInterval(s, d, t, now).value.0, UtcInterval(s, d, t, now).value.1, None)
    ensures UtcInterval(s, d, t, now).Success? && tableId in tables
            && AnyConflict(bookings, tableId, UtcInterval(s, d, t, now).value.0, UtcInterval(s, d, t, now).value.1, None)
            ==> r == Failure(BusinessError(TableNotAvailable))
    ensures r.Success? ==> r.value == UtcInterval(s, d, t, now).value
    ensures r.Failure? ==> r.error.BusinessError? || r.error == NotFoundError(TableNotFound)
  {
    match UtcInterval(s, d, t, now)
    case Failure(e) => Failure(e)
    case Success(iv) =>
      if tableId !in tables then Failure(NotFoundError(TableNotFound))
      else if AnyConflict(bookings, tableId, iv.0, iv.1, None) then Failure(BusinessError(TableNotAvailable))
      else Success(iv)
  }

  /**
   * The checks of `update_booking_time`, in order: the booking exists, it
   * belongs to the user, the slot rules, no other booking conflicts. The
   * booking's status is not checked: a Canceled booking can be moved too.
   */
  function UpdateCheck(s: Settings, bookings: map<Id, Booking>,
                       bookingId: int, userId: int, d: Date, t: Time, now: Instant): (r: Result<(Instant, Instant), AppError>)
    requires s.slotMinutes != 0
    ensures bookingId !in bookings ==> r == Failure(NotFoundError(BookingNotFound))
    ensures bookingId in bookings && bookings[bookingId].userId != userId ==> r == Failure(ForbiddenError(CannotModify))
    ensures bookingId in bookings && bookings[bookingId].userId == userId && UtcInterval(s, d, t, now).Failure? ==>
      r == Failure(UtcInterval(s, d, t, now).error)
    ensures r.Success? <==>
      && bookingId in bookings && bookings[bookingId].userId == userId && UtcInterval(s, d, t, now).Success?
      && !AnyConflict(bookings, bookings[bookingId].tableId,
                      UtcInterval(s, d, t, now).value.0, UtcInterval(s, d, t, now).value.1, Some(bookingId))
    ensures bookingId in bookings && bookings[bookingId].userId == userId && UtcInterval(s, d, t, now).Success?
            && AnyConflict(bookings, bookings[bookingId].tableId,
                           UtcInterval(s, d, t, now).value.0, UtcInterval(s, d, t, now).value.1, Some(bookingId))
            ==> r == Failure(BusinessError(TableNotAvailable))
    ensures r.Success? ==> r.value == UtcInterval(s, d, t, now).value
  {
    if bookingId !in bookings then Failure(NotFoundError(BookingNotFound))
    else if bookings[bookingId].userId != userId then Failure(ForbiddenError(CannotModify))
    else match UtcInterval(s, d, t, now)
      case Failure(e) => Failure(e)
      case Success(iv) =>
        if AnyConflict(bookings, bookings[bookingId].tableId, iv.0, iv.1, Some(bookingId))
        then Failure(BusinessError(TableNotAvailable))
        else Success(iv)
  }

  /**
   * The checks of `cancel_booking`, in order: the booking exists, it belongs
   * to the user, at least an hour remains before the start. The status is
   * not checked: cancelling a Canceled booking succeeds again.
   */
  function CancelCheck(bookings: map<Id, Booking>, bookingId: int, userId: int, now: Instant): (r: Outcome<AppError>)
    ensures bookingId !in bookings ==> r == Fail(NotFoundError(BookingNotFound))
    ensures bookingId in bookings && bookings[bookingId].userId != userId ==> r == Fail(ForbiddenError(CannotCancel))
    ensures r.Pass? <==>
      bookingId in bookings && bookings[bookingId].userId == userId && bookings[bookingId].start - now >= MicrosPerHour
    ensures bookingId in bookings && bookings[bookingId].userId == userId && r.Fail? ==>
      r.error == BusinessError(CancelTooLate)
  {
    if bookingId !in bookings then Fail(NotFoundError(BookingNotFound))
    else if bookings[bookingId].userId != userId then Fail(ForbiddenError(CannotCancel))
    else EnsureCancelAllowed(bookings[bookingId].start, now)
  }

  /**
   * A booking that is Active can always be moved to the interval it already
   * has: the conflict check leaves the booking itself out.
   */
  lemma {:induction false} SameSlotIsNoConflict(bookings: map<Id, Booking>, id: Id)
    requires NoOverlap(bookings) && KeysMatch(bookings, (b: Booking) => b.id)
    requires id in bookings && bookings[id].status == Active
    ensures !AnyConflict(bookings, bookings[id].tableId, bookings[id].start, bookings[id].end, Some(id))
  {
  }

  /** Cancelling an Active booking frees its interval on its table for a new booking. */
  lemma {:induction false} CancelFreesSlot(bookings: map<Id, Booking>, id: Id)
    requires NoOverlap(bookings) && KeysMatch(bookings, (b: Booking) => b.id)
    requires id in bookings && bookings[id].status == Active
    ensures !AnyConflict(Cancelled(bookings, id), bookings[id].tableId, bookings[id].start, bookings[id].end, None)
  {
    var after := Cancelled(bookings, id);
    forall k | k in after
      ensures !Blocks(after[k], bookings[id].tableId, bookings[id].start, bookings[id].end, None)
    {
      if k != id {
        assert after[k] == bookings[k];
      }
    }
  }

  /**
   * With the default settings, an Active 19:00-21:00 booking of table 1 on
   * day 20491 makes a request for 20:00 on that day fail with "Table is not
   * available" when the request is made at 20:00 the day before.
   */
  lemma {:induction false} OverlappingRequestRefused(bookings: map<Id, Booking>, tables: map<Id, Table>, now: Instant)
    requires 1 in tables && 5 in bookings
    requires bookings[5] == Booking(5, 7, 1, 20491 * MicrosPerDay + 19 * MicrosPerHour,
                                    20491 * MicrosPerDay + 21 * MicrosPerHour, Active, 0)
    requires now == 20490 * MicrosPerDay + 20 * MicrosPerHour
    ensures CreateCheck(Default, tables, bookings, 1, 20491, Time(Clock(20, 0, 0, 0), None), now)
            == Failure(BusinessError(TableNotAvailable))
  {
    var iv := UtcInterval(Default, 20491, Time(Clock(20, 0, 0, 0), None), now);
    BuildSlotOutcome(Default, 20491, Time(Clock(20, 0, 0, 0), None), now);
    assert iv.Success?;
    assert Blocks(bookings[5], 1, iv.value.0, iv.value.1, None);
  }

  class BookingService {
    const bookings: BookingRepository
    const tables: TableRepository
    const settings: Settings
    /** The reminder tasks handed to the task queue, oldest first. */
    var outbox: seq<Reminder>

    /**
     * Both stores are well formed and share one database, the bookings
     * name stored tables and no two Active bookings of a table overlap,
     * and the slot size can divide.
     */
    ghost predicate Valid()
      reads this, bookings, tables
    {
      && bookings.Valid() && tables.Valid() && tables.bookings == bookings
      && Consistent(tables.rows, bookings.rows)
      && settings.slotMinutes != 0
    }

    constructor (bookings: BookingRepository, tables: TableRepository, settings: Settings)
      requires bookings.Valid() && tables.Valid() && tables.bookings == bookings
      requires Consistent(tables.rows, bookings.rows) && settings.slotMinutes != 0
      ensures Valid() && outbox == []
      ensures this.bookings == bookings && this.tables == tables && this.settings == settings
    {
      this.bookings := bookings;
      this.tables := tables;
      this.settings := settings;
      outbox := [];
    }

    /** `list_my_bookings`: the user's Active bookings from now on, by start. */
    method ListMyBookings(userId: int, now: Instant) returns (r: seq<Booking>)
      requires Valid()
      ensures SortedBy(r, StartOf)
      ensures multiset(r) == multiset(UpcomingOf(bookings.rows, userId, now))
    {
      r := bookings.ListFutureForUser(userId, now);
    }

    /** `_schedule_reminder`: queue the reminder of `b`, if any. */
    method ScheduleReminder(b: Booking, now: Instant)
      modifies this
      ensures outbox == old(outbox) + ReminderFor(b, now)
    {
      var eta := b.start - 86_400_000_000;
      if eta <= now {
        return;
      }
      outbox := outbox + [Reminder(b.userId, b.start, eta)];
    }

    /**
     * `create_booking`: on success a new Active booking of the table for the
     * requested interval, stamped now, with its reminder queued; on failure
     * the first failed check's error and no change.
     */
    method CreateBooking(userId: int, tableId: int, d: Date, t: Time, now: Instant) returns (r: Result<Booking, AppError>)
      requires Valid()
      modifies this, bookings
      ensures Valid()
      ensures var c := CreateCheck(settings, tables.rows, old(bookings.rows), tableId, d, t, now);
        && (c.Failure? ==>
              && r == Failure(c.error)
              && bookings.rows == old(bookings.rows) && bookings.nextId == old(bookings.nextId) && outbox == old(outbox))
        && (c.Success? ==>
              && r == Success(Booking(old(bookings.nextId), userId, tableId, c.value.0, c.value.1, Active, now))
              && bookings.rows == Inserted(old(bookings.rows), r.value) && bookings.nextId == old(bookings.nextId) + 1
              && outbox == old(outbox) + ReminderFor(r.value, now))
    {
      var slot := BuildSlot(settings, d, t, now);
      if slot.Failure? {
        return Failure(slot.error);
      }
      var start := InstantOf(ToUtc(slot.value.start));
      var end := InstantOf(ToUtc(slot.value.end));
      if tables.GetById(tableId).None? {
        return Failure(NotFoundError(TableNotFound));
      }
      if bookings.HasConflict(tableId, start, end, None) {
        return Failure(BusinessError(TableNotAvailable));
      }
      ghost var before := bookings.rows;
      var id := bookings.Create(userId, tableId, start, end, now);
      InsertKeepsNoOverlap(before, bookings.rows[id]);
      var b := bookings.GetById(id).value;
      ScheduleReminder(b, now);
      r := Success(b);
    }

    /**
     * `update_booking_time`: on success the booking keeps its id, owner,
     * table, status and creation stamp and takes the requested interval,
     * and a reminder for the new start is queued (an earlier reminder stays
     * queued); on failure the first failed check's error and no change.
     */
    method UpdateBookingTime(bookingId: int, userId: int, d: Date, t: Time, now: Instant) returns (r: Result<Booking, AppError>)
      requires Valid()
      modifies this, bookings
      ensures Valid()
      ensures var c := UpdateCheck(settings, old(bookings.rows), bookingId, userId, d, t, now);
        && (c.Failure? ==>
              && r == Failure(c.error)
              && bookings.rows == old(bookings.rows) && bookings.nextId == old(bookings.nextId) && outbox == old(outbox))
        && (c.Success? ==>
              && bookings.rows == Retimed(old(bookings.rows), bookingId, c.value.0, c.value.1)
              && bookings.nextId == old(bookings.nextId)
              && r == Success(bookings.rows[bookingId])
              && outbox == old(outbox) + ReminderFor(r.value, now))
    {
      var found := bookings.GetById(bookingId);
      if found.None? {
        return Failure(NotFoundError(BookingNotFound));
      }
      var b := found.value;
      if b.userId != userId {
        return Failure(ForbiddenError(CannotModify));
      }
      var slot := BuildSlot(settings, d, t, now);
      if slot.Failure? {
        return Failure(slot.error);
      }
      var start := InstantOf(ToUtc(slot.value.start));
      var end := InstantOf(ToUtc(slot.value.end));
      if bookings.HasConflict(b.tableId, start, end, Some(b.id)) {
        return Failure(BusinessError(TableNotAvailable));
      }
      RetimeKeepsNoOverlap(bookings.rows, bookingId, start, end);
      b := bookings.UpdateTime(bookingId, start, end);
      ScheduleReminder(b, now);
      r := Success(b);
    }

    /**
     * `cancel_booking`: on success the booking's status becomes Canceled and
     * nothing else changes (no reminder is withdrawn); on failure the first
     * failed check's error and no change.
     */
    method CancelBooking(bookingId: int, userId: int, now: Instant) returns (r: Result<Booking, AppError>)
      requires Valid()
      modifies bookings
      ensures Valid()
      ensures var c := CancelCheck(old(bookings.rows), bookingId, userId, now);
        && (c.Fail? ==> r == Failure(c.error) && bookings.rows == old(bookings.rows))
        && (c.Pass? ==> bookings.rows == Cancelled(old(bookings.rows), bookingId) && r == Success(bookings.rows[bookingId]))
        && bookings.nextId == old(bookings.nextId)
    {
      var found := bookings.GetById(bookingId);
      if found.None? {
        return Failure(NotFoundError(BookingNotFound));
      }
      var b := found.value;
      if b.userId != userId {
        return Failure(ForbiddenError(CannotCancel));
      }
      var allowed := EnsureCancelAllowed(b.start, now);
      if allowed.Fail? {
        return Failure(allowed.error);
      }
      CancelKeepsNoOverlap(bookings.rows, bookingId);
      b := bookings.Cancel(bookingId);
      r := Success(b);
    }
  }
}
