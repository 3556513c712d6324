/**
 * The slot builder and the validation pipeline. The source carries them
 * twice, with identical text: as BookingService._build_slot and its
 * `_ensure_*` helpers (src/bookings/services.py) and inline in
 * TableService.list_available_tables with its own copies of the helpers
 * (src/tables/services.py). Both services use this one definition.
 */
module SlotRules {
  import opened Wrappers
  import opened TimeUtils
  import opened Errors
  import opened Config

  /** A requested booking interval `[start, end)` in local time. */
  datatype Slot = Slot(start: DateTime, end: DateTime)

  /** `_ensure_within_working_hours`: the start is not before opening and the end not after closing. */
  function EnsureWithinWorkingHours(s: Settings, start: DateTime, end: DateTime): (r: Outcome<AppError>)
    ensures r.Pass? <==>
      ClockMicros(s.openTime) <= ClockMicros(start.clock) && ClockMicros(end.clock) <= ClockMicros(s.closeTime)
    ensures r.Fail? ==> r.error == BusinessError(OutsideWorkingHours)
  {
    if ClockBefore(start.clock, s.openTime) || ClockBefore(s.closeTime, end.clock) then
      Fail(BusinessError(OutsideWorkingHours))
    else
      Pass
  }

  /** `_ensure_same_day`: start and end fall on one calendar date; it reuses the working-hours message. */
  function EnsureSameDay(start: DateTime, end: DateTime): (r: Outcome<AppError>)
    ensures r.Pass? <==> end.date == start.date
    ensures r.Fail? ==> r.error == BusinessError(OutsideWorkingHours)
  {
    if end.date != start.date then Fail(BusinessError(OutsideWorkingHours)) else Pass
  }

  /**
   * `_ensure_booking_window`: not in the past, then not beyond the horizon,
   * then aligned to the slot grid; the first failing rule is reported.
   */
  function EnsureBookingWindow(s: Settings, start: DateTime, now: Instant): (r: Outcome<AppError>)
    requires start.IsAware() && s.slotMinutes != 0
    ensures r.Pass? <==>
      && now <= InstantOf(start) <= now + s.maxDaysAhead * MicrosPerDay
      && start.clock.minute % s.slotMinutes == 0 && start.clock.second == 0 && start.clock.micro == 0
    ensures InstantOf(start) < now ==> r == Fail(BusinessError(InThePast))
    ensures now <= InstantOf(start) && InstantOf(start) > now + s.maxDaysAhead * MicrosPerDay ==>
      r == Fail(BusinessError(TooFarAhead))
    ensures && now <= InstantOf(start) <= now + s.maxDaysAhead * MicrosPerDay
            && !(start.clock.minute % s.slotMinutes == 0 && start.clock.second == 0 && start.clock.micro == 0)
            ==> r == Fail(BusinessError(NotAligned))
    ensures r.Fail? ==> r.error in {BusinessError(InThePast), BusinessError(TooFarAhead), BusinessError(NotAligned)}
  {
    if IsPast(start, now) then Fail(BusinessError(InThePast))
    else if !IsWithinHorizon(start, s.maxDaysAhead, now) then Fail(BusinessError(TooFarAhead))
    else if !IsValidSlotTime(start, s.slotMinutes) then Fail(BusinessError(NotAligned))
    else Pass
  }

  /** `_ensure_cancel_allowed`: cancelling needs at least one hour left before the start. */
  function EnsureCancelAllowed(start: Instant, now: Instant): (r: Outcome<AppError>)
    ensures r.Pass? <==> start - now >= MicrosPerHour
    ensures r.Fail? ==> r.error == BusinessError(CancelTooLate)
  {
    if start - now < 3_600_000_000 then Fail(BusinessError(CancelTooLate)) else Pass
  }

  /**
   * `_build_slot`: the slot of the configured duration starting at the
   * normalized time on date `d` in the application timezone, validated by
   * working hours, same day and the booking window, in that order.
   */
  function BuildSlot(s: Settings, d: Date, t: Time, now: Instant): (r: Result<Slot, AppError>)
    requires s.slotMinutes != 0
    ensures r.Success? ==>
      && r.value.start.date == d && r.value.start.clock == t.clock
      && r.value.start.tzinfo == Some(s.appOffset) && r.value.end.tzinfo == Some(s.appOffset)
      && r.value.end.date == d
      && InstantOf(r.value.end) == InstantOf(r.value.start) + s.durationMinutes * MicrosPerMinute
    ensures r.Failure? ==> r.error.BusinessError?
  {
    var start := CombineLocal(s.appOffset, d, NormalizeTime(t));
    var end := AddMinutes(start, s.durationMinutes);
    match EnsureWithinWorkingHours(s, start, end)
    case Fail(e) => Failure(e)
    case Pass =>
      match EnsureSameDay(start, end)
      case Fail(e) => Failure(e)
      case Pass =>
        match EnsureBookingWindow(s, start, now)
        case Fail(e) => Failure(e)
        case Pass => Success(Slot(start, end))
  }

  /**
   * The slot of `_build_slot` converted with `to_utc`, as the UTC interval
   * both services hand to the stores: it starts at the requested local time
   * read in the application timezone, lasts the configured duration, and
   * lies within the booking window.
   */
  function UtcInterval(s: Settings, d: Date, t: Time, now: Instant): (r: Result<(Instant, Instant), AppError>)
    requires s.slotMinutes != 0
    ensures BuildSlot(s, d, t, now).Failure? ==> r == Failure(BuildSlot(s, d, t, now).error)
    ensures r.Success? <==> BuildSlot(s, d, t, now).Success?
    ensures r.Success? ==>
      && r.value.0 == d * MicrosPerDay + ClockMicros(t.clock) - s.appOffset
      && r.value.1 == r.value.0 + s.durationMinutes * MicrosPerMinute
      && now <= r.value.0 <= now + s.maxDaysAhead * MicrosPerDay
  {
    BuildSlotOutcome(s, d, t, now);
    match BuildSlot(s, d, t, now)
    case Failure(e) => Failure(e)
    case Success(slot) => Success((InstantOf(ToUtc(slot.start)), InstantOf(ToUtc(slot.end))))
  }

  /** The date and clock of `w` microseconds after midnight of day `d`. */
  lemma {:induction false} WallSplit(d: Date, w: int, tz: Option<Offset>)
    ensures FromWall(d * MicrosPerDay + w, tz).date == d + w / MicrosPerDay
    ensures ClockMicros(FromWall(d * MicrosPerDay + w, tz).clock) == w % MicrosPerDay
  {
    var n := d * 86_400_000_000 + w;
    var q := w / 86_400_000_000;
    var m := w % 86_400_000_000;
    assert n == (d + q) * 86_400_000_000 + m;
    DivModUnique(n, 86_400_000_000, d + q, m);
    assert n / 86_400_000_000 == d + q;
  }

  /**
   * What `_build_slot` decides, stated on the requested date and time:
   * with `sod` the requested time since midnight and `endSod` the end's,
   * the first rule that fails determines the error, and the slot is built
   * exactly when every rule holds.
   */
  lemma {:induction false} BuildSlotOutcome(s: Settings, d: Date, t: Time, now: Instant)
    requires s.slotMinutes != 0
    ensures
      var r := BuildSlot(s, d, t, now);
      var sod := ClockMicros(t.clock);
      var endSod := sod + s.durationMinutes * MicrosPerMinute;
      var startAt := d * MicrosPerDay + sod - s.appOffset;
      var hoursOk := ClockMicros(s.openTime) <= sod && endSod % MicrosPerDay <= ClockMicros(s.closeTime);
      var sameDay := 0 <= endSod < MicrosPerDay;
      var inWindow := now <= startAt <= now + s.maxDaysAhead * MicrosPerDay;
      var aligned := t.clock.minute % s.slotMinutes == 0 && t.clock.second == 0 && t.clock.micro == 0;
      && (!hoursOk ==> r == Failure(BusinessError(OutsideWorkingHours)))
      && (hoursOk && !sameDay ==> r == Failure(BusinessError(OutsideWorkingHours)))
      && (hoursOk && sameDay && startAt < now ==> r == Failure(BusinessError(InThePast)))
      && (hoursOk && sameDay && now <= startAt && !inWindow ==> r == Failure(BusinessError(TooFarAhead)))
      && (hoursOk && sameDay && inWindow && !aligned ==> r == Failure(BusinessError(NotAligned)))
      && (r.Success? <==> hoursOk && sameDay && inWindow && aligned)
  {
    var start := CombineLocal(s.appOffset, d, NormalizeTime(t));
    var sod := ClockMicros(t.clock);
    var endSod := sod + s.durationMinutes * MicrosPerMinute;
    assert WallMicros(start) == d * MicrosPerDay + sod;
    WallSplit(d, endSod, Some(s.appOffset));
    var end := AddMinutes(start, s.durationMinutes);
    assert end == FromWall(d * MicrosPerDay + endSod, Some(s.appOffset));
    assert end.date == d + endSod / MicrosPerDay;
    assert ClockMicros(end.clock) == endSod % MicrosPerDay;
    assert end.date == d <==> 0 <= endSod < MicrosPerDay;
  }

  /**
   * The two-hour slot at 12:00 passes the working hours, and so does the one
   * ending exactly at closing; 11:00 does not; 21:00 to 01:00 spans two dates.
   */
  lemma WorkingHoursExamples()
    ensures EnsureWithinWorkingHours(Default, DateTime(20491, Clock(12, 0, 0, 0), None),
                                     DateTime(20491, Clock(14, 0, 0, 0), None)) == Pass
    ensures EnsureWithinWorkingHours(Default, DateTime(20491, Clock(20, 0, 0, 0), None),
                                     DateTime(20491, Clock(22, 0, 0, 0), None)) == Pass
    ensures EnsureWithinWorkingHours(Default, DateTime(20491, Clock(11, 0, 0, 0), None),
                                     DateTime(20491, Clock(13, 0, 0, 0), None)).Fail?
    ensures EnsureSameDay(DateTime(20491, Clock(21, 0, 0, 0), None),
                          DateTime(20492, Clock(1, 0, 0, 0), None)).Fail?
  {
  }

  /**
   * Under the default settings a request at 23:00 passes the working-hours
   * rule (its end, 01:00, is before closing) and is stopped by the same-day
   * rule, with the working-hours message.
   */
  lemma {:induction false} LateRequestCaughtBySameDay(d: Date, now: Instant)
    ensures
      var start := CombineLocal(Default.appOffset, d, Time(Clock(23, 0, 0, 0), None));
      var end := AddMinutes(start, Default.durationMinutes);
      && EnsureWithinWorkingHours(Default, start, end) == Pass
      && EnsureSameDay(start, end).Fail?
      && BuildSlot(Default, d, Time(Clock(23, 0, 0, 0), None), now) == Failure(BusinessError(OutsideWorkingHours))
  {
    BuildSlotOutcome(Default, d, Time(Clock(23, 0, 0, 0), None), now);
    var start := CombineLocal(Default.appOffset, d, Time(Clock(23, 0, 0, 0), None));
    WallSplit(d, 23 * MicrosPerHour + 120 * MicrosPerMinute, Some(0));
  }

  /** A start one minute in the past, one beyond the horizon, or at :07 on the 15-minute grid is rejected. */
  lemma {:induction false} BookingWindowExamples(now: Instant)
    ensures EnsureBookingWindow(Default, FromWall(now - MicrosPerMinute, Some(0)), now)
            == Fail(BusinessError(InThePast))
    ensures EnsureBookingWindow(Default, FromWall(now + 31 * MicrosPerDay, Some(0)), now)
            == Fail(BusinessError(TooFarAhead))
    ensures EnsureBookingWindow(Default, DateTime(20491, Clock(12, 7, 0, 0), Some(0)), now).Fail?
  {
  }

  /** Cancelling 30 minutes before the start is refused; exactly one hour or two hours before is allowed. */
  lemma CancelExamples(now: Instant)
    ensures EnsureCancelAllowed(now + 30 * MicrosPerMinute, now) == Fail(BusinessError(CancelTooLate))
    ensures EnsureCancelAllowed(now + MicrosPerHour, now) == Pass
    ensures EnsureCancelAllowed(now + 2 * MicrosPerHour, now) == Pass
  {
  }
}
