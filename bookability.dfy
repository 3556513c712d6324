/**
 * How the table listing of TableService and booking creation of
 * BookingService agree: both run the same slot rules and the same overlap
 * rule, so a table listed as free for a date and time can be booked for it,
 * and a bookable table is listed.
 */
module Bookability {
  import opened Wrappers
  import opened TimeUtils
  import opened Config
  import opened Models
  import opened SlotRules
  import opened TableRepositories
  import opened BookingServices
  import opened TableServices

  /** A request the listing refuses is refused by booking creation with the same error, for any table. */
  lemma {:induction false} SameSlotErrors(
    s: Settings, tables: map<Id, Table>, bookings: map<Id, Booking>,
    tableId: int, d: Date, t: Time, seats: Option<int>, now: Instant)
    requires s.slotMinutes != 0
    ensures AvailableTablesFor(s, tables, bookings, d, t, seats, now).Failure? <==> UtcInterval(s, d, t, now).Failure?
    ensures AvailableTablesFor(s, tables, bookings, d, t, seats, now).Failure? ==>
      CreateCheck(s, tables, bookings, tableId, d, t, now) == Failure(AvailableTablesFor(s, tables, bookings, d, t, seats, now).error)
  {
  }

  /** Every table in the listing, for any seat filter, can be booked for the same date and time. */
  lemma {:induction false} ListedMeansBookable(
    s: Settings, tables: map<Id, Table>, bookings: map<Id, Booking>,
    d: Date, t: Time, seats: Option<int>, now: Instant, table: Table)
    requires s.slotMinutes != 0 && KeysMatch(tables, IdOf)
    ensures AvailableTablesFor(s, tables, bookings, d, t, seats, now).Success? &&
            table in AvailableTablesFor(s, tables, bookings, d, t, seats, now).value ==>
      CreateCheck(s, tables, bookings, table.id, d, t, now).Success?
  {
    if UtcInterval(s, d, t, now).Success? {
      var iv := UtcInterval(s, d, t, now).value;
      AvailableOfMeansNoConflict(tables, bookings, iv.0, iv.1, seats, table);
    }
  }

  /**
   * Every table that can be booked for a date and time is in the listing for
   * it when no party size is given, and under any seat filter it satisfies.
   */
  lemma {:induction false} BookableMeansListed(
    s: Settings, tables: map<Id, Table>, bookings: map<Id, Booking>,
    tableId: int, d: Date, t: Time, seats: Option<int>, now: Instant)
    requires s.slotMinutes != 0 && KeysMatch(tables, IdOf)
    ensures CreateCheck(s, tables, bookings, tableId, d, t, now).Success? ==>
      && AvailableTablesFor(s, tables, bookings, d, t, None, now).Success?
      && tableId in tables && tables[tableId] in AvailableTablesFor(s, tables, bookings, d, t, None, now).value
    ensures CreateCheck(s, tables, bookings, tableId, d, t, now).Success? && tableId in tables
            && (seats.None? || tables[tableId].seats >= seats.value) ==>
      && AvailableTablesFor(s, tables, bookings, d, t, seats, now).Success?
      && tables[tableId] in AvailableTablesFor(s, tables, bookings, d, t, seats, now).value
  {
    if CreateCheck(s, tables, bookings, tableId, d, t, now).Success? {
      var iv := UtcInterval(s, d, t, now).value;
      AvailableOfMeansNoConflict(tables, bookings, iv.0, iv.1, None, tables[tableId]);
      AvailableOfMeansNoConflict(tables, bookings, iv.0, iv.1, seats, tables[tableId]);
    }
  }
}
