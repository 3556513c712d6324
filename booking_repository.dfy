/**
 * The booking store of src/bookings/repositories.py: the SQL filters of its
 * queries as predicates over the rows, and BookingRepository as a class whose
 * methods insert and update rows in place.
 */
module BookingRepositories {
  import opened Wrappers
  import opened TimeUtils
  import opened Models
  import opened Rows

  /**
   * The row filter of `has_conflict`: a booking of the table, Active, whose
   * interval intersects `[start, end)`, and that is not the excluded booking.
   */
  predicate Blocks(b: Booking, tableId: int, start: Instant, end: Instant, exclude: Option<int>)
    ensures Blocks(b, tableId, start, end, exclude) ==> Overlap(b.start, b.end, start, end)
    ensures b.status == Canceled || b.tableId != tableId ==> !Blocks(b, tableId, start, end, exclude)
    ensures exclude == Some(b.id) ==> !Blocks(b, tableId, start, end, exclude)
  {
    && b.tableId == tableId
    && b.status == Active
    && b.start < end
    && b.end > start
    && (exclude.None? || b.id != exclude.value)
  }

  /** The ids of the rows the `has_conflict` query returns. */
  function ConflictingIds(rows: map<Id, Booking>, tableId: int, start: Instant, end: Instant, exclude: Option<int>): set<Id>
  {
    set k | k in rows && Blocks(rows[k], tableId, start, end, exclude)
  }

  /** `has_conflict`, as intended: true exactly when the query returns at least one row. */
  predicate AnyConflict(rows: map<Id, Booking>, tableId: int, start: Instant, end: Instant, exclude: Option<int>)
    ensures AnyConflict(rows, tableId, start, end, exclude) <==> ConflictingIds(rows, tableId, start, end, exclude) != {}
  {
    var found := exists k :: k in rows && Blocks(rows[k], tableId, start, end, exclude);
    var ids := ConflictingIds(rows, tableId, start, end, exclude);
    if found then
      var k :| k in rows && Blocks(rows[k], tableId, start, end, exclude);
      assert k in ids;
      true
    else
      assert ids == {};
      false
  }

  /** What `scalar_one_or_none` raises when a query returns more than one row. */
  datatype QueryError = MultipleResultsFound

  /**
   * `has_conflict` as written: `scalar_one_or_none()` on the matching ids
   * returns None for no row, the id for one row, and raises for several.
   */
  function HasConflictAsWritten(rows: map<Id, Booking>, tableId: int, start: Instant, end: Instant, exclude: Option<int>)
    : (r: Result<bool, QueryError>)
    ensures r.Failure? <==> |ConflictingIds(rows, tableId, start, end, exclude)| >= 2
    ensures r.Success? ==> (r.value <==> AnyConflict(rows, tableId, start, end, exclude))
  {
    var n := |ConflictingIds(rows, tableId, start, end, exclude)|;
    if n == 0 then Success(false)
    else if n == 1 then Success(true)
    else Failure(MultipleResultsFound)
  }

  /**
   * Two back-to-back Active bookings of table 1, 12:00-14:00 and 14:00-16:00,
   * break no rule of the store, yet a request for 13:00-15:00 overlaps both:
   * the query as written raises instead of reporting the conflict.
   */
  lemma AdjacentBookingsRaise()
    ensures
      var day := 20491 * MicrosPerDay;
      var rows := map[
        1 := Booking(1, 7, 1, day + 12 * MicrosPerHour, day + 14 * MicrosPerHour, Active, 0),
        2 := Booking(2, 8, 1, day + 14 * MicrosPerHour, day + 16 * MicrosPerHour, Active, 0)];
      && NoOverlap(rows) && KeysMatch(rows, (b: Booking) => b.id)
      && HasConflictAsWritten(rows, 1, day + 13 * MicrosPerHour, day + 15 * MicrosPerHour, None) == Failure(MultipleResultsFound)
      && AnyConflict(rows, 1, day + 13 * MicrosPerHour, day + 15 * MicrosPerHour, None)
  {
    var day := 20491 * MicrosPerDay;
    var rows := map[
      1 := Booking(1, 7, 1, day + 12 * MicrosPerHour, day + 14 * MicrosPerHour, Active, 0),
      2 := Booking(2, 8, 1, day + 14 * MicrosPerHour, day + 16 * MicrosPerHour, Active, 0)];
    var ids := ConflictingIds(rows, 1, day + 13 * MicrosPerHour, day + 15 * MicrosPerHour, None);
    assert 1 in ids && 2 in ids;
    assert ids == {1, 2};
  }

  /** The row filter of `list_future_for_user`. */
  predicate Upcoming(b: Booking, userId: int, now: Instant)
    ensures b.status == Canceled || b.userId != userId ==> !Upcoming(b, userId, now)
    ensures b.start < now ==> !Upcoming(b, userId, now)
  {
    b.userId == userId && b.status == Active && b.start >= now
  }

  /** The bookings `list_future_for_user` must return, each once. */
  ghost function UpcomingOf(rows: map<Id, Booking>, userId: int, now: Instant): set<Booking>
  {
    Select(rows, rows.Keys, (b: Booking) => Upcoming(b, userId, now))
  }

  /** `create`: a new Active row under a fresh id; every other row is kept. */
  function Inserted(rows: map<Id, Booking>, b: Booking): (r: map<Id, Booking>)
    requires b.id !in rows
    ensures r.Keys == rows.Keys + {b.id} && r[b.id] == b
    ensures forall k :: k in rows ==> r[k] == rows[k]
  {
    rows[b.id := b]
  }

  /** `update_time`: only the start and end of booking `id` change. */
  function Retimed(rows: map<Id, Booking>, id: int, start: Instant, end: Instant): (r: map<Id, Booking>)
    requires id in rows
    ensures r.Keys == rows.Keys
    ensures r[id].start == start && r[id].end == end
    ensures r[id].id == rows[id].id && r[id].userId == rows[id].userId && r[id].tableId == rows[id].tableId
    ensures r[id].status == rows[id].status && r[id].createdAt == rows[id].createdAt
    ensures forall k :: k in rows && k != id ==> r[k] == rows[k]
  {
    rows[id := rows[id].(start := start, end := end)]
  }

  /** `cancel`: only the status of booking `id` changes, to Canceled. */
  function Cancelled(rows: map<Id, Booking>, id: int): (r: map<Id, Booking>)
    requires id in rows
    ensures r.Keys == rows.Keys
    ensures r[id].status == Canceled
    ensures r[id] == rows[id].(status := Canceled)
    ensures forall k :: k in rows && k != id ==> r[k] == rows[k]
  {
    rows[id := rows[id].(status := Canceled)]
  }

  /** Cancelling twice is cancelling once. */
  lemma CancelIdempotent(rows: map<Id, Booking>, id: int)
    requires id in rows
    ensures Cancelled(Cancelled(rows, id), id) == Cancelled(rows, id)
  {
  }

  /** Touching intervals never conflict: a booking ending at `start` or beginning at `end` is not counted. */
  lemma TouchingDoesNotBlock(b: Booking, tableId: int, start: Instant, end: Instant, exclude: Option<int>)
    requires b.end == start || b.start == end
    ensures !Blocks(b, tableId, start, end, exclude)
  {
  }

  /** Canceled bookings and bookings of other tables never produce a conflict. */
  lemma {:induction false} IrrelevantRowsNeverConflict(
    rows: map<Id, Booking>, b: Booking, tableId: int, start: Instant, end: Instant, exclude: Option<int>)
    requires b.id !in rows
    requires b.status == Canceled || b.tableId != tableId
    ensures AnyConflict(rows[b.id := b], tableId, start, end, exclude) == AnyConflict(rows, tableId, start, end, exclude)
  {
    if AnyConflict(rows[b.id := b], tableId, start, end, exclude) {
      var k :| k in rows[b.id := b] && Blocks(rows[b.id := b][k], tableId, start, end, exclude);
      assert k != b.id && k in rows && rows[b.id := b][k] == rows[k];
    }
    if AnyConflict(rows, tableId, start, end, exclude) {
      var k :| k in rows && Blocks(rows[k], tableId, start, end, exclude);
      assert k in rows[b.id := b] && rows[b.id := b][k] == rows[k];
    }
  }

  /**
   * With an excluded id that booking is never counted, and the query answers as
   * if it were not stored; with no excluded id every booking is counted.
   */
  lemma {:induction false} ExcludedNeverConflicts(
    rows: map<Id, Booking>, x: int, tableId: int, start: Instant, end: Instant)
    requires KeysMatch(rows, (b: Booking) => b.id)
    ensures AnyConflict(rows, tableId, start, end, Some(x)) == AnyConflict(rows - {x}, tableId, start, end, None)
  {
    if AnyConflict(rows, tableId, start, end, Some(x)) {
      var k :| k in rows && Blocks(rows[k], tableId, start, end, Some(x));
      assert k in rows - {x} && Blocks((rows - {x})[k], tableId, start, end, None);
    }
    if AnyConflict(rows - {x}, tableId, start, end, None) {
      var k :| k in rows - {x} && Blocks((rows - {x})[k], tableId, start, end, None);
      assert rows[k].id == k;
      assert Blocks(rows[k], tableId, start, end, Some(x));
    }
  }

  /** Inserting an Active booking that `has_conflict` does not report keeps Active bookings apart. */
  lemma {:induction false} InsertKeepsNoOverlap(rows: map<Id, Booking>, b: Booking)
    requires NoOverlap(rows)
    requires b.id !in rows
    requires !AnyConflict(rows, b.tableId, b.start, b.end, None)
    ensures NoOverlap(Inserted(rows, b))
  {
    var r := Inserted(rows, b);
    forall i, j | i in r && j in r && i != j && r[i].status == Active && r[j].status == Active && r[i].tableId == r[j].tableId
      ensures !Overlap(r[i].start, r[i].end, r[j].start, r[j].end)
    {
      if i == b.id {
        assert !Blocks(rows[j], b.tableId, b.start, b.end, None);
      } else if j == b.id {
        assert !Blocks(rows[i], b.tableId, b.start, b.end, None);
      }
    }
  }

  /**
   * Moving booking `id` to an interval that `has_conflict`, excluding `id`
   * itself, does not report keeps Active bookings apart.
   */
  lemma {:induction false} RetimeKeepsNoOverlap(rows: map<Id, Booking>, id: int, start: Instant, end: Instant)
    requires NoOverlap(rows) && KeysMatch(rows, (b: Booking) => b.id)
    requires id in rows
    requires !AnyConflict(rows, rows[id].tableId, start, end, Some(id))
    ensures NoOverlap(Retimed(rows, id, start, end))
  {
    var r := Retimed(rows, id, start, end);
    forall i, j | i in r && j in r && i != j && r[i].status == Active && r[j].status == Active && r[i].tableId == r[j].tableId
      ensures !Overlap(r[i].start, r[i].end, r[j].start, r[j].end)
    {
      if i == id {
        assert !Blocks(rows[j], rows[id].tableId, start, end, Some(id));
      } else if j == id {
        assert !Blocks(rows[i], rows[id].tableId, start, end, Some(id));
      }
    }
  }

  /** Cancelling never creates an overlap. */
  lemma CancelKeepsNoOverlap(rows: map<Id, Booking>, id: int)
    requires NoOverlap(rows) && id in rows
    ensures NoOverlap(Cancelled(rows, id))
  {
  }

  class BookingRepository {
    /** The booking rows, keyed by id. */
    var rows: map<Id, Booking>
    /** The next value of the id sequence. */
    var nextId: int

    /** Every row is stored under its own id, and ids come from the sequence. */
    ghost predicate Valid()
      reads this
    {
      && 1 <= nextId
      && KeysMatch(rows, (b: Booking) => b.id)
      && forall k :: k in rows ==> 1 <= k < nextId
    }

    constructor ()
      ensures Valid() && rows == map[] && nextId == 1
    {
      rows := map[];
      nextId := 1;
    }

    /** `get_by_id`: the booking with that id, or None. */
    function GetById(id: int): (r: Option<Booking>)
      requires Valid()
      reads this
      ensures r.Some? <==> id in rows
      ensures r.Some? ==> r.value == rows[id] && r.value.id == id
    {
      if id in rows then Some(rows[id]) else None
    }

    /**
     * `has_conflict`, read from the current rows: true exactly when the query
     * returns some row. Wherever the query as written does not raise, it
     * gives the same answer.
     */
    function HasConflict(tableId: int, start: Instant, end: Instant, exclude: Option<int>): (r: bool)
      reads this
      ensures r <==> ConflictingIds(rows, tableId, start, end, exclude) != {}
      ensures HasConflictAsWritten(rows, tableId, start, end, exclude).Success? ==>
        r == HasConflictAsWritten(rows, tableId, start, end, exclude).value
    {
      AnyConflict(rows, tableId, start, end, exclude)
    }

    /**
     * `list_future_for_user`: the Active bookings of the user that start at
     * or after now, each once, in ascending order of start.
     */
    method ListFutureForUser(userId: int, now: Instant) returns (r: seq<Booking>)
      requires Valid()
      ensures SortedBy(r, StartOf)
      ensures multiset(r) == multiset(UpcomingOf(rows, userId, now))
    {
      r := [];
      ghost var p := (b: Booking) => Upcoming(b, userId, now);
      var id := 1;
      while id < nextId
        invariant 1 <= id <= nextId
        invariant SortedBy(r, StartOf)
        invariant multiset(r) == multiset(Select(rows, KeysBelow(rows, id), p))
      {
        SelectBelowNext(rows, id, p, (b: Booking) => b.id);
        if id in rows && Upcoming(rows[id], userId, now) {
          r := InsertBy(r, rows[id], StartOf);
        }
        id := id + 1;
      }
      assert KeysBelow(rows, nextId) == rows.Keys;
    }

    /** `create`: inserts an Active booking under the next id and returns that id. */
    method Create(userId: int, tableId: int, start: Instant, end: Instant, now: Instant) returns (id: Id)
      requires Valid()
      modifies this
      ensures Valid()
      ensures id == old(nextId) && id !in old(rows) && nextId == old(nextId) + 1
      ensures rows == Inserted(old(rows), Booking(id, userId, tableId, start, end, Active, now))
    {
      id := nextId;
      rows := Inserted(rows, Booking(id, userId, tableId, start, end, Active, now));
      nextId := nextId + 1;
    }

    /** `update_time`: sets the start and end of a loaded booking in place. */
    method UpdateTime(id: int, start: Instant, end: Instant) returns (b: Booking)
      requires Valid() && id in rows
      modifies this
      ensures Valid() && nextId == old(nextId)
      ensures rows == Retimed(old(rows), id, start, end) && b == rows[id]
    {
      rows := Retimed(rows, id, start, end);
      b := rows[id];
    }

    /** `cancel`: sets the status of a loaded booking to Canceled in place. */
    method Cancel(id: int) returns (b: Booking)
      requires Valid() && id in rows
      modifies this
      ensures Valid() && nextId == old(nextId)
      ensures rows == Cancelled(old(rows), id) && b == rows[id]
    {
      rows := Cancelled(rows, id);
      b := rows[id];
    }
  }
}
