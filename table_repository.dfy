/**
 * The table store of src/tables/repositories.py. TableRepository shares the
 * database with the booking store: `get_available` reads bookings through a
 * subquery, and deleting a table removes its bookings (the
 * `cascade="all, delete-orphan"` relationship of src/tables/models.py).
 */
module TableRepositories {
  import opened Wrappers
  import opened TimeUtils
  import opened Models
  import opened Rows
  import opened BookingRepositories

  /**
   * The busy-table subquery of `get_available`: some Active booking of the
   * table intersects `[start, end)`. A table is busy exactly when
   * `has_conflict` for it, with no excluded booking, reports a conflict: the
   * listing and the booking check apply the same overlap rule.
   */
  predicate Busy(bookings: map<Id, Booking>, tableId: int, start: Instant, end: Instant)
    ensures Busy(bookings, tableId, start, end) <==> AnyConflict(bookings, tableId, start, end, None)
  {
    var found := (exists k :: k in bookings && bookings[k].tableId == tableId && bookings[k].status == Active
                               && bookings[k].start < end && bookings[k].end > start);
    if found then
      var k :| k in bookings && bookings[k].tableId == tableId && bookings[k].status == Active
        && bookings[k].start < end && bookings[k].end > start;
      assert Blocks(bookings[k], tableId, start, end, None);
      true
    else
      false
  }

  /** The row filter of `get_available`: not busy, and seating at least `seats` when a size is asked for. */
  predicate Available(bookings: map<Id, Booking>, t: Table, start: Instant, end: Instant, seats: Option<int>)
    ensures Available(bookings, t, start, end, seats) <==>
      !AnyConflict(bookings, t.id, start, end, None) && (seats.None? || t.seats >= seats.value)
  {
    !Busy(bookings, t.id, start, end) && (seats.None? || t.seats >= seats.value)
  }

  /** The tables `get_available` must return. */
  ghost function AvailableOf(tables: map<Id, Table>, bookings: map<Id, Booking>, start: Instant, end: Instant, seats: Option<int>)
    : set<Table>
  {
    Select(tables, tables.Keys, (t: Table) => Available(bookings, t, start, end, seats))
  }

  /**
   * The tables `get_available` returns are exactly the stored tables with
   * enough seats on which `has_conflict` finds no booking in the interval.
   */
  lemma {:induction false} AvailableOfMeansNoConflict(
    tables: map<Id, Table>, bookings: map<Id, Booking>, start: Instant, end: Instant, seats: Option<int>, t: Table)
    requires KeysMatch(tables, IdOf)
    ensures t in AvailableOf(tables, bookings, start, end, seats) <==>
      && t.id in tables && tables[t.id] == t
      && !AnyConflict(bookings, t.id, start, end, None)
      && (seats.None? || t.seats >= seats.value)
  {
    if t in AvailableOf(tables, bookings, start, end, seats) {
      var k :| k in tables.Keys && k in tables && Available(bookings, tables[k], start, end, seats) && tables[k] == t;
      assert IdOf(tables[k]) == k;
    }
    if t.id in tables && tables[t.id] == t && Available(bookings, t, start, end, seats) {
      assert tables[t.id] in AvailableOf(tables, bookings, start, end, seats);
    }
  }

  /** A larger party never sees more tables: raising the seat filter only removes tables. */
  lemma {:induction false} MoreSeatsFewerTables(
    tables: map<Id, Table>, bookings: map<Id, Booking>, start: Instant, end: Instant, few: int, many: int)
    requires few <= many
    ensures AvailableOf(tables, bookings, start, end, Some(many)) <= AvailableOf(tables, bookings, start, end, Some(few))
    ensures AvailableOf(tables, bookings, start, end, Some(few)) <= AvailableOf(tables, bookings, start, end, None)
  {
    forall t | t in AvailableOf(tables, bookings, start, end, Some(many))
      ensures t in AvailableOf(tables, bookings, start, end, Some(few))
    {
      var k :| k in tables.Keys && k in tables && Available(bookings, tables[k], start, end, Some(many)) && tables[k] == t;
      assert Available(bookings, tables[k], start, end, Some(few));
    }
    forall t | t in AvailableOf(tables, bookings, start, end, Some(few))
      ensures t in AvailableOf(tables, bookings, start, end, None)
    {
      var k :| k in tables.Keys && k in tables && Available(bookings, tables[k], start, end, Some(few)) && tables[k] == t;
      assert Available(bookings, tables[k], start, end, None);
    }
  }

  /**
   * `update`: each field given replaces the stored one; a field left out
   * (None) keeps its value; the id never changes.
   */
  function UpdatedTable(t: Table, name: Option<string>, seats: Option<int>): (r: Table)
    ensures r.id == t.id
    ensures r.name == (if name.Some? then name.value else t.name)
    ensures r.seats == (if seats.Some? then seats.value else t.seats)
  {
    var named := if name.Some? then t.(name := name.value) else t;
    if seats.Some? then named.(seats := seats.value) else named
  }

  /** An update with no field given leaves the table as it was. */
  lemma EmptyUpdateIsIdentity(t: Table)
    ensures UpdatedTable(t, None, None) == t
  {
  }

  /** Applying the same update twice is applying it once. */
  lemma UpdateIdempotent(t: Table, name: Option<string>, seats: Option<int>)
    ensures UpdatedTable(UpdatedTable(t, name, seats), name, seats) == UpdatedTable(t, name, seats)
  {
  }

  /** Deleting a table deletes every booking of it, whatever its status, and no other. */
  function WithoutTable(bookings: map<Id, Booking>, tableId: int): (r: map<Id, Booking>)
    ensures forall k :: k in r <==> k in bookings && bookings[k].tableId != tableId
    ensures forall k :: k in r ==> r[k] == bookings[k]
  {
    map k | k in bookings && bookings[k].tableId != tableId :: bookings[k]
  }

  /**
   * The cascade keeps the stores consistent: after a table and its bookings
   * are removed, every remaining booking still names a stored table and
   * Active bookings stay apart.
   */
  lemma {:induction false} DeleteKeepsConsistent(tables: map<Id, Table>, bookings: map<Id, Booking>, id: Id)
    requires Consistent(tables, bookings)
    ensures Consistent(tables - {id}, WithoutTable(bookings, id))
  {
    var r := WithoutTable(bookings, id);
    forall i, j | i in r && j in r && i != j && r[i].status == Active && r[j].status == Active && r[i].tableId == r[j].tableId
      ensures !Overlap(r[i].start, r[i].end, r[j].start, r[j].end)
    {
      assert r[i] == bookings[i] && r[j] == bookings[j];
    }
    forall k | k in r ensures r[k].tableId in tables - {id} {
      assert r[k] == bookings[k];
    }
  }

  /** Without the cascade, deleting a table with a booking would leave that booking naming no table. */
  lemma {:induction false} CascadeNeeded(tables: map<Id, Table>, bookings: map<Id, Booking>, id: Id, k: Id)
    requires k in bookings && bookings[k].tableId == id
    ensures !Consistent(tables - {id}, bookings)
    ensures k !in WithoutTable(bookings, id)
  {
    assert bookings[k].tableId !in tables - {id};
  }

  class TableRepository {
    /** The table rows, keyed by id. */
    var rows: map<Id, Table>
    /** The next value of the id sequence. */
    var nextId: int
    /** The booking rows of the same database. */
    const bookings: BookingRepository

    /** Every row is stored under its own id, and ids come from the sequence. */
    ghost predicate Valid()
      reads this
    {
      && 1 <= nextId
      && KeysMatch(rows, IdOf)
      && forall k :: k in rows ==> k < nextId
    }

    constructor (bookings: BookingRepository)
      ensures Valid() && rows == map[] && nextId == 1 && this.bookings == bookings
    {
      rows := map[];
      nextId := 1;
      this.bookings := bookings;
    }

    /** `get_by_id`: the table with that id, or None. */
    function GetById(id: int): (r: Option<Table>)
      requires Valid()
      reads this
      ensures r.Some? <==> id in rows
      ensures r.Some? ==> r.value == rows[id] && r.value.id == id
    {
      if id in rows then Some(rows[id]) else None
    }

    /** `get_all`: every table once, in ascending order of id. */
    method GetAll() returns (r: seq<Table>)
      requires Valid()
      ensures forall i, j :: 0 <= i < j < |r| ==> r[i].id < r[j].id
      ensures multiset(r) == multiset(rows.Values)
    {
      r := [];
      ghost var p := (t: Table) => true;
      var id := 1;
      while id < nextId
        invariant 1 <= id <= nextId
        invariant forall i, j :: 0 <= i < j < |r| ==> r[i].id < r[j].id
        invariant forall i :: 0 <= i < |r| ==> r[i].id < id
        invariant multiset(r) == multiset(Select(rows, KeysBelow(rows, id), p))
      {
        SelectBelowNext(rows, id, p, IdOf);
        if id in rows {
          r := r + [rows[id]];
        }
        id := id + 1;
      }
      assert KeysBelow(rows, nextId) == rows.Keys;
      SelectAllIsValues(rows);
    }

    /**
     * `get_available`: the tables with no Active booking intersecting
     * `[start, end)` and, when `seats` is given, at least that many seats;
     * each once, in no promised order.
     */
    method GetAvailable(start: Instant, end: Instant, seats: Option<int>) returns (r: seq<Table>)
      requires Valid()
      ensures multiset(r) == multiset(AvailableOf(rows, bookings.rows, start, end, seats))
    {
      r := [];
      var booked := bookings.rows;
      ghost var p := (t: Table) => Available(booked, t, start, end, seats);
      var id := 1;
      while id < nextId
        invariant 1 <= id <= nextId
        invariant multiset(r) == multiset(Select(rows, KeysBelow(rows, id), p))
      {
        SelectBelowNext(rows, id, p, IdOf);
        if id in rows && !Busy(booked, id, start, end) && (seats.None? || rows[id].seats >= seats.value) {
          r := r + [rows[id]];
        }
        id := id + 1;
      }
      assert KeysBelow(rows, nextId) == rows.Keys;
    }

    /** `create`: inserts a table under the next id and returns that id. */
    method Create(name: string, seats: int) returns (id: Id)
      requires Valid()
      modifies this
      ensures Valid()
      ensures id == old(nextId) && id !in old(rows) && nextId == old(nextId) + 1
      ensures rows == old(rows)[id := Table(id, name, seats)]
    {
      id := nextId;
      rows := rows[id := Table(id, name, seats)];
      nextId := nextId + 1;
    }

    /** `update`: overwrites the fields given of a loaded table in place. */
    method Update(id: int, name: Option<string>, seats: Option<int>) returns (t: Table)
      requires Valid() && id in rows
      modifies this
      ensures Valid() && nextId == old(nextId)
      ensures rows == old(rows)[id := UpdatedTable(old(rows)[id], name, seats)] && t == rows[id]
    {
      t := UpdatedTable(rows[id], name, seats);
      rows := rows[id := t];
    }

    /** `delete`: removes a loaded table and, through the cascade, all of its bookings. */
    method Delete(id: int) returns ()
      requires Valid() && bookings.Valid() && id in rows
      modifies this, bookings
      ensures Valid() && bookings.Valid()
      ensures rows == old(rows) - {id} && nextId == old(nextId)
      ensures bookings.rows == WithoutTable(old(bookings.rows), id) && bookings.nextId == old(bookings.nextId)
    {
      rows := rows - {id};
      bookings.rows := WithoutTable(bookings.rows, id);
    }
  }
}
