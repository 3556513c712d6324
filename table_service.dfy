/**
 * TableService of src/tables/services.py: table administration and the
 * listing of tables free for a requested date and time. The listing runs the
 * same slot rules as booking creation (module SlotRules).
 */
module TableServices {
  import opened Wrappers
  import opened TimeUtils
  import opened Errors
  import opened Config
  import opened Models
  import opened SlotRules
  import opened TableRepositories

  /**
   * What `list_available_tables` answers: the first failed slot rule's
   * error, or the tables free for the whole requested UTC interval.
   */
  ghost function AvailableTablesFor(s: Settings, tables: map<Id, Table>, bookings: map<Id, Booking>,
                                    d: Date, t: Time, seats: Option<int>, now: Instant): Result<set<Table>, AppError>
    requires s.slotMinutes != 0
  {
    match UtcInterval(s, d, t, now)
    case Failure(e) => Failure(e)
    case Success(iv) => Success(AvailableOf(tables, bookings, iv.0, iv.1, seats))
  }

  class TableService {
    const tables: TableRepository
    const settings: Settings

    /** The table store and its booking store are well formed and consistent, and the slot size can divide. */
    ghost predicate Valid()
      reads this, tables, tables.bookings
    {
      && tables.Valid() && tables.bookings.Valid()
      && Consistent(tables.rows, tables.bookings.rows)
      && settings.slotMinutes != 0
    }

    constructor (tables: TableRepository, settings: Settings)
      requires tables.Valid() && tables.bookings.Valid() && Consistent(tables.rows, tables.bookings.rows)
      requires settings.slotMinutes != 0
      ensures Valid() && this.tables == tables && this.settings == settings
    {
      this.tables := tables;
      this.settings := settings;
    }

    /** `get_tables`: every table once, in ascending order of id. */
    method GetTables() returns (r: seq<Table>)
      requires Valid()
      ensures forall i, j :: 0 <= i < j < |r| ==> r[i].id < r[j].id
      ensures multiset(r) == multiset(tables.rows.Values)
    {
      r := tables.GetAll();
    }

    /** `get_table`: the stored table, or "Table not found". */
    function GetTable(id: int): (r: Result<Table, AppError>)
      requires Valid()
      reads this, tables, tables.bookings
      ensures r.Success? <==> id in tables.rows
      ensures r.Success? ==> r.value == tables.rows[id] && r.value.id == id
      ensures r.Failure? ==> r.error == NotFoundError(TableNotFound)
    {
      match tables.GetById(id)
      case None => Failure(NotFoundError(TableNotFound))
      case Some(table) => Success(table)
    }

    /**
     * `create_table`: a new table under the next id, read back and returned.
     * Name and seats are stored as given.
     */
    method CreateTable(name: string, seats: int) returns (r: Table)
      requires Valid()
      modifies tables
      ensures Valid()
      ensures r == Table(old(tables.nextId), name, seats) && r.id !in old(tables.rows)
      ensures tables.rows == old(tables.rows)[r.id := r] && tables.nextId == old(tables.nextId) + 1
    {
      var id := tables.Create(name, seats);
      r := tables.GetById(id).value;
    }

    /** `update_table`: the fields given replace the stored ones; "Table not found" otherwise. */
    method UpdateTable(id: int, name: Option<string>, seats: Option<int>) returns (r: Result<Table, AppError>)
      requires Valid()
      modifies tables
      ensures Valid() && tables.nextId == old(tables.nextId)
      ensures id !in old(tables.rows) ==> r == Failure(NotFoundError(TableNotFound)) && tables.rows == old(tables.rows)
      ensures id in old(tables.rows) ==>
        && tables.rows == old(tables.rows)[id := UpdatedTable(old(tables.rows)[id], name, seats)]
        && r == Success(tables.rows[id])
    {
      var found := tables.GetById(id);
      if found.None? {
        return Failure(NotFoundError(TableNotFound));
      }
      var table := tables.Update(id, name, seats);
      r := Success(table);
    }

    /** `delete_table`: the table and all its bookings are removed; "Table not found" otherwise. */
    method DeleteTable(id: int) returns (r: Outcome<AppError>)
      requires Valid()
      modifies tables, tables.bookings
      ensures Valid() && tables.nextId == old(tables.nextId) && tables.bookings.nextId == old(tables.bookings.nextId)
      ensures id !in old(tables.rows) ==>
        && r == Fail(NotFoundError(TableNotFound))
        && tables.rows == old(tables.rows) && tables.bookings.rows == old(tables.bookings.rows)
      ensures id in old(tables.rows) ==>
        && r == Pass
        && tables.rows == old(tables.rows) - {id}
        && tables.bookings.rows == WithoutTable(old(tables.bookings.rows), id)
    {
      var found := tables.GetById(id);
      if found.None? {
        return Fail(NotFoundError(TableNotFound));
      }
      DeleteKeepsConsistent(tables.rows, tables.bookings.rows, found.value.id);
      tables.Delete(id);
      r := Pass;
    }

    /**
     * `list_available_tables`: the first failed slot rule's error, or the
     * tables with enough seats that no Active booking occupies during the
     * requested interval, each once.
     */
    method ListAvailableTables(d: Date, t: Time, seats: Option<int>, now: Instant) returns (r: Result<seq<Table>, AppError>)
      requires Valid()
      ensures var a := AvailableTablesFor(settings, tables.rows, tables.bookings.rows, d, t, seats, now);
        && (r.Failure? <==> a.Failure?)
        && (r.Failure? ==> r.error == a.error)
        && (r.Success? ==> multiset(r.value) == multiset(a.value))
    {
      var slot := BuildSlot(settings, d, t, now);
      if slot.Failure? {
        return Failure(slot.error);
      }
      var start := InstantOf(ToUtc(slot.value.start));
      var end := InstantOf(ToUtc(slot.value.end));
      var free := tables.GetAvailable(start, end, seats);
      r := Success(free);
    }
  }
}
