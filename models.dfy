/**
 * The stored records of src/bookings/models.py and src/tables/models.py,
 * and the consistency the booking core keeps between them.
 */
module Models {
  import opened TimeUtils

  /**
   * A row id: the serial primary keys start at 1. (Keeping ids in a subset
   * type, rather than in plain `int`, also lets the verifier compare sets of
   * them element by element.)
   */
  type Id = k: int | 1 <= k witness 1

  /** A booking is Active until cancelled; Canceled is terminal. */
  datatype BookingStatus = Active | Canceled

  /** A booking row; start, end and the creation stamp are UTC instants. */
  datatype Booking = Booking(
    id: Id,
    userId: int,
    tableId: int,
    start: Instant,
    end: Instant,
    status: BookingStatus,
    createdAt: Instant
  )

  /** A table row. */
  datatype Table = Table(id: Id, name: string, seats: int)

  function StartOf(b: Booking): int { b.start }

  function IdOf(t: Table): int { t.id }

  /** Half-open intervals `[aStart, aEnd)` and `[bStart, bEnd)` intersect; touching ends do not. */
  predicate Overlap(aStart: Instant, aEnd: Instant, bStart: Instant, bEnd: Instant)
  {
    aStart < bEnd && bStart < aEnd
  }

  /** Each row is stored under its own id. */
  ghost predicate KeysMatch<T>(rows: map<Id, T>, id: T -> int)
  {
    forall k :: k in rows ==> id(rows[k]) == k
  }

  /** No two Active bookings of one table overlap. */
  ghost predicate NoOverlap(rows: map<Id, Booking>)
  {
    forall i, j ::
      i in rows && j in rows && i != j &&
      rows[i].status == Active && rows[j].status == Active && rows[i].tableId == rows[j].tableId
      ==> !Overlap(rows[i].start, rows[i].end, rows[j].start, rows[j].end)
  }

  /** The booking store agrees with the table store: no double booking, and every booking names a stored table. */
  ghost predicate Consistent(tables: map<Id, Table>, bookings: map<Id, Booking>)
  {
    && NoOverlap(bookings)
    && forall k :: k in bookings ==> bookings[k].tableId in tables
  }
}

/** Row-set helpers the in-memory stores use to answer their queries. */
module Rows {
  import opened Models

  /** The keys of `rows` below `hi`: the rows a scan in id order has visited before reaching `hi`. */
  function KeysBelow<T>(rows: map<Id, T>, hi: int): set<Id>
  {
    set k | k in rows && k < hi
  }

  /** The rows stored under `keys` that satisfy the filter `p`. */
  ghost function Select<T>(rows: map<Id, T>, keys: set<Id>, p: T -> bool): set<T>
  {
    set k | k in keys && k in rows && p(rows[k]) :: rows[k]
  }

  /**
   * Visiting one more stored key adds its row to the selection when the row
   * passes the filter; that row was not selected before when rows are stored
   * under distinct ids.
   */
  lemma {:induction false} SelectAdd<T>(rows: map<Id, T>, keys: set<Id>, k: Id, p: T -> bool, id: T -> int)
    requires k in rows && k !in keys
    requires forall j :: j in rows ==> id(rows[j]) == j
    ensures Select(rows, keys + {k}, p) == Select(rows, keys, p) + (if p(rows[k]) then {rows[k]} else {})
    ensures rows[k] !in Select(rows, keys, p)
  {
    var before := Select(rows, keys, p);
    var after := Select(rows, keys + {k}, p);
    var extra: set<T> := if p(rows[k]) then {rows[k]} else {};
    forall x | x in after ensures x in before + extra {
      var j :| j in keys + {k} && j in rows && p(rows[j]) && rows[j] == x;
      if j != k { assert x in before; }
    }
    forall x | x in before + extra ensures x in after {
      if x in before {
        var j :| j in keys && j in rows && p(rows[j]) && rows[j] == x;
        assert j in keys + {k};
      }
    }
    forall x | x in before ensures x != rows[k] {
      var j :| j in keys && j in rows && p(rows[j]) && rows[j] == x;
      assert id(x) == j && id(rows[k]) == k;
    }
  }

  /**
   * One step of a scan in id order: passing key `hi` adds its row to the
   * selection, once, exactly when the row is stored and passes the filter.
   */
  lemma {:induction false} SelectBelowNext<T>(rows: map<Id, T>, hi: int, p: T -> bool, id: T -> int)
    requires forall j :: j in rows ==> id(rows[j]) == j
    ensures hi in rows && p(rows[hi]) ==>
      multiset(Select(rows, KeysBelow(rows, hi + 1), p)) == multiset(Select(rows, KeysBelow(rows, hi), p)) + multiset{rows[hi]}
    ensures !(hi in rows && p(rows[hi])) ==>
      Select(rows, KeysBelow(rows, hi + 1), p) == Select(rows, KeysBelow(rows, hi), p)
  {
    if hi in rows {
      assert KeysBelow(rows, hi + 1) == KeysBelow(rows, hi) + {hi};
      SelectAdd(rows, KeysBelow(rows, hi), hi, p, id);
      if p(rows[hi]) {
        MultisetAddNew(Select(rows, KeysBelow(rows, hi), p), rows[hi]);
      }
    } else {
      assert KeysBelow(rows, hi + 1) == KeysBelow(rows, hi);
    }
  }

  /** Selecting with a filter that keeps everything gives all stored rows. */
  lemma {:induction false} SelectAllIsValues<T>(rows: map<Id, T>)
    ensures Select(rows, rows.Keys, (x: T) => true) == rows.Values
  {
    forall x | x in rows.Values ensures x in Select(rows, rows.Keys, (x: T) => true) {
      var k :| k in rows && rows[k] == x;
    }
  }

  /** Adding a new element to a set adds one occurrence to its multiset. */
  lemma MultisetAddNew<T>(s: set<T>, x: T)
    requires x !in s
    ensures multiset(s + {x}) == multiset(s) + multiset{x}
  {
  }

  /** `s` is in ascending order of `key`. */
  predicate SortedBy<T>(s: seq<T>, key: T -> int)
  {
    forall i, j :: 0 <= i < j < |s| ==> key(s[i]) <= key(s[j])
  }
  /** `x` inserted into the ascending sequence `s` at the first place that keeps it ascending. */
  function InsertBy<T>(s: seq<T>, x: T, key: T -> int): (r: seq<T>)
    requires SortedBy(s, key)
    ensures SortedBy(r, key)
    ensures multiset(r) == multiset(s) + multiset{x}
    decreases |s|
  {
    if s == [] || key(x) <= key(s[0]) then
      ConsSorted(x, s, key);
      [x] + s
    else
      var rest := InsertBy(s[1..], x, key);
      assert s == [s[0]] + s[1..];
      assert forall y :: y in rest ==> key(s[0]) <= key(y) by {
        forall y | y in rest ensures key(s[0]) <= key(y) {
          assert y in multiset(rest);
          assert y == x || y in multiset(s[1..]);
        }
      }
      ConsSorted(s[0], rest, key);
      [s[0]] + rest
  }

  /** Putting an element no greater than any of an ascending sequence in front keeps it ascending. */
  lemma ConsSorted<T>(h: T, s: seq<T>, key: T -> int)
    requires SortedBy(s, key)
    requires forall y :: y in s ==> key(h) <= key(y)
    ensures SortedBy([h] + s, key)
  {
    var r := [h] + s;
    forall i, j | 0 <= i < j < |r| ensures key(r[i]) <= key(r[j]) {
      if i > 0 {
        assert r[i] == s[i - 1] && r[j] == s[j - 1];
      } else {
        assert r[j] in s;
      }
    }
  }
}
