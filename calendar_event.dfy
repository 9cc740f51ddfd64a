/** The `calendar_events` table (backend/models/CalendarEvent.js): a per-user
    list of scheduled recipes, with listing, insertion and owner-checked
    deletion. The table is an in-memory sequence of rows; `nextId` plays the
    part of the auto-increment counter that yields `insertId`. */
module CalendarEventModel {
  import opened Text
  import opened Sorting

  /** One row of `calendar_events`. */
  datatype Row = Row(
    id: nat,
    userId: int,
    title: string,
    day: int,
    month: int,
    year: int,
    timeFrom: string,
    timeTo: string)

  /** The six fields `create` takes from the event data; nothing else is read. */
  datatype EventFields = EventFields(
    title: string,
    day: int,
    month: int,
    year: int,
    timeFrom: string,
    timeTo: string)

  /** Lexicographic order on the time text: the order of `ORDER BY time_from`. */
  predicate TextLe(a: string, b: string) {
    a == [] || (b != [] && (a[0] < b[0] || (a[0] == b[0] && TextLe(a[1..], b[1..]))))
  }

  lemma {:induction false} TextLeTotal(a: string, b: string)
    ensures TextLe(a, b) || TextLe(b, a)
  {
    if a != [] && b != [] && a[0] == b[0] {
      TextLeTotal(a[1..], b[1..]);
    }
  }

  lemma {:induction false} TextLeTransitive(a: string, b: string, c: string)
    requires TextLe(a, b) && TextLe(b, c)
    ensures TextLe(a, c)
  {
    if a != [] && b != [] && c != [] && a[0] == b[0] && b[0] == c[0] {
      TextLeTransitive(a[1..], b[1..], c[1..]);
    }
  }

  predicate TimeLe(a: Row, b: Row) {
    TextLe(a.timeFrom, b.timeFrom)
  }

  /** Rows are compared by `time_from` only; the comparison is a sound one. */
  lemma TimeLeIsTotalPreorder()
    ensures TotalPreorder(TimeLe)
  {
    forall a: Row, b: Row
      ensures TimeLe(a, b) || TimeLe(b, a)
    {
      TextLeTotal(a.timeFrom, b.timeFrom);
    }
    forall a: Row, b: Row, c: Row | TimeLe(a, b) && TimeLe(b, c)
      ensures TimeLe(a, c)
    {
      TextLeTransitive(a.timeFrom, b.timeFrom, c.timeFrom);
    }
  }

  /** The rows of user `u`, in table order (`WHERE user_id = ?`). */
  function OwnedBy(rows: seq<Row>, u: int): (r: seq<Row>)
    ensures forall k :: 0 <= k < |r| ==> r[k].userId == u
    ensures forall k :: 0 <= k < |rows| && rows[k].userId == u ==> rows[k] in r
    ensures |r| <= |rows|
  {
    if rows == [] then []
    else if rows[0].userId == u then [rows[0]] + OwnedBy(rows[1..], u)
    else OwnedBy(rows[1..], u)
  }

  lemma {:induction false} OwnedByAppend(rows: seq<Row>, extra: Row, u: int)
    ensures OwnedBy(rows + [extra], u) == OwnedBy(rows, u) + (if extra.userId == u then [extra] else [])
  {
    if rows == [] {
      assert rows + [extra] == [extra];
    } else {
      assert (rows + [extra])[1..] == rows[1..] + [extra];
      OwnedByAppend(rows[1..], extra, u);
    }
  }

  /** `SELECT * ... WHERE user_id = ? ORDER BY time_from ASC`. Rows with the
      same `time_from` may come back in any order; this is one such order. */
  function Select(rows: seq<Row>, u: int): (r: seq<Row>)
    ensures SortedBy(r, TimeLe)
    ensures multiset(r) == multiset(OwnedBy(rows, u))
  {
    TimeLeIsTotalPreorder();
    SortBy(OwnedBy(rows, u), TimeLe)
  }

  /** The listing holds exactly the caller's rows, sorted by `time_from`. */
  lemma SelectIsOwnedAndSorted(rows: seq<Row>, u: int)
    ensures multiset(Select(rows, u)) == multiset(OwnedBy(rows, u))
    ensures SortedBy(Select(rows, u), TimeLe)
    ensures forall r :: r in Select(rows, u) <==> r in rows && r.userId == u
  {
    var s := Select(rows, u);
    forall r
      ensures r in s <==> r in rows && r.userId == u
    {
      assert r in s <==> r in multiset(OwnedBy(rows, u));
      if r in OwnedBy(rows, u) {
        OwnedByMember(rows, u, r);
      }
    }
  }

  lemma {:induction false} OwnedByMember(rows: seq<Row>, u: int, r: Row)
    requires r in OwnedBy(rows, u)
    ensures r in rows && r.userId == u
  {
    if rows != [] && !(rows[0].userId == u && r == rows[0]) {
      OwnedByMember(rows[1..], u, r);
    }
  }

  /** The table without the row `(id, u)` (`DELETE ... WHERE id = ? AND user_id = ?`). */
  function Without(rows: seq<Row>, id: int, u: int): (r: seq<Row>)
    ensures forall k :: 0 <= k < |r| ==> !(r[k].id == id && r[k].userId == u)
    ensures forall k :: 0 <= k < |rows| && !(rows[k].id == id && rows[k].userId == u) ==> rows[k] in r
    ensures |r| <= |rows|
  {
    if rows == [] then []
    else if rows[0].id == id && rows[0].userId == u then Without(rows[1..], id, u)
    else [rows[0]] + Without(rows[1..], id, u)
  }

  predicate HasRow(rows: seq<Row>, id: int, u: int) {
    exists k :: 0 <= k < |rows| && rows[k].id == id && rows[k].userId == u
  }

  /** Deleting a row that is not there changes nothing. */
  lemma {:induction false} WithoutAbsent(rows: seq<Row>, id: int, u: int)
    requires !HasRow(rows, id, u)
    ensures Without(rows, id, u) == rows
  {
    if rows != [] {
      assert !HasRow(rows[1..], id, u) by {
        forall k | 0 <= k < |rows[1..]|
          ensures !(rows[1..][k].id == id && rows[1..][k].userId == u)
        {
          assert rows[1..][k] == rows[k + 1];
        }
      }
      WithoutAbsent(rows[1..], id, u);
    }
  }

  /** Deleting the row `(id, u)` removes exactly one row when ids are unique. */
  lemma {:induction false} WithoutPresent(rows: seq<Row>, id: int, u: int)
    requires UniqueIds(rows)
    requires HasRow(rows, id, u)
    ensures |Without(rows, id, u)| == |rows| - 1
  {
    if rows[0].id == id && rows[0].userId == u {
      assert !HasRow(rows[1..], id, u) by {
        forall k | 0 <= k < |rows[1..]|
          ensures rows[1..][k].id != id
        {
          assert rows[1..][k] == rows[k + 1];
        }
      }
      WithoutAbsent(rows[1..], id, u);
    } else {
      var k :| 0 <= k < |rows| && rows[k].id == id && rows[k].userId == u;
      assert rows[1..][k - 1] == rows[k];
      WithoutPresent(rows[1..], id, u);
    }
  }

  predicate UniqueIds(rows: seq<Row>) {
    forall i, j :: 0 <= i < j < |rows| ==> rows[i].id != rows[j].id
  }

  /** The row `create` inserts for user `u`. */
  function NewRow(id: nat, u: int, e: EventFields): Row {
    Row(id, u, e.title, e.day, e.month, e.year, e.timeFrom, e.timeTo)
  }

  /** After an insertion for user `u`, `u`'s listing gains the new row and every
      other user's listing is unchanged. */
  lemma CreateVisibleOnlyToOwner(rows: seq<Row>, id: nat, u: int, e: EventFields, v: int)
    ensures NewRow(id, u, e) in Select(rows + [NewRow(id, u, e)], u)
    ensures v != u ==> NewRow(id, u, e) !in Select(rows + [NewRow(id, u, e)], v)
    ensures v != u ==> multiset(Select(rows + [NewRow(id, u, e)], v)) == multiset(Select(rows, v))
  {
    var r := NewRow(id, u, e);
    SelectIsOwnedAndSorted(rows + [r], u);
    SelectIsOwnedAndSorted(rows + [r], v);
    SelectIsOwnedAndSorted(rows, v);
    OwnedByAppend(rows, r, v);
  }

  class EventTable {
    var rows: seq<Row>
    var nextId: nat

    /** Ids are unique and below the auto-increment counter. */
    ghost predicate Valid()
      reads this
    {
      && UniqueIds(rows)
      && (forall k :: 0 <= k < |rows| ==> rows[k].id < nextId)
    }

    constructor ()
      ensures Valid() && rows == [] && nextId == 1
    {
      rows := [];
      nextId := 1;
    }

    /** `getByUserId(userId)`. */
    method GetByUserId(u: int) returns (list: seq<Row>)
      requires Valid()
      ensures multiset(list) == multiset(OwnedBy(rows, u))
      ensures forall r :: r in list <==> r in rows && r.userId == u
      ensures SortedBy(list, TimeLe)
    {
      list := Select(rows, u);
      SelectIsOwnedAndSorted(rows, u);
    }

    /** `create(userId, eventData)`: inserts the row and echoes it with its new id. */
    method Create(u: int, e: EventFields) returns (created: Row)
      requires Valid()
      modifies this
      ensures Valid()
      ensures created == NewRow(old(nextId), u, e)
      ensures forall k :: 0 <= k < |old(rows)| ==> old(rows)[k].id != created.id
      ensures rows == old(rows) + [created]
      ensures nextId == old(nextId) + 1
    {
      created := NewRow(nextId, u, e);
      rows := rows + [created];
      nextId := nextId + 1;
    }

    /** `delete(eventId, userId)`: true exactly when a row with that id and that
        owner existed; only that row goes. */
    method Delete(id: int, u: int) returns (deleted: bool)
      requires Valid()
      modifies this
      ensures Valid()
      ensures deleted == HasRow(old(rows), id, u)
      ensures rows == Without(old(rows), id, u)
      ensures deleted ==> |rows| == |old(rows)| - 1
      ensures !deleted ==> rows == old(rows)
      ensures nextId == old(nextId)
    {
      var before := rows;
      deleted := HasRow(rows, id, u);
      rows := Without(rows, id, u);
      if deleted {
        WithoutPresent(before, id, u);
      } else {
        WithoutAbsent(before, id, u);
      }
      WithoutKeepsUnique(before, id, u);
      forall k | 0 <= k < |rows|
        ensures rows[k].id < nextId
      {
        assert rows[k] in before;
      }
    }
  }

  lemma {:induction false} WithoutKeepsUnique(rows: seq<Row>, id: int, u: int)
    requires UniqueIds(rows)
    ensures UniqueIds(Without(rows, id, u))
    ensures forall r :: r in Without(rows, id, u) ==> r in rows
  {
    if rows != [] {
      WithoutKeepsUnique(rows[1..], id, u);
      var rest := Without(rows[1..], id, u);
      forall r | r in rest
        ensures r.id != rows[0].id
      {
        var k :| 0 <= k < |rows[1..]| && rows[1..][k] == r;
        assert rows[k + 1] == r;
      }
    }
  }
}
