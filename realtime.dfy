/**
 * The map page's realtime reducer (`handleRealtimeUpdate` in `components/map.js`): a change
 * event from a subscribed table updates the list of stations shown on the map.
 */
module Realtime {

  const StationsTable: string := "stations"
  const AccessibilityUpdatesTable: string := "accessibility_updates"
  const RealTimeIssuesTable: string := "real_time_issues"

  /** A row as the realtime channel delivers it: its `id` and its other columns. */
  datatype Row<T> = Row(id: int, fields: T)

  /** A `postgres_changes` payload: the table it came from, `eventType`, `new` and `old`. */
  datatype Payload<T> = Payload(table: string, eventType: string, newRow: Row<T>, oldRow: Row<T>)

  /** `rows.map(row => row.id === updated.id ? updated : row)`. */
  function ReplaceById<T(!new)>(rows: seq<Row<T>>, updated: Row<T>): (r: seq<Row<T>>)
    ensures |r| == |rows|
    ensures forall i :: 0 <= i < |rows| && rows[i].id == updated.id ==> r[i] == updated
    ensures forall i :: 0 <= i < |rows| && rows[i].id != updated.id ==> r[i] == rows[i]
    decreases |rows|
  {
    if rows == [] then []
    else [if rows[0].id == updated.id then updated else rows[0]] + ReplaceById(rows[1..], updated)
  }

  /** `rows.filter(row => row.id !== id)`. */
  function RemoveById<T(!new)>(rows: seq<Row<T>>, id: int): (r: seq<Row<T>>)
    ensures forall x :: x in r <==> x in rows && x.id != id
    ensures |r| <= |rows|
    decreases |rows|
  {
    if rows == [] then []
    else if rows[0].id == id then RemoveById(rows[1..], id)
    else [rows[0]] + RemoveById(rows[1..], id)
  }

  /**
   * `handleRealtimeUpdate(payload)` applied to the current list `prev`: an INSERT appends the
   * new row, an UPDATE replaces every row with the new row's id, a DELETE drops every row with
   * the old row's id, and any other event type leaves the list alone. The table the payload
   * came from is not looked at.
   */
  function HandleRealtimeUpdate<T(!new)>(prev: seq<Row<T>>, payload: Payload<T>): (r: seq<Row<T>>)
    ensures payload.eventType == "INSERT" ==>
              |r| == |prev| + 1 && r[..|prev|] == prev && r[|prev|] == payload.newRow
    ensures payload.eventType == "UPDATE" ==>
              |r| == |prev|
              && (forall i :: 0 <= i < |prev| && prev[i].id == payload.newRow.id ==> r[i] == payload.newRow)
              && (forall i :: 0 <= i < |prev| && prev[i].id != payload.newRow.id ==> r[i] == prev[i])
    ensures payload.eventType == "DELETE" ==>
              forall x :: x in r <==> x in prev && x.id != payload.oldRow.id
    ensures payload.eventType !in {"INSERT", "UPDATE", "DELETE"} ==> r == prev
  {
    match payload.eventType
    case "INSERT" => prev + [payload.newRow]
    case "UPDATE" => ReplaceById(prev, payload.newRow)
    case "DELETE" => RemoveById(prev, payload.oldRow.id)
    case _ => prev
  }

  /** An UPDATE for an id that no row has leaves the list unchanged. */
  lemma UpdateOfAbsentIdChangesNothing<T(!new)>(prev: seq<Row<T>>, payload: Payload<T>)
    requires payload.eventType == "UPDATE"
    requires forall x :: x in prev ==> x.id != payload.newRow.id
    ensures HandleRealtimeUpdate(prev, payload) == prev
  {
    var r := HandleRealtimeUpdate(prev, payload);
    forall i | 0 <= i < |prev|
      ensures r[i] == prev[i]
    {
      assert prev[i] in prev;
    }
  }

  /** Delivering the same UPDATE or DELETE twice has the effect of delivering it once. */
  lemma ReplayedChangeIsIdempotent<T(!new)>(prev: seq<Row<T>>, payload: Payload<T>)
    requires payload.eventType in {"UPDATE", "DELETE"}
    ensures var once := HandleRealtimeUpdate(prev, payload);
      HandleRealtimeUpdate(once, payload) == once
  {
    var once := HandleRealtimeUpdate(prev, payload);
    if payload.eventType == "DELETE" {
      RemoveAbsentId(once, payload.oldRow.id);
    } else {
      var twice := HandleRealtimeUpdate(once, payload);
      assert forall i :: 0 <= i < |once| ==> twice[i] == once[i];
    }
  }

  /** Filtering out an id no row has keeps the list as it is. */
  lemma {:induction false} RemoveAbsentId<T(!new)>(rows: seq<Row<T>>, id: int)
    requires forall x :: x in rows ==> x.id != id
    ensures RemoveById(rows, id) == rows
    decreases |rows|
  {
    if rows != [] {
      assert rows[0] in rows;
      assert forall x :: x in rows[1..] ==> x in rows;
      RemoveAbsentId(rows[1..], id);
    }
  }

  /** Filtering by id keeps the order of the surviving rows: it distributes over concatenation. */
  lemma {:induction false} RemoveDistributes<T(!new)>(a: seq<Row<T>>, b: seq<Row<T>>, id: int)
    ensures RemoveById(a + b, id) == RemoveById(a, id) + RemoveById(b, id)
    decreases |a|
  {
    if a != [] {
      assert (a + b)[0] == a[0] && (a + b)[1..] == a[1..] + b;
      RemoveDistributes(a[1..], b, id);
      if a[0].id != id {
        assert RemoveById(a + b, id) == [a[0]] + (RemoveById(a[1..], id) + RemoveById(b, id));
      }
    } else {
      assert a + b == b;
    }
  }

  /** Inserting a row whose id is new and then deleting that id gives back the original list. */
  lemma InsertThenDeleteRestores<T(!new)>(prev: seq<Row<T>>, insert: Payload<T>, delete: Payload<T>)
    requires insert.eventType == "INSERT" && delete.eventType == "DELETE"
    requires delete.oldRow.id == insert.newRow.id
    requires forall x :: x in prev ==> x.id != insert.newRow.id
    ensures HandleRealtimeUpdate(HandleRealtimeUpdate(prev, insert), delete) == prev
  {
    var id := insert.newRow.id;
    assert HandleRealtimeUpdate(prev, insert) == prev + [insert.newRow];
    RemoveDistributes(prev, [insert.newRow], id);
    RemoveAbsentId(prev, id);
    assert RemoveById([insert.newRow], id) == [];
  }

  /**
   * As written, the same reducer receives the payloads of all three subscribed tables, so an
   * INSERT on `accessibility_updates` or `real_time_issues` adds that row to the station list.
   */
  lemma AsWrittenOtherTableJoinsStations<T(!new)>(prev: seq<Row<T>>, payload: Payload<T>)
    requires payload.table in {AccessibilityUpdatesTable, RealTimeIssuesTable}
    requires payload.eventType == "INSERT"
    ensures payload.newRow in HandleRealtimeUpdate(prev, payload)
  {
    var r := HandleRealtimeUpdate(prev, payload);
    assert r[|prev|] == payload.newRow;
  }

  /**
   * As written, an UPDATE or DELETE on `accessibility_updates` or `real_time_issues` whose row id
   * equals a station's id overwrites or drops that station, though the two rows are unrelated.
   */
  lemma AsWrittenForeignIdHitsStation<T(!new)>(prev: seq<Row<T>>, payload: Payload<T>, i: nat)
    requires payload.table in {AccessibilityUpdatesTable, RealTimeIssuesTable}
    requires i < |prev|
    ensures payload.eventType == "UPDATE" && payload.newRow.id == prev[i].id ==>
              HandleRealtimeUpdate(prev, payload)[i] == payload.newRow
    ensures payload.eventType == "DELETE" && payload.oldRow.id == prev[i].id ==>
              prev[i] !in HandleRealtimeUpdate(prev, payload)
  {
  }

  /** The station list's reducer with changes from any table other than `stations` ignored. */
  function HandleStationChange<T(!new)>(prev: seq<Row<T>>, payload: Payload<T>): (r: seq<Row<T>>)
    ensures payload.table != StationsTable ==> r == prev
    ensures payload.table == StationsTable ==> r == HandleRealtimeUpdate(prev, payload)
  {
    if payload.table == StationsTable then HandleRealtimeUpdate(prev, payload) else prev
  }

  /** The station list after a sequence of events, delivered in order. */
  function ApplyAll<T(!new)>(prev: seq<Row<T>>, events: seq<Payload<T>>): seq<Row<T>>
    decreases |events|
  {
    if events == [] then prev else ApplyAll(HandleStationChange(prev, events[0]), events[1..])
  }

  /**
   * With the table check, every row on the map was either loaded initially or carried by an
   * INSERT or UPDATE event of the `stations` table.
   */
  lemma {:induction false} OnlyStationRowsShown<T(!new)>(init: seq<Row<T>>, events: seq<Payload<T>>)
    ensures forall x :: x in ApplyAll(init, events) ==>
              x in init || exists e :: e in events && e.table == StationsTable && x == e.newRow
    decreases |events|
  {
    if events != [] {
      var next := HandleStationChange(init, events[0]);
      assert forall x :: x in next ==> x in init || (events[0].table == StationsTable && x == events[0].newRow) by {
        forall x | x in next
          ensures x in init || (events[0].table == StationsTable && x == events[0].newRow)
        {
          if events[0].table == StationsTable && events[0].eventType == "INSERT" {
            assert next == init + [events[0].newRow];
          } else if events[0].table == StationsTable && events[0].eventType == "UPDATE" {
            var i :| 0 <= i < |next| && next[i] == x;
            assert x == events[0].newRow || x == init[i];
          }
        }
      }
      OnlyStationRowsShown(next, events[1..]);
      assert forall e :: e in events[1..] ==> e in events;
    }
  }
}
