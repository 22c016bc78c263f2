/**
 * The offline station store of `localStore.js`: the `stations` store holds station snapshots,
 * the `syncQueue` store holds the writes still to be replayed against the remote `stations`
 * table. Both stores have auto-incremented keys.
 */
module LocalStore {
  import opened Util
  import opened Stations
  import opened IndexedDb

  /** The only operation type that `addStation` enqueues and `syncWithServer` replays. */
  const AddStationType: string := "ADD_STATION"

  /** A sync-queue record `{ id, type, data, timestamp }`. */
  datatype QueueItem = QueueItem(id: nat, kind: string, data: Station, timestamp: int)

  /** The `transitDB` database: its `stations` store and its `syncQueue` store. */
  datatype Db = Db(stations: ObjectStore<StationRecord>, queue: ObjectStore<QueueItem>)

  /** Both key generators are ahead of their stores, and every record's `id` is its key (the key path). */
  ghost predicate DbValid(db: Db) {
    && WellKeyed(db.stations)
    && WellKeyed(db.queue)
    && (forall k :: k in db.stations.records ==> db.stations.records[k].id == k)
    && (forall k :: k in db.queue.records ==> db.queue.records[k].id == k)
  }

  /** The snapshot `addStation` stores: `{ ...station, pending: true, timestamp }` under `id`. */
  function PendingRecord(id: nat, station: Station, time: int): StationRecord {
    StationRecord(id, station, Some(true), Some(time))
  }

  /** The queue item `addStation` enqueues: `{ type: 'ADD_STATION', data: station, timestamp }` under `id`. */
  function AddItem(id: nat, station: Station, time: int): QueueItem {
    QueueItem(id, AddStationType, station, time)
  }

  /**
   * The database after `addStation(station)`: one pending snapshot under a fresh key above
   * every key in use, and one queue item carrying the bare station, at the end of each store's
   * key order. The two `Date.now()` readings are parameters.
   */
  function AddStationDb(db: Db, station: Station, stationTime: int, queueTime: int): (r: Db)
    requires DbValid(db)
    ensures DbValid(r)
    ensures db.stations.current !in db.stations.records
    ensures r.stations.records == db.stations.records[db.stations.current := PendingRecord(db.stations.current, station, stationTime)]
    ensures db.queue.current !in db.queue.records
    ensures r.queue.records == db.queue.records[db.queue.current := AddItem(db.queue.current, station, queueTime)]
    ensures GetAll(r.stations) == GetAll(db.stations) + [PendingRecord(db.stations.current, station, stationTime)]
    ensures GetAll(r.queue) == GetAll(db.queue) + [AddItem(db.queue.current, station, queueTime)]
    ensures r.stations.current == db.stations.current + 1 && r.queue.current == db.queue.current + 1
  {
    var record := PendingRecord(db.stations.current, station, stationTime);
    var item := AddItem(db.queue.current, station, queueTime);
    AddAppends(db.stations, record);
    AddAppends(db.queue, item);
    Db(Add(db.stations, record), Add(db.queue, item))
  }

  /** Replaying `item` with this reply confirms it: an ADD_STATION item whose insert returned a row. */
  predicate Confirms(item: QueueItem, reply: RemoteReply) {
    item.kind == AddStationType && reply.Inserted?
  }

  /** The row sync stores for a confirmed insert: `{ ...station, pending: false }`. */
  function Confirmed(reply: RemoteReply): (r: StationRecord)
    requires reply.Inserted?
    ensures r.id == reply.record.id && r.station == reply.record.station && r.pending == Some(false)
  {
    reply.record.(pending := Some(false))
  }

  /** One turn of the sync loop: a confirmed insert is stored under the server's id and its item deleted. */
  function ReplayItem(db: Db, item: QueueItem, reply: RemoteReply): (r: Db)
    requires DbValid(db)
    ensures DbValid(r)
  {
    if Confirms(item, reply) then
      var row := Confirmed(reply);
      Db(Put(db.stations, row.id, row), Delete(db.queue, item.id))
    else db
  }

  /** The sync loop over `items` in order, where `remote` answers each replayed insert. */
  function Replay(db: Db, items: seq<QueueItem>, remote: QueueItem -> RemoteReply): (r: Db)
    requires DbValid(db)
    ensures DbValid(r)
    decreases |items|
  {
    if items == [] then db
    else
      var last := items[|items| - 1];
      ReplayItem(Replay(db, items[..|items| - 1], remote), last, remote(last))
  }

  /** Queue keys of the items among `items` that `remote` confirms. */
  function ConfirmedIds(items: seq<QueueItem>, remote: QueueItem -> RemoteReply): set<nat> {
    set item | item in items && Confirms(item, remote(item)) :: item.id
  }

  /** Server ids of the rows that `remote` returns for the items among `items` it confirms. */
  function ServerIds(items: seq<QueueItem>, remote: QueueItem -> RemoteReply): set<nat> {
    set item | item in items && Confirms(item, remote(item)) :: remote(item).record.id
  }

  /**
   * Sync deletes exactly the confirmed items from the queue: an item that is skipped, rejected
   * or whose replay threw stays queued, and the queue's key generator does not move.
   */
  lemma {:induction false} ReplayQueue(db: Db, items: seq<QueueItem>, remote: QueueItem -> RemoteReply)
    requires DbValid(db)
    ensures Replay(db, items, remote).queue.records == db.queue.records - ConfirmedIds(items, remote)
    ensures Replay(db, items, remote).queue.current == db.queue.current
    decreases |items|
  {
    if items != [] {
      var init, last := items[..|items| - 1], items[|items| - 1];
      ReplayQueue(db, init, remote);
      assert items == init + [last];
      assert ConfirmedIds(items, remote) == ConfirmedIds(init, remote) + (if Confirms(last, remote(last)) then {last.id} else {});
    }
  }

  /**
   * Sync adds the server rows under the server ids and deletes no station: every snapshot it
   * held before, the pending ones included, is still there and unchanged unless a server id
   * coincides with its key.
   */
  lemma {:induction false} ReplayStations(db: Db, items: seq<QueueItem>, remote: QueueItem -> RemoteReply)
    requires DbValid(db)
    ensures Replay(db, items, remote).stations.records.Keys == db.stations.records.Keys + ServerIds(items, remote)
    ensures forall k :: k in db.stations.records && k !in ServerIds(items, remote) ==>
              Replay(db, items, remote).stations.records[k] == db.stations.records[k]
    decreases |items|
  {
    if items != [] {
      var init, last := items[..|items| - 1], items[|items| - 1];
      ReplayStations(db, init, remote);
      assert items == init + [last];
      assert ServerIds(items, remote) == ServerIds(init, remote) + (if Confirms(last, remote(last)) then {remote(last).record.id} else {});
    }
  }

  /**
   * A confirmed item's server row is stored with `pending: false` under the server id, unless
   * a later confirmed item in the same pass returns a row with the same id (later write wins).
   */
  lemma {:induction false} ReplayStoresServerRow(db: Db, items: seq<QueueItem>, remote: QueueItem -> RemoteReply, i: nat)
    requires DbValid(db)
    requires i < |items| && Confirms(items[i], remote(items[i]))
    requires forall j :: i < j < |items| && Confirms(items[j], remote(items[j])) ==>
               remote(items[j]).record.id != remote(items[i]).record.id
    ensures remote(items[i]).record.id in Replay(db, items, remote).stations.records
    ensures Replay(db, items, remote).stations.records[remote(items[i]).record.id] == Confirmed(remote(items[i]))
    decreases |items|
  {
    var init := items[..|items| - 1];
    if i < |items| - 1 {
      ReplayStoresServerRow(db, init, remote, i);
    }
  }

  /** With a remote that confirms every queued item, one sync empties the queue. */
  lemma SyncDrainsQueue(db: Db, remote: QueueItem -> RemoteReply)
    requires DbValid(db)
    requires forall item :: item in GetAll(db.queue) ==> Confirms(item, remote(item))
    ensures Replay(db, GetAll(db.queue), remote).queue.records == map[]
  {
    var items := GetAll(db.queue);
    ReplayQueue(db, items, remote);
    forall k | k in db.queue.records
      ensures k in ConfirmedIds(items, remote)
    {
      var ks := Keys(db.queue);
      var i :| 0 <= i < |ks| && ks[i] == k;
      assert items[i] == db.queue.records[k];
      assert items[i] in items;
    }
  }

  /**
   * A write made offline and then confirmed leaves two snapshots: the pending one under its
   * local key, and the server's row with `pending: false` under the server id, while its queue
   * item is gone. Sync never looks up the local snapshot of the station it replays.
   */
  lemma SyncKeepsPendingCopy(db: Db, station: Station, stationTime: int, queueTime: int, remote: QueueItem -> RemoteReply)
    requires DbValid(db)
    requires remote(AddItem(db.queue.current, station, queueTime)).Inserted?
    requires forall item :: Confirms(item, remote(item)) ==> remote(item).record.id != db.stations.current
    ensures var a := AddStationDb(db, station, stationTime, queueTime);
      var r := Replay(a, GetAll(a.queue), remote);
      var reply := remote(AddItem(db.queue.current, station, queueTime));
      && db.stations.current in r.stations.records
      && r.stations.records[db.stations.current] == PendingRecord(db.stations.current, station, stationTime)
      && reply.record.id in r.stations.records
      && r.stations.records[reply.record.id] == Confirmed(reply)
      && db.queue.current !in r.queue.records
  {
    var a := AddStationDb(db, station, stationTime, queueTime);
    var items := GetAll(a.queue);
    var n := |items| - 1;
    assert items[n] == AddItem(db.queue.current, station, queueTime);
    ReplayStoresServerRow(a, items, remote, n);
    ReplayStations(a, items, remote);
    ReplayQueue(a, items, remote);
    assert items[n] in items;
  }

  /**
   * When the server assigns the confirmed row the same id as the snapshot's local key, the
   * `put` replaces the pending snapshot: only the server's row is left under that key.
   */
  lemma SyncReplacesPendingOnIdClash(db: Db, station: Station, stationTime: int, queueTime: int, remote: QueueItem -> RemoteReply)
    requires DbValid(db)
    requires remote(AddItem(db.queue.current, station, queueTime)).Inserted?
    requires remote(AddItem(db.queue.current, station, queueTime)).record.id == db.stations.current
    ensures var a := AddStationDb(db, station, stationTime, queueTime);
      var r := Replay(a, GetAll(a.queue), remote);
      && db.stations.current in r.stations.records
      && r.stations.records[db.stations.current] == Confirmed(remote(AddItem(db.queue.current, station, queueTime)))
      && r.stations.records[db.stations.current] != PendingRecord(db.stations.current, station, stationTime)
      && db.queue.current !in r.queue.records
  {
    var a := AddStationDb(db, station, stationTime, queueTime);
    var items := GetAll(a.queue);
    var n := |items| - 1;
    assert items[n] == AddItem(db.queue.current, station, queueTime);
    ReplayStoresServerRow(a, items, remote, n);
    ReplayQueue(a, items, remote);
    assert items[n] in items;
  }

  /**
   * As written, `localStore.js` never imports `supabase`, so every insert of a replay throws
   * a ReferenceError, which the loop's catch logs.
   */
  function AsWrittenRemote(item: QueueItem): (r: RemoteReply)
    ensures !Confirms(item, r)
  {
    Threw("supabase is not defined")
  }

  /** With the file as written, sync changes neither store: nothing is ever delivered. */
  lemma {:induction false} SyncAsWrittenChangesNothing(db: Db, items: seq<QueueItem>)
    requires DbValid(db)
    ensures Replay(db, items, AsWrittenRemote) == db
    decreases |items|
  {
    if items != [] {
      SyncAsWrittenChangesNothing(db, items[..|items| - 1]);
    }
  }

  /** The `localStore` object over the two stores of `transitDB`. */
  class LocalStore {
    var stations: ObjectStore<StationRecord>
    var syncQueue: ObjectStore<QueueItem>

    ghost predicate Valid()
      reads this
    {
      DbValid(Db(stations, syncQueue))
    }

    /** The database as `openDB`'s upgrade creates it: both stores, empty. */
    constructor ()
      ensures Valid()
      ensures stations.records == map[] && syncQueue.records == map[]
    {
      stations := Empty();
      syncQueue := Empty();
    }

    /**
     * `addStation(station)`: stores a pending snapshot, enqueues the bare station, and
     * returns `{ id, ...station }` with the new key and no `pending` field.
     */
    method AddStation(station: Station, stationTime: int, queueTime: int) returns (r: StationRecord)
      requires Valid()
      modifies this
      ensures Valid()
      ensures Db(stations, syncQueue) == AddStationDb(old(Db(stations, syncQueue)), station, stationTime, queueTime)
      ensures r == StationRecord(old(stations.current), station, None, None)
      ensures r.id !in old(stations.records) && stations.records[r.id] == PendingRecord(r.id, station, stationTime)
    {
      var id := stations.current;
      stations := Add(stations, PendingRecord(id, station, stationTime));
      var queueId := syncQueue.current;
      syncQueue := Add(syncQueue, AddItem(queueId, station, queueTime));
      r := StationRecord(id, station, None, None);
    }

    /** `getStations()`: every stored snapshot, pending or not, in ascending key order. */
    function GetStations(): (all: seq<StationRecord>)
      reads this
      requires Valid()
      ensures forall k :: k in stations.records ==> stations.records[k] in all
      ensures forall x :: x in all ==> x.id in stations.records && stations.records[x.id] == x
      ensures forall i, j :: 0 <= i < j < |all| ==> all[i].id < all[j].id
    {
      GetAllListsEveryRecord(stations);
      GetAll(stations)
    }

    /**
     * `syncWithServer()`: replays the queue as read at the start, in ascending key order,
     * one item at a time; `remote` gives the answer of each insert.
     */
    method SyncWithServer(remote: QueueItem -> RemoteReply)
      requires Valid()
      modifies this
      ensures Valid()
      ensures Db(stations, syncQueue) == Replay(old(Db(stations, syncQueue)), GetAll(old(syncQueue)), remote)
    {
      var queue := GetAll(syncQueue);
      for i := 0 to |queue|
        invariant Valid()
        invariant Db(stations, syncQueue) == Replay(old(Db(stations, syncQueue)), queue[..i], remote)
      {
        var item := queue[i];
        if item.kind == AddStationType {
          match remote(item)
          case Inserted(row) =>
            var confirmed := row.(pending := Some(false));
            stations := Put(stations, confirmed.id, confirmed);
            syncQueue := Delete(syncQueue, item.id);
          case Rejected(_) =>
          case Threw(_) =>
        }
        assert queue[..i + 1][..i] == queue[..i];
      }
      assert queue[..|queue|] == queue;
    }
  }
}
