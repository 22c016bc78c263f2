/**
 * `handleSubmit` of `components/AddStationModal.js`: the new station goes to the server when the
 * browser is online and to the local store when it is offline; any failure falls back to the
 * local store once more, and when that fails too the user sees an alert.
 */
module AddStationModal {
  import opened Util
  import opened Stations
  import opened Geo

  const FailureMessage: string := "Failed to add station"

  /** What `localStore.addStation(newStation)` does: resolve with the generated id, or throw. */
  datatype LocalReply = Added(id: nat) | AddThrew

  /** The calls `handleSubmit` makes, in the order it makes them. */
  datatype Effect =
    | InsertRemote(station: Station)
    | AddLocal(station: Station)
    | Save(record: StationRecord)
    | Close
    | Alert(message: string)

  /** `{ ...localData, pending: true }` for `localData = { id, ...station }`. */
  function PendingCopy(id: nat, station: Station): (r: StationRecord)
    ensures r.id == id && r.station == station && r.pending == Some(true) && r.timestamp.None?
  {
    StationRecord(id, station, Some(true), None)
  }

  /** The form's record: `{ name, latitude: position[0], longitude: position[1], is_accessible }`. */
  function NewStation(name: string, isAccessible: bool, position: Pair): (s: Station)
    ensures s.name == name && s.latitude == position.first && s.longitude == position.second
    ensures s.isAccessible == isAccessible
  {
    Station(name, position.first, position.second, isAccessible)
  }

  /** Some call hands a record to `onSave`. */
  predicate Saved(effects: seq<Effect>) {
    exists i :: 0 <= i < |effects| && effects[i].Save?
  }

  /** The `catch` block: a second local save, and the alert when that throws as well. */
  function Fallback(station: Station, local: LocalReply): (effects: seq<Effect>)
    ensures |effects| >= 2 && effects[0] == AddLocal(station)
    ensures local.Added? ==> effects == [AddLocal(station), Save(PendingCopy(local.id, station)), Close]
    ensures local.AddThrew? ==> effects == [AddLocal(station), Alert(FailureMessage)]
  {
    match local
    case Added(id) => [AddLocal(station), Save(PendingCopy(id, station)), Close]
    case AddThrew => [AddLocal(station), Alert(FailureMessage)]
  }

  /**
   * `handleSubmit` with `navigator.onLine` equal to `online`. `remote` is the reply of the
   * server insert (made only when online), `tryLocal` that of the offline local save (made only
   * when offline) and `catchLocal` that of the local save in the `catch` block.
   */
  method HandleSubmit(name: string, isAccessible: bool, position: Pair, online: bool,
                      remote: RemoteReply, tryLocal: LocalReply, catchLocal: LocalReply)
    returns (effects: seq<Effect>)
    ensures var s := NewStation(name, isAccessible, position);
      && (online && remote.Inserted? ==> effects == [InsertRemote(s), Save(remote.record), Close])
      && (online && !remote.Inserted? ==> effects == [InsertRemote(s)] + Fallback(s, catchLocal))
      && (!online && tryLocal.Added? ==> effects == [AddLocal(s), Save(PendingCopy(tryLocal.id, s)), Close])
      && (!online && tryLocal.AddThrew? ==> effects == [AddLocal(s)] + Fallback(s, catchLocal))
    // the form ends in exactly one of two ways: a saved record and a closed form, or an alert
    ensures Saved(effects) <==> Alert(FailureMessage) !in effects
    ensures Saved(effects) <==> effects[|effects| - 1] == Close && effects[|effects| - 2].Save?
    ensures !Saved(effects) ==> effects[|effects| - 1] == Alert(FailureMessage) && Close !in effects
    ensures forall i, j :: 0 <= i < j < |effects| && effects[i].Save? ==> !effects[j].Save?
    // the station is written locally exactly when the server did not confirm it, and at most twice
    ensures (exists i :: 0 <= i < |effects| && effects[i].AddLocal?) <==> !(online && remote.Inserted?)
    ensures forall i :: 0 <= i < |effects| && effects[i].AddLocal? ==> effects[i].station == NewStation(name, isAccessible, position)
    // what reaches `onSave` from the local store is the submitted station, marked pending
    ensures forall i :: 0 <= i < |effects| && effects[i].Save? && !(online && remote.Inserted?) ==>
              effects[i].record.station == NewStation(name, isAccessible, position) && effects[i].record.pending == Some(true)
  {
    var newStation := NewStation(name, isAccessible, position);
    effects := [];
    var failed := false;
    if online {
      effects := effects + [InsertRemote(newStation)];
      match remote
      case Inserted(data) =>
        effects := effects + [Save(data), Close];
        assert effects[1].Save?;
      case Rejected(_) =>
        failed := true;
      case Threw(_) =>
        failed := true;
    } else {
      effects := effects + [AddLocal(newStation)];
      match tryLocal
      case Added(id) =>
        effects := effects + [Save(PendingCopy(id, newStation)), Close];
        assert effects[0].AddLocal? && effects[1].Save?;
      case AddThrew =>
        failed := true;
    }
    if failed {
      effects := effects + Fallback(newStation, catchLocal);
      assert effects[1].AddLocal?;
      if catchLocal.Added? {
        assert effects[2].Save?;
      }
    }
  }
}
