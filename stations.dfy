/** The station entity as the forms, the local store and the remote `stations` table see it. */
module Stations {
  import opened Util

  /** The fields a user submits: `{ name, latitude, longitude, is_accessible }`. */
  datatype Station = Station(name: string, latitude: real, longitude: real, isAccessible: bool)

  /**
   * A station as a stored or returned object: its `id`, the submitted fields, and the
   * `pending` and `timestamp` fields where the object has them (`None` stands for a field
   * the object does not carry).
   */
  datatype StationRecord = StationRecord(id: nat, station: Station, pending: Option<bool>, timestamp: Option<int>)

  /**
   * The answer of `supabase.from('stations').insert([row]).select().single()`: the inserted
   * row as the server stores it, an `{ error }` reply, or an exception thrown by the call.
   */
  datatype RemoteReply = Inserted(record: StationRecord) | Rejected(message: string) | Threw(message: string)
}
