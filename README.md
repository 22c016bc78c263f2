# Offline-first station map: a Dafny model

This project models the logic core of an offline-first web map of accessible transit
stations, and proves properties of that model. The six parts are:

- **The local store** (`local_store.dfy`, over `indexed_db.dfy`). `localStore.js` keeps two
  IndexedDB object stores, `stations` and `syncQueue`, with auto-incremented keys.
  `addStation` writes a pending snapshot and enqueues the bare station. `getStations` lists
  every snapshot. `syncWithServer` replays the queue in key order against the remote
  `stations` table. The object stores follow the key-generator rules of section 2.11 of the W3C
  Indexed Database API: the generator's current number starts at 1, `add` takes it as the key
  and increments it, a `put` at or above it moves it past the key, and `getAll` lists records in
  ascending key order. The remote insert is a function parameter (`remote`) that answers each
  replayed item with a row, an `{ error }` reply or an exception.
- **The service worker** (`service_worker.dfy`). `sw.js` answers every fetch cache-first. Map
  tiles go to a cache bounded to 1000 entries that evicts its oldest entries; every other request
  goes to an unbounded application cache. A cache keeps its entries in insertion order, the order
  of `Cache.keys()` (section 5.4 of the W3C Service Workers specification). As that section
  prescribes, `cache.match` finds nothing for a request whose method is not GET, and `cache.put`
  rejects such a request and a partial (206) response. `Cache` is a class
  whose `entries` sequence the cache operations reassign. `CacheFirst` is a method with the
  eviction loop, proved against the pure `CacheFirstSpec`.
- **The realtime reducer** (`realtime.dfy`). This is `handleRealtimeUpdate` of `map.js`: an
  INSERT, UPDATE or DELETE event changes the list of stations on the map.
- **The add-station form** (`add_station_modal.dfy`). `handleSubmit` tries the server when
  online and the local store when offline. On any failure it tries the local store once more, and
  alerts only if that fails too. The method returns the sequence of calls it makes.
- **The offline route** (`offline_routing.dfy`, `geo.dfy`). `calculateOfflineRoute` returns a
  straight two-point GeoJSON line, in `[lng, lat]` order, when there are no obstacles.
- **The route service** (`routing_service.dfy`). `getRoute` builds the OSRM request URL and
  projects the first route of the answer. A parser for the URL is proved to be its left
  inverse for parts that hold none of the separators `/`, `,` and `;`.

Sync does not look up the pending snapshot. It stores the server row under the server id with
`put`, so after a sync both copies are listed (`LocalStore.SyncKeepsPendingCopy`), unless the
server id equals the snapshot's local key, in which case the `put` replaces it
(`LocalStore.SyncReplacesPendingOnIdClash`). That case is common: a `put` moves the local key
generator past the server id, so the next offline add takes the id the server assigns next.

## Model

| member | source | states |
|---|---|---|
| IndexedDb.Empty | frontend/src/lib/localStore.js:11 | a new auto-increment store is empty and its key generator's current number is 1 |
| IndexedDb.Add | frontend/src/lib/localStore.js:27-31 | `add` stores the value under a fresh key above every key in use, keeps the other records, and advances the generator by one |
| IndexedDb.Put | frontend/src/lib/localStore.js:65-68 | `put` inserts or overwrites the record under its own key, keeps every other record, and moves the generator to one past the key when the key is at or above it, leaving it unchanged otherwise |
| IndexedDb.Delete | frontend/src/lib/localStore.js:72 | `delete` removes exactly that key, keeps the other records and the generator, and changes nothing for a missing key |
| IndexedDb.GetAll | frontend/src/lib/localStore.js:51 | `getAll` lists the records in strictly ascending key order |
| IndexedDb.GetAllListsEveryRecord | frontend/src/lib/localStore.js:46 | every stored record appears in `getAll` |
| IndexedDb.KeysAfterAdd | frontend/src/lib/localStore.js:27 | the key `add` generates comes after every existing key |
| IndexedDb.AddAppends | frontend/src/lib/localStore.js:27-31 | after `add`, `getAll` is the old listing with the new record appended: key order is insertion order |
| LocalStore.AddStationDb | frontend/src/lib/localStore.js:21-42 | `addStation` adds exactly one `{ ...station, pending: true, timestamp }` snapshot under a fresh key and exactly one `ADD_STATION` item carrying the bare station; both come last in their store's listing |
| LocalStore.Confirmed | frontend/src/lib/localStore.js:65-68 | the row sync stores keeps the server's id and fields and has `pending: false` |
| LocalStore.ReplayQueue | frontend/src/lib/localStore.js:53-77 | sync deletes exactly the confirmed `ADD_STATION` items; rejected, throwing and other-typed items stay queued |
| LocalStore.ReplayStations | frontend/src/lib/localStore.js:62-68 | sync adds keys only for server ids and deletes no snapshot; snapshots under other keys are unchanged |
| LocalStore.ReplayStoresServerRow | frontend/src/lib/localStore.js:62-68 | a confirmed item's server row is stored under the server id with `pending: false` unless a later confirmed item reuses that id |
| LocalStore.SyncDrainsQueue | frontend/src/lib/localStore.js:49-79 | when every replay succeeds, one sync leaves the queue empty |
| LocalStore.SyncKeepsPendingCopy | frontend/src/lib/localStore.js:27-72 | after an offline add and a successful sync whose server ids differ from the snapshot's local key, the pending snapshot and the server row both exist and the queue item is gone |
| LocalStore.SyncReplacesPendingOnIdClash | frontend/src/lib/localStore.js:62-72 | when the server id equals the snapshot's local key, the `put` replaces the pending snapshot with the server's row, and the queue item is gone |
| LocalStore.AsWrittenRemote | frontend/src/lib/localStore.js:56 | with `supabase` not imported, every replayed insert throws and confirms nothing |
| LocalStore.SyncAsWrittenChangesNothing | frontend/src/lib/localStore.js:53-77 | as written, sync leaves both stores exactly as they were |
| LocalStore.LocalStore.constructor | frontend/src/lib/localStore.js:7-17 | the database starts with both stores empty |
| LocalStore.LocalStore.AddStation | frontend/src/lib/localStore.js:21-42 | the new state is `AddStationDb` of the old; it returns `{ id, ...station }` with the fresh key and no `pending` field |
| LocalStore.LocalStore.GetStations | frontend/src/lib/localStore.js:44-47 | returns every stored snapshot, pending ones included, each as stored under its id, in ascending id order |
| LocalStore.LocalStore.SyncWithServer | frontend/src/lib/localStore.js:49-79 | the loop over the queue, read once in key order, yields `Replay` of the old database over that queue |
| Util.ContainsOccurs | frontend/public/sw.js:11 | `includes` holds exactly when the text occurs at some position |
| ServiceWorker.Requests | frontend/public/sw.js:47 | `cache.keys()` lists the cached requests, oldest first |
| ServiceWorker.Lookup | frontend/public/sw.js:35 | `cache.match` finds a response exactly when the request is cached, and the response is that entry's |
| ServiceWorker.CacheMatch | frontend/public/sw.js:35 | `cache.match` finds nothing for a request that is not a GET, and otherwise answers as `Lookup` |
| ServiceWorker.Without | frontend/public/sw.js:51 | `cache.delete` removes the request's entries and keeps all the others |
| ServiceWorker.WithoutDistributes | frontend/public/sw.js:51 | deleting distributes over concatenation, so the surviving entries keep their order |
| ServiceWorker.WithoutKeepsDistinct | frontend/public/sw.js:51 | deleting keeps a cache free of duplicate requests |
| ServiceWorker.WithoutAbsent | frontend/public/sw.js:56 | deleting an uncached request changes nothing |
| ServiceWorker.WithoutOldest | frontend/public/sw.js:50-52 | deleting the oldest key removes exactly the oldest entry |
| ServiceWorker.EvictionCount | frontend/public/sw.js:46-50 | `keys.length - maxItems + 1` entries go when a limit is set and the cache is full, none otherwise |
| ServiceWorker.CacheFirstSpec | frontend/public/sw.js:31-64 | a hit is returned with no fetch and no change; a failed fetch gives 504 "Offline and not cached"; a non-`ok` response is returned and not cached; an `ok` response the cache accepts is returned and appended as the newest entry after the entries that survive eviction, so the next `match` finds it; an `ok` response `cache.put` rejects gives 504, with the evictions already made kept |
| ServiceWorker.LookupAfterAppend | frontend/public/sw.js:56 | a response put for an uncached request is what `match` then returns |
| ServiceWorker.EvictsOldest | frontend/public/sw.js:46-56 | a GET miss on a full bounded cache deletes exactly its oldest `n - maxItems + 1` entries, keeps the others unchanged and appends the new one, leaving `maxItems` entries |
| ServiceWorker.NeverEvictsUnbounded | frontend/public/sw.js:46-48 | with no limit, a limit of 0, or fewer entries than the limit, no entry is evicted: the old entries stay unchanged and in order at the front |
| ServiceWorker.CacheFirstKeepsBound | frontend/public/sw.js:46-56 | a bounded cache within its limit stays within it, one over it is brought back by the next stored miss, and no request is cached twice |
| ServiceWorker.Cache.constructor | frontend/public/sw.js:32 | a newly opened cache is empty |
| ServiceWorker.Cache.Match | frontend/public/sw.js:35 | answers as `CacheMatch` |
| ServiceWorker.Cache.Keys | frontend/public/sw.js:47 | answers as `Requests` |
| ServiceWorker.Cache.Delete | frontend/public/sw.js:51 | the new entries are `Without` the request; it reports whether the request was cached |
| ServiceWorker.Cache.Put | frontend/public/sw.js:56 | an accepted pair replaces the request's old entry by a newest entry; a rejected one leaves the cache unchanged and is reported |
| ServiceWorker.CacheFirst | frontend/public/sw.js:31-64 | the response, whether it fetched, and the cache's new entries are those of `CacheFirstSpec` |
| ServiceWorker.AsWrittenPostAnsweredOffline | frontend/public/sw.js:41-63 | a request that is not a GET and gets an `ok` answer is told 504 "Offline and not cached" |
| ServiceWorker.GuardedCacheFirstSpec | frontend/public/sw.js:44-56 | with the store guarded by what `cache.put` accepts, the cache is untouched when the put would reject, and otherwise it behaves as `CacheFirstSpec` |
| ServiceWorker.GuardedServesNetworkAnswer | frontend/public/sw.js:41-63 | with the guard, a miss gets the network's answer whenever `fetch` resolves, 504 only when it rejects, and a hit the cached response |
| ServiceWorker.HandleFetch | frontend/public/sw.js:1-29 | tile URLs are served from the tile cache with limit 1000, all others from the unbounded application cache; the other cache is untouched |
| Realtime.ReplaceById | frontend/src/components/map.js:87-89 | every row with the id is replaced, every other row stays in its place |
| Realtime.RemoveById | frontend/src/components/map.js:91 | exactly the rows without the id remain |
| Realtime.HandleRealtimeUpdate | frontend/src/components/map.js:81-93 | INSERT appends the new row; UPDATE keeps length and order and replaces rows by id; DELETE keeps exactly the rows with other ids; other events change nothing |
| Realtime.UpdateOfAbsentIdChangesNothing | frontend/src/components/map.js:86-89 | an UPDATE for an id not in the list leaves it unchanged |
| Realtime.ReplayedChangeIsIdempotent | frontend/src/components/map.js:86-91 | a repeated UPDATE or DELETE has no further effect |
| Realtime.RemoveAbsentId | frontend/src/components/map.js:91 | filtering out an absent id keeps the list |
| Realtime.RemoveDistributes | frontend/src/components/map.js:91 | DELETE keeps the relative order of the remaining rows |
| Realtime.InsertThenDeleteRestores | frontend/src/components/map.js:84-91 | inserting a row with a new id and deleting it restores the list |
| Realtime.AsWrittenOtherTableJoinsStations | frontend/src/components/map.js:48-85 | an INSERT from `accessibility_updates` or `real_time_issues` adds its row to the station list |
| Realtime.AsWrittenForeignIdHitsStation | frontend/src/components/map.js:48-91 | an UPDATE or DELETE from `accessibility_updates` or `real_time_issues` whose row id equals a station's id overwrites or drops that station |
| Realtime.HandleStationChange | frontend/src/components/map.js:81-93 | with the table check, events from other tables leave the list unchanged |
| Realtime.OnlyStationRowsShown | frontend/src/components/map.js:36-93 | with the table check, every row shown was loaded initially or came from a `stations` event |
| AddStationModal.PendingCopy | frontend/src/components/AddStationModal.js:33 | `{ ...localData, pending: true }` keeps the local id and station and is marked pending |
| AddStationModal.NewStation | frontend/src/components/AddStationModal.js:12-17 | latitude is `position[0]`, longitude `position[1]`, name and accessibility from the form |
| AddStationModal.Fallback | frontend/src/components/AddStationModal.js:37-46 | the catch block adds locally, then saves the pending copy and closes, or alerts |
| AddStationModal.HandleSubmit | frontend/src/components/AddStationModal.js:9-48 | the call sequence of each case; exactly one of "save then close" or the alert; at most one save; a local write happens exactly when the server did not confirm; a locally saved record is the submitted station marked pending |
| Geo.Swap | frontend/src/lib/offlineRouting.js:10-11 | `[p[1], p[0]]` exchanges the two numbers |
| OfflineRouting.CalculateOfflineRoute | frontend/src/lib/offlineRouting.js:3-22 | a route exists exactly when there are no obstacles: a two-point LineString from start to end in `[lng, lat]` order, the library distance of the two points, and no duration |
| OfflineRouting.RouteBackIsReversed | frontend/src/lib/offlineRouting.js:5-16 | the route back has the coordinates reversed and, for a symmetric distance, the same length |
| RoutingService.BuildUrl | frontend/src/lib/routingService.js:6 | the URL starts with the OSRM base and ends with the fixed query |
| RoutingService.ParseBuildUrl | frontend/src/lib/routingService.js:5-7 | the URL carries the mode and both coordinate pairs, unswapped and in order |
| RoutingService.DefaultModeIsWalking | frontend/src/lib/routingService.js:3-6 | without a mode the request asks for a walking route |
| RoutingService.BuildUrlInjective | frontend/src/lib/routingService.js:6 | different requests make different URLs |
| RoutingService.Interpret | frontend/src/lib/routingService.js:8-18 | a route comes back exactly when `code` is `Ok` and there is a first route; it is that route's geometry, distance and duration; otherwise "Unable to find route" or the `TypeError` message of reading `routes[0]` |
| RoutingService.OnlyFirstRouteCounts | frontend/src/lib/routingService.js:14-18 | routes after the first are ignored |
| RoutingService.GetRoute | frontend/src/lib/routingService.js:3-23 | fetch and body failures are rethrown unchanged; for a JSON answer the result is `Interpret` of its body: the first route's geometry, distance and duration, or "Unable to find route" |

## Left out

- IndexedDB as a system: opening the database, the upgrade of an existing database, storage
  errors and quota are not modelled. Both stores start empty.
- The two transactions of `addStation` and the per-item transactions of `syncWithServer` run to
  completion one after another. Interleaving with other tabs or calls is not modelled.
- The `console.error` of a failed replay (localStore.js:76) is not modelled: the item simply stays
  queued.
- `Date.now()` readings are parameters (`stationTime`, `queueTime`).
- LocalStore.AddStationDb: states one call. The property over many offline writes, that each
  write leaves one pending snapshot and one queue item, follows by repeating it and is not proved
  as a separate lemma.
- Server-assigned ids are modelled as natural numbers, the only kind of key the stores hold.
- The Supabase client, the `fetch` API and Cache Storage are parameters or models: `remote`,
  `NetworkReply`, `FetchReply` and the `Cache` class. Responses are a status and a body. Cache
  matching is by URL and method. The `Vary` header, non-HTTP schemes and `Response.clone()` are
  not modelled.
- ServiceWorker.CacheFirstSpec: `cache.keys()` and `cache.delete()` are taken to succeed. A storage
  failure in either would also reach the `catch` and give 504; only a rejected `fetch` and a
  rejected `cache.put` are modelled as reaching it.
- ServiceWorker.HandleFetch: the URL is taken as already normalised, since `new URL(...).href`
  is not modelled, and the two caches are passed in rather than opened by name.
- Concurrent fetch events sharing a cache are not modelled.
- Realtime channel subscriptions are not modelled as a mechanism: a payload is a value with its
  table name. React state updaters run one at a time.
- AddStationModal.HandleSubmit: `e.preventDefault()`, the console logging, and `onSave` or
  `onClose` themselves throwing are not modelled. `navigator.onLine` is the parameter `online`.
- Floating-point arithmetic and Leaflet's great-circle distance: coordinates are reals and
  `distanceTo` is an uninterpreted function parameter.
- The obstacle-avoiding route search does not exist in the code. The model returns `None` for
  `undefined`.
- The `console.error` before `getRoute` rethrows (routingService.js:20) is not modelled: the error
  is returned as it is.
- Number-to-text conversion in the route URL is not modelled: coordinates are given as their
  decimal texts. An error is its `message`, without the error's name. The `TypeError` message for a missing first route is the V8 engine's wording.
- No connectivity monitor, automatic sync trigger or alternatives handling exists in the code.
  None is modelled.

## Findings

| source | as written | input that shows it | evidently intended | confidence | as-written member | corrected member |
|---|---|---|---|---|---|---|
| frontend/src/lib/localStore.js:56 | `syncWithServer` calls `supabase`, which the file never imports; the `ReferenceError` is caught and logged for every item | any queue holding an `ADD_STATION` item, with the server up | each queued station is inserted on the server and its item removed | high, not executed | LocalStore.SyncAsWrittenChangesNothing | LocalStore.SyncDrainsQueue |
| frontend/src/components/map.js:55 | the `accessibility_updates` and `real_time_issues` channels feed the station-list reducer, which matches rows by `id` alone (map.js:67, map.js:87-91) | a DELETE on `accessibility_updates` whose old row has `id` 3, while station 3 is listed | a change to an update or issue row never overwrites or drops a station | medium, not executed | Realtime.AsWrittenForeignIdHitsStation | Realtime.HandleStationChange |
| frontend/public/sw.js:56 | the `cache.put` runs for every `ok` answer, inside the `try` whose `catch` answers 504; it rejects a request that is not a GET | the POST of the station insert (AddStationModal.js:22-26), answered 201 by the server | the network's answer reaches the page, and only GET answers are cached | high, not executed | ServiceWorker.AsWrittenPostAnsweredOffline | ServiceWorker.GuardedServesNetworkAnswer |
