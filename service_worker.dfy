/**
 * The service worker of `sw.js`: every fetch is answered cache-first, map tiles from a cache
 * bounded to 1000 entries that evicts its oldest entries, everything else from an unbounded
 * application cache. A cache keeps its entries in insertion order, which is the order of
 * `Cache.keys()` (section 5.4 of the W3C Service Workers specification).
 */
module ServiceWorker {
  import opened Util

  const MaxCachedTiles: nat := 1000
  const TileHost: string := "tile.openstreetmap.org"
  const OfflineBody: string := "Offline and not cached"

  datatype Response = Response(status: int, body: string)

  /** `response.ok`: a status in the range 200 to 299. */
  predicate IsOk(r: Response) {
    200 <= r.status <= 299
  }

  /** One cached request (by URL) and its response. */
  datatype Entry = Entry(request: string, response: Response)

  /** The only request method the Cache API matches and stores by default. */
  const Get: string := "GET"

  /**
   * `cache.put(request, response)` accepts the pair: it rejects with a `TypeError` a request
   * whose method is not GET and a partial (206) response (section 5.4 of the W3C Service
   * Workers specification).
   */
  predicate PutAccepts(verb: string, response: Response) {
    verb == Get && response.status != 206
  }

  /** What `fetch(request)` does: resolve with a response, or reject (offline). */
  datatype NetworkReply = Fetched(response: Response) | NetworkFailed

  /** No request is cached twice. */
  ghost predicate Distinct(entries: seq<Entry>) {
    forall i, j :: 0 <= i < j < |entries| ==> entries[i].request != entries[j].request
  }

  /** `request` is cached in `entries`. */
  predicate Cached(entries: seq<Entry>, request: string) {
    exists i :: 0 <= i < |entries| && entries[i].request == request
  }

  /** The requests of `entries`, oldest first: what `cache.keys()` resolves to. */
  function Requests(entries: seq<Entry>): (r: seq<string>)
    ensures |r| == |entries|
    ensures forall i :: 0 <= i < |entries| ==> r[i] == entries[i].request
  {
    seq(|entries|, i requires 0 <= i < |entries| => entries[i].request)
  }

  /** `cache.match(request)`: the response of the first entry for `request`, if any. */
  function Lookup(entries: seq<Entry>, request: string): (r: Option<Response>)
    ensures r.None? <==> !Cached(entries, request)
    ensures r.Some? ==> exists i :: 0 <= i < |entries| && entries[i] == Entry(request, r.value)
    decreases |entries|
  {
    if entries == [] then None
    else if entries[0].request == request then Some(entries[0].response)
    else
      var r := Lookup(entries[1..], request);
      assert forall i :: 1 <= i < |entries| ==> entries[i] == entries[1..][i - 1];
      assert Cached(entries, request) ==> Cached(entries[1..], request);
      r
  }

  /** `cache.match(request)` for a request made with the method `verb`: a request that is not a GET matches nothing. */
  function CacheMatch(entries: seq<Entry>, verb: string, request: string): (r: Option<Response>)
    ensures r.None? <==> verb != Get || !Cached(entries, request)
    ensures r.Some? ==> r == Lookup(entries, request)
  {
    if verb == Get then Lookup(entries, request) else None
  }

  /** `cache.delete(request)`: every entry for `request` removed, the others kept in order. */
  function Without(entries: seq<Entry>, request: string): (r: seq<Entry>)
    ensures forall e :: e in r <==> e in entries && e.request != request
    decreases |entries|
  {
    if entries == [] then []
    else if entries[0].request == request then Without(entries[1..], request)
    else [entries[0]] + Without(entries[1..], request)
  }

  /** Deleting keeps the order of the surviving entries: it distributes over concatenation. */
  lemma {:induction false} WithoutDistributes(a: seq<Entry>, b: seq<Entry>, request: string)
    ensures Without(a + b, request) == Without(a, request) + Without(b, request)
    decreases |a|
  {
    if a != [] {
      assert (a + b)[0] == a[0] && (a + b)[1..] == a[1..] + b;
      WithoutDistributes(a[1..], b, request);
      if a[0].request != request {
        assert Without(a + b, request) == [a[0]] + (Without(a[1..], request) + Without(b, request));
      }
    } else {
      assert a + b == b;
    }
  }

  /** Deleting from a cache without duplicates leaves a cache without duplicates. */
  lemma {:induction false} WithoutKeepsDistinct(entries: seq<Entry>, request: string)
    requires Distinct(entries)
    ensures Distinct(Without(entries, request))
    decreases |entries|
  {
    if entries != [] {
      var tail := entries[1..];
      assert Distinct(tail) by {
        forall i, j | 0 <= i < j < |tail|
          ensures tail[i].request != tail[j].request
        {
          assert tail[i] == entries[i + 1] && tail[j] == entries[j + 1];
        }
      }
      WithoutKeepsDistinct(tail, request);
      if entries[0].request != request {
        var rest := Without(tail, request);
        forall j | 0 <= j < |rest|
          ensures rest[j].request != entries[0].request
        {
          assert rest[j] in tail;
          var k :| 0 <= k < |tail| && tail[k] == rest[j];
          assert tail[k] == entries[k + 1];
        }
        var r := [entries[0]] + rest;
        forall i, j | 0 <= i < j < |r|
          ensures r[i].request != r[j].request
        {
          assert r[j] == rest[j - 1];
          if i > 0 {
            assert r[i] == rest[i - 1];
          }
        }
      }
    }
  }

  /** A request missing from a cache is missing from every suffix of its entries. */
  lemma NotCachedInSuffix(entries: seq<Entry>, k: nat, request: string)
    requires k <= |entries| && !Cached(entries, request)
    ensures !Cached(entries[k..], request)
  {
    forall i | 0 <= i < |entries| - k
      ensures entries[k..][i].request != request
    {
      assert entries[k..][i] == entries[k + i];
    }
  }

  /** Deleting a request that is not cached changes nothing. */
  lemma {:induction false} WithoutAbsent(entries: seq<Entry>, request: string)
    requires !Cached(entries, request)
    ensures Without(entries, request) == entries
    decreases |entries|
  {
    if entries != [] {
      NotCachedInSuffix(entries, 1, request);
      WithoutAbsent(entries[1..], request);
    }
  }

  /** In a cache without duplicates, deleting the oldest request removes exactly the oldest entry. */
  lemma WithoutOldest(entries: seq<Entry>)
    requires Distinct(entries) && entries != []
    ensures Without(entries, entries[0].request) == entries[1..]
  {
    forall i | 0 <= i < |entries| - 1
      ensures entries[1..][i].request != entries[0].request
    {
      assert entries[1..][i] == entries[i + 1];
    }
    WithoutAbsent(entries[1..], entries[0].request);
  }

  /** `if (maxItems)`: a limit is given and is not 0. */
  predicate Bounded(maxItems: Option<nat>) {
    maxItems.Some? && maxItems.value != 0
  }

  /** How many of the oldest entries `cacheFirst` deletes before caching a new response. */
  function EvictionCount(size: nat, maxItems: Option<nat>): (n: nat)
    ensures n <= size
    ensures n > 0 ==> Bounded(maxItems) && size - n == maxItems.value - 1
    ensures Bounded(maxItems) && size >= maxItems.value ==> n > 0
  {
    if Bounded(maxItems) && size >= maxItems.value then size - maxItems.value + 1 else 0
  }

  /** What `cacheFirst` answers, whether it called `fetch`, and the cache's entries afterwards. */
  datatype Served = Served(response: Response, fetched: bool, entries: seq<Entry>)

  /**
   * `cacheFirst({ request, maxItems })` against a cache holding `entries`, for a request made
   * with the method `verb`, with `fetch` answering `reply`. Everything after the cache lookup runs in one
   * `try`: a rejected `fetch` and a rejected `cache.put` both end in the `catch` and its 504,
   * the latter after the evictions already made.
   */
  function CacheFirstSpec(entries: seq<Entry>, verb: string, request: string, maxItems: Option<nat>, reply: NetworkReply): (r: Served)
    ensures CacheMatch(entries, verb, request).Some? ==>
              !r.fetched && r.entries == entries && Some(r.response) == Lookup(entries, request)
    ensures CacheMatch(entries, verb, request).None? ==> r.fetched
    ensures CacheMatch(entries, verb, request).None? && reply.NetworkFailed? ==>
              r.response == Response(504, OfflineBody) && r.entries == entries
    ensures CacheMatch(entries, verb, request).None? && reply.Fetched? && !IsOk(reply.response) ==>
              r.response == reply.response && r.entries == entries
    ensures CacheMatch(entries, verb, request).None? && reply.Fetched? && IsOk(reply.response) ==>
              if PutAccepts(verb, reply.response) then
                && r.response == reply.response
                && r.entries == entries[EvictionCount(|entries|, maxItems)..] + [Entry(request, reply.response)]
                && Lookup(r.entries, request) == Some(reply.response)
              else
                r.response == Response(504, OfflineBody)
                && r.entries == entries[EvictionCount(|entries|, maxItems)..]
  {
    match CacheMatch(entries, verb, request)
    case Some(hit) => Served(hit, false, entries)
    case None =>
      match reply
      case NetworkFailed => Served(Response(504, OfflineBody), true, entries)
      case Fetched(response) =>
        if !IsOk(response) then Served(response, true, entries)
        else
          var kept := entries[EvictionCount(|entries|, maxItems)..];
          if !PutAccepts(verb, response) then Served(Response(504, OfflineBody), true, kept)
          else
            NotCachedInSuffix(entries, EvictionCount(|entries|, maxItems), request);
            LookupAfterAppend(kept, Entry(request, response));
            Served(response, true, kept + [Entry(request, response)])
  }

  /** A request missing from `entries` is found in the entry appended after them. */
  lemma {:induction false} LookupAfterAppend(entries: seq<Entry>, e: Entry)
    requires !Cached(entries, e.request)
    ensures Lookup(entries + [e], e.request) == Some(e.response)
    decreases |entries|
  {
    if entries != [] {
      assert entries[0].request != e.request;
      assert (entries + [e])[1..] == entries[1..] + [e];
      NotCachedInSuffix(entries, 1, e.request);
      LookupAfterAppend(entries[1..], e);
    }
  }

  /** The requests of a suffix of the entries followed by one more entry. */
  lemma RequestsOfSuffixThen(entries: seq<Entry>, k: nat, e: Entry)
    requires k <= |entries|
    ensures Requests(entries[k..] + [e]) == Requests(entries)[k..] + [e.request]
  {
    var x := entries[k..] + [e];
    var l, r := Requests(x), Requests(entries)[k..] + [e.request];
    assert |l| == |r| == |x|;
    forall i | 0 <= i < |x|
      ensures l[i] == r[i]
    {
      assert l[i] == x[i].request;
      if i < |entries| - k {
        assert x[i] == entries[k + i];
        assert r[i] == Requests(entries)[k + i];
      } else {
        assert x[i] == e && r[i] == e.request;
      }
    }
  }

  /**
   * A GET miss answered with a response the cache accepts evicts exactly the oldest
   * `size - maxItems + 1` entries when the cache holds `maxItems` or more, and appends the new
   * entry after the rest.
   */
  lemma EvictsOldest(entries: seq<Entry>, request: string, maxItems: Option<nat>, response: Response)
    requires !Cached(entries, request) && IsOk(response) && PutAccepts(Get, response)
    requires Bounded(maxItems) && |entries| >= maxItems.value
    ensures var r := CacheFirstSpec(entries, Get, request, maxItems, Fetched(response));
      && r.entries == entries[|entries| - maxItems.value + 1..] + [Entry(request, response)]
      && Requests(r.entries) == Requests(entries)[|entries| - maxItems.value + 1..] + [request]
      && |r.entries| == maxItems.value
  {
    var k := |entries| - maxItems.value + 1;
    assert CacheMatch(entries, Get, request) == None;
    RequestsOfSuffixThen(entries, k, Entry(request, response));
  }

  /**
   * Without a limit, or below it, nothing is evicted: the old entries stay, with their
   * responses and in order, at the front.
   */
  lemma NeverEvictsUnbounded(entries: seq<Entry>, verb: string, request: string, maxItems: Option<nat>, reply: NetworkReply)
    requires !Bounded(maxItems) || |entries| < maxItems.value
    ensures var r := CacheFirstSpec(entries, verb, request, maxItems, reply);
      |r.entries| >= |entries| && r.entries[..|entries|] == entries
  {
  }

  /**
   * `cacheFirst` keeps a bounded cache within its limit, and never caches a request twice.
   * A bounded cache that was over its limit is brought back within it by the next miss it stores.
   */
  lemma CacheFirstKeepsBound(entries: seq<Entry>, verb: string, request: string, maxItems: Option<nat>, reply: NetworkReply)
    requires Distinct(entries)
    ensures var r := CacheFirstSpec(entries, verb, request, maxItems, reply);
      && Distinct(r.entries)
      && (Bounded(maxItems) && |entries| <= maxItems.value ==> |r.entries| <= maxItems.value)
      && (Bounded(maxItems) && r.entries != entries ==> |r.entries| <= maxItems.value)
  {
    var r := CacheFirstSpec(entries, verb, request, maxItems, reply);
    if r.entries != entries {
      var n := EvictionCount(|entries|, maxItems);
      var kept := entries[n..];
      assert forall i :: 0 <= i < |kept| ==> kept[i] == entries[n + i];
      if r.entries != kept {
        assert r.entries == kept + [Entry(request, reply.response)];
        NotCachedInSuffix(entries, n, request);
      }
    }
  }

  /**
   * As written, a request that is not a GET, such as the POST of a Supabase insert, never
   * matches, and the `cache.put` of its successful answer rejects: the page is told 504
   * "Offline and not cached" although the server handled the request.
   */
  lemma AsWrittenPostAnsweredOffline(entries: seq<Entry>, verb: string, request: string, maxItems: Option<nat>, response: Response)
    requires verb != Get && IsOk(response)
    ensures var r := CacheFirstSpec(entries, verb, request, maxItems, Fetched(response));
      r.fetched && r.response == Response(504, OfflineBody) && r.response != response
  {
  }

  /**
   * `cacheFirst` with the store guarded by what `cache.put` accepts
   * (`if (networkResponse.ok && request.method === 'GET' && networkResponse.status !== 206)`),
   * so that only a rejected `fetch` reaches the `catch`.
   */
  function GuardedCacheFirstSpec(entries: seq<Entry>, verb: string, request: string, maxItems: Option<nat>, reply: NetworkReply): (r: Served)
    ensures reply.Fetched? && IsOk(reply.response) && !PutAccepts(verb, reply.response) ==> r.entries == entries
    ensures !(reply.Fetched? && IsOk(reply.response)) || PutAccepts(verb, reply.response) ==>
              r == CacheFirstSpec(entries, verb, request, maxItems, reply)
  {
    if reply.Fetched? && IsOk(reply.response) && !PutAccepts(verb, reply.response) then
      match CacheMatch(entries, verb, request)
      case Some(hit) => Served(hit, false, entries)
      case None => Served(reply.response, true, entries)
    else
      CacheFirstSpec(entries, verb, request, maxItems, reply)
  }

  /**
   * With the guard, an answer the network gives is what the page gets: a miss is answered 504
   * only when `fetch` rejects, and a hit is served from the cache as before.
   */
  lemma GuardedServesNetworkAnswer(entries: seq<Entry>, verb: string, request: string, maxItems: Option<nat>, reply: NetworkReply)
    ensures var r := GuardedCacheFirstSpec(entries, verb, request, maxItems, reply);
      && (CacheMatch(entries, verb, request).None? && reply.Fetched? ==> r.response == reply.response)
      && (CacheMatch(entries, verb, request).None? && reply.NetworkFailed? ==> r.response == Response(504, OfflineBody))
      && (CacheMatch(entries, verb, request).Some? ==> Some(r.response) == Lookup(entries, request) && r.entries == entries)
  {
  }

  /** A `Cache` object of the Cache Storage API. */
  class Cache {
    var entries: seq<Entry>

    ghost predicate Valid()
      reads this
    {
      Distinct(entries)
    }

    /** `caches.open(name)` for a name not opened before. */
    constructor ()
      ensures Valid() && entries == []
    {
      entries := [];
    }

    /** `cache.match(request)` for a request made with the method `verb`. */
    method Match(verb: string, request: string) returns (r: Option<Response>)
      ensures r == CacheMatch(entries, verb, request)
    {
      r := CacheMatch(entries, verb, request);
    }

    /** `cache.keys()`. */
    method Keys() returns (keys: seq<string>)
      ensures keys == Requests(entries)
    {
      keys := Requests(entries);
    }

    /** `cache.delete(request)`: resolves to whether an entry was removed. */
    method Delete(request: string) returns (found: bool)
      requires Valid()
      modifies this
      ensures Valid()
      ensures entries == Without(old(entries), request)
      ensures found == Cached(old(entries), request)
    {
      found := Lookup(entries, request).Some?;
      WithoutKeepsDistinct(entries, request);
      entries := Without(entries, request);
    }

    /**
     * `cache.put(request, response)` for a request made with the method `verb`: when the pair is
     * accepted, replaces any entry for `request` by a new newest one; otherwise it rejects
     * (`stored` is false) and the cache is unchanged.
     */
    method Put(verb: string, request: string, response: Response) returns (stored: bool)
      requires Valid()
      modifies this
      ensures Valid()
      ensures stored == PutAccepts(verb, response)
      ensures stored ==> entries == Without(old(entries), request) + [Entry(request, response)]
      ensures !stored ==> entries == old(entries)
    {
      stored := PutAccepts(verb, response);
      if stored {
        var rest := Without(entries, request);
        WithoutKeepsDistinct(entries, request);
        assert forall i :: 0 <= i < |rest| ==> rest[i] in rest;
        entries := rest + [Entry(request, response)];
      }
    }
  }

  /** `cacheFirst({ request, cacheName, maxItems })` on the cache opened under `cacheName`. */
  method CacheFirst(cache: Cache, verb: string, request: string, maxItems: Option<nat>, reply: NetworkReply)
    returns (response: Response, fetched: bool)
    requires cache.Valid()
    modifies cache
    ensures cache.Valid()
    ensures Served(response, fetched, cache.entries) == CacheFirstSpec(old(cache.entries), verb, request, maxItems, reply)
  {
    var cached := cache.Match(verb, request);
    if cached.Some? {
      return cached.value, false;
    }
    fetched := true;
    match reply
    case NetworkFailed =>
      response := Response(504, OfflineBody);
    case Fetched(networkResponse) =>
      response := networkResponse;
      if IsOk(networkResponse) {
        ghost var evicted := 0;
        if Bounded(maxItems) {
          var keys := cache.Keys();
          if |keys| >= maxItems.value {
            var i := 0;
            while i < |keys| - maxItems.value + 1
              invariant 0 <= i <= |keys| - maxItems.value + 1
              invariant cache.Valid()
              invariant cache.entries == old(cache.entries)[i..]
            {
              WithoutOldest(cache.entries);
              var deleted := cache.Delete(keys[i]);
              i := i + 1;
            }
            evicted := i;
          }
        }
        assert cache.entries == old(cache.entries)[evicted..];
        if verb == Get {
          NotCachedInSuffix(old(cache.entries), evicted, request);
          WithoutAbsent(cache.entries, request);
        }
        var stored := cache.Put(verb, request, networkResponse);
        if !stored {
          // the rejected put ends in the `catch`
          response := Response(504, OfflineBody);
        }
      }
  }

  /**
   * The `fetch` handler: a URL containing `tile.openstreetmap.org` is served from the tile
   * cache (`map-tile-cache`) with a limit of 1000 entries, any other from the application cache
   * (`transit-app-cache-v1`) with no limit.
   */
  method HandleFetch(verb: string, url: string, tiles: Cache, app: Cache, reply: NetworkReply)
    returns (response: Response, fetched: bool)
    requires tiles != app && tiles.Valid() && app.Valid()
    modifies tiles, app
    ensures tiles.Valid() && app.Valid()
    ensures Contains(url, TileHost) ==>
              Served(response, fetched, tiles.entries) == CacheFirstSpec(old(tiles.entries), verb, url, Some(MaxCachedTiles), reply)
              && app.entries == old(app.entries)
    ensures !Contains(url, TileHost) ==>
              Served(response, fetched, app.entries) == CacheFirstSpec(old(app.entries), verb, url, None, reply)
              && tiles.entries == old(tiles.entries)
  {
    if Contains(url, TileHost) {
      response, fetched := CacheFirst(tiles, verb, url, Some(MaxCachedTiles), reply);
      return;
    }
    response, fetched := CacheFirst(app, verb, url, None, reply);
  }
}
