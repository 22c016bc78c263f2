/**
 * `getRoute` of `lib/routingService.js`: one request to the public OSRM route service, and the
 * first route of its answer, or the error it failed with.
 */
module RoutingService {
  import opened Util
  import opened Geo

  const OsrmApiUrl: string := "https://router.project-osrm.org/route/v1"
  const Query: string := "?overview=full&geometries=geojson"
  const DefaultMode: string := "walking"
  const NoRouteMessage: string := "Unable to find route"
  const NoFirstRouteMessage: string := "Cannot read properties of undefined (reading 'geometry')"

  /** The decimal texts of a coordinate pair's two numbers, as a template literal prints them. */
  datatype CoordText = CoordText(first: string, second: string)

  /** The request URL: `${OSRM_API_URL}/${mode}/${s0},${s1};${e0},${e1}?overview=full&geometries=geojson`. */
  function BuildUrl(start: CoordText, end: CoordText, mode: string := DefaultMode): (url: string)
    ensures |url| > |OsrmApiUrl| + |Query|
    ensures url[..|OsrmApiUrl|] == OsrmApiUrl && url[|url| - |Query|..] == Query
  {
    OsrmApiUrl + "/" + (mode + "/" + CoordsText(start, end)) + Query
  }

  /** `${s0},${s1};${e0},${e1}`. */
  function CoordsText(start: CoordText, end: CoordText): string {
    start.first + "," + start.second + ";" + end.first + "," + end.second
  }

  /** The index of the first `c` in `s`, if any. */
  function IndexOf(s: string, c: char): (r: Option<nat>)
    ensures r.None? ==> c !in s
    ensures r.Some? ==> r.value < |s| && s[r.value] == c && c !in s[..r.value]
    decreases |s|
  {
    if s == [] then None
    else if s[0] == c then Some(0)
    else match IndexOf(s[1..], c)
      case None => None
      case Some(i) =>
        assert s[..i + 1] == [s[0]] + s[1..][..i];
        Some(i + 1)
  }

  /** `s` split at its first `c`: the text before it and the text after it. */
  function SplitAt(s: string, c: char): (r: Option<(string, string)>)
    ensures r.None? <==> c !in s
    ensures r.Some? ==> s == r.value.0 + [c] + r.value.1 && c !in r.value.0
  {
    match IndexOf(s, c)
    case None => None
    case Some(i) =>
      assert s == s[..i] + [c] + s[i + 1..];
      Some((s[..i], s[i + 1..]))
  }

  /** The first `c` in `a + [c] + b` is the one right after `a` when `a` has no `c`. */
  lemma {:induction false} IndexOfJoin(a: string, c: char, b: string)
    requires c !in a
    ensures IndexOf(a + [c] + b, c) == Some(|a|)
    decreases |a|
  {
    if a != [] {
      assert (a + [c] + b)[1..] == a[1..] + [c] + b;
      IndexOfJoin(a[1..], c, b);
    }
  }

  /** Splitting `a + [c] + b` at `c` gives `a` and `b` back when `a` has no `c`. */
  lemma SplitAtJoin(a: string, c: char, b: string)
    requires c !in a
    ensures SplitAt(a + [c] + b, c) == Some((a, b))
  {
    var s := a + [c] + b;
    IndexOfJoin(a, c, b);
    assert s[..|a|] == a && s[|a| + 1..] == b;
  }

  /** The two coordinate pairs read from the text `s0,s1;e0,e1`. */
  function ParseCoords(coords: string): Option<(CoordText, CoordText)>
  {
    match SplitAt(coords, ',')
    case None => None
    case Some((s0, rest)) =>
      match SplitAt(rest, ';')
      case None => None
      case Some((s1, tail)) =>
        match SplitAt(tail, ',')
        case None => None
        case Some((e0, e1)) => Some((CoordText(s0, s1), CoordText(e0, e1)))
  }

  /** The text a route service reads from a request URL: the mode and the two coordinate pairs. */
  function ParseUrl(url: string): Option<(string, CoordText, CoordText)>
  {
    if |url| < |OsrmApiUrl| + 1 + |Query| || url[..|OsrmApiUrl| + 1] != OsrmApiUrl + "/"
       || url[|url| - |Query|..] != Query then None
    else
      match SplitAt(url[|OsrmApiUrl| + 1..|url| - |Query|], '/')
      case None => None
      case Some((mode, coords)) =>
        match ParseCoords(coords)
        case None => None
        case Some((start, end)) => Some((mode, start, end))
  }

  /** A text a URL part can be read back from: none of the separators `/`, `,`, `;`. */
  predicate Plain(s: string) {
    '/' !in s && ',' !in s && ';' !in s
  }

  /** The coordinate text of the request reads back as the two pairs it was made from. */
  lemma ParseCoordsJoin(start: CoordText, end: CoordText)
    requires Plain(start.first) && Plain(start.second) && Plain(end.first)
    ensures ParseCoords(CoordsText(start, end)) == Some((start, end))
  {
    var tail := end.first + "," + end.second;
    var rest := start.second + ";" + tail;
    assert CoordsText(start, end) == start.first + "," + rest;
    SplitAtJoin(start.first, ',', rest);
    SplitAtJoin(start.second, ';', tail);
    SplitAtJoin(end.first, ',', end.second);
  }

  /** Between its fixed prefix and query, the request URL holds `mode/coords`. */
  lemma UrlPath(start: CoordText, end: CoordText, mode: string)
    ensures var url, coords := BuildUrl(start, end, mode), CoordsText(start, end);
      && |url| >= |OsrmApiUrl| + 1 + |Query|
      && url[..|OsrmApiUrl| + 1] == OsrmApiUrl + "/"
      && url[|url| - |Query|..] == Query
      && url[|OsrmApiUrl| + 1..|url| - |Query|] == mode + "/" + coords
  {
    Middle(OsrmApiUrl + "/", mode + "/" + CoordsText(start, end), Query);
  }

  /** The parts of a text made of a prefix, a middle and a suffix. */
  lemma Middle(p: string, m: string, q: string)
    ensures var s := p + m + q;
      s[..|p|] == p && s[|s| - |q|..] == q && s[|p|..|s| - |q|] == m
  {
  }

  /** The request URL carries the mode and both coordinate pairs: parsing it gives them back. */
  lemma ParseBuildUrl(start: CoordText, end: CoordText, mode: string)
    requires Plain(mode) && Plain(start.first) && Plain(start.second) && Plain(end.first)
    ensures ParseUrl(BuildUrl(start, end, mode)) == Some((mode, start, end))
  {
    UrlPath(start, end, mode);
    SplitAtJoin(mode, '/', CoordsText(start, end));
    ParseCoordsJoin(start, end);
  }

  /** Without a mode, the request asks for a walking route. */
  lemma DefaultModeIsWalking(start: CoordText, end: CoordText)
    requires Plain(start.first) && Plain(start.second) && Plain(end.first)
    ensures ParseUrl(BuildUrl(start, end)) == Some(("walking", start, end))
  {
    ParseBuildUrl(start, end, DefaultMode);
  }

  /** Different routes asked of the service make different request URLs. */
  lemma BuildUrlInjective(s: CoordText, e: CoordText, m: string, s': CoordText, e': CoordText, m': string)
    requires Plain(m) && Plain(s.first) && Plain(s.second) && Plain(e.first)
    requires Plain(m') && Plain(s'.first) && Plain(s'.second) && Plain(e'.first)
    requires BuildUrl(s, e, m) == BuildUrl(s', e', m')
    ensures s == s' && e == e' && m == m'
  {
    ParseBuildUrl(s, e, m);
    ParseBuildUrl(s', e', m');
  }

  /** One element of the answer's `routes`. */
  datatype OsrmRoute = OsrmRoute(geometry: Geometry, distance: real, duration: real)

  /** The JSON body of the answer: its `code` and its `routes`. */
  datatype OsrmBody = OsrmBody(code: string, routes: seq<OsrmRoute>)

  /** What `fetch(url)` followed by `response.json()` yields: a rejection of either, or the body. */
  datatype FetchReply = NetworkFailure(message: string) | NotJson(message: string) | Json(body: OsrmBody)

  /** The route `getRoute` returns for an answer whose body is `body`, or the error it throws. */
  function Interpret(body: OsrmBody): (r: Result<Route>)
    ensures r.Ok? <==> body.code == "Ok" && |body.routes| > 0
    ensures body.code != "Ok" ==> r == Err(NoRouteMessage)
    ensures body.code == "Ok" && body.routes == [] ==> r == Err(NoFirstRouteMessage)
    ensures r.Ok? ==>
              && r.value.geometry == body.routes[0].geometry
              && r.value.distance == body.routes[0].distance
              && r.value.duration == Some(body.routes[0].duration)
  {
    if body.code != "Ok" then Err(NoRouteMessage)
    else if |body.routes| == 0 then Err(NoFirstRouteMessage)
    else
      var first := body.routes[0];
      Ok(Route(first.geometry, first.distance, Some(first.duration)))
  }

  /** Only the first route of the answer matters: alternatives after it are ignored. */
  lemma OnlyFirstRouteCounts(code: string, first: OsrmRoute, others: seq<OsrmRoute>, others': seq<OsrmRoute>)
    ensures Interpret(OsrmBody(code, [first] + others)) == Interpret(OsrmBody(code, [first] + others'))
  {
  }

  /**
   * `getRoute(startCoords, endCoords, mode)`: `fetch` answers the request URL; a rejected
   * fetch or body is rethrown as it is.
   */
  function GetRoute(start: CoordText, end: CoordText, fetch: string -> FetchReply, mode: string := DefaultMode): (r: Result<Route>)
    ensures fetch(BuildUrl(start, end, mode)).NetworkFailure? ==> r == Err(fetch(BuildUrl(start, end, mode)).message)
    ensures fetch(BuildUrl(start, end, mode)).NotJson? ==> r == Err(fetch(BuildUrl(start, end, mode)).message)
    ensures r.Ok? <==> fetch(BuildUrl(start, end, mode)).Json? && Interpret(fetch(BuildUrl(start, end, mode)).body).Ok?
    ensures fetch(BuildUrl(start, end, mode)).Json? ==> r == Interpret(fetch(BuildUrl(start, end, mode)).body)
  {
    match fetch(BuildUrl(start, end, mode))
    case NetworkFailure(message) => Err(message)
    case NotJson(message) => Err(message)
    case Json(body) => Interpret(body)
  }
}
