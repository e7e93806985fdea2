/** Which route serves a request, and how large its body may be. The limit is computed twice: when the headers have
    arrived, and again by the handler. */
module RouteSelection {
  import opened Collections
  import opened Routing

  /** `maxBytes` is the route's own body limit; not positive when it has none. */
  datatype Route = Route(name: string, verb: string, pattern: string, handler: string, maxBytes: int)

  datatype Stream = Stream(name: string, verb: string, pattern: string, handler: string, ws: bool)

  const PayloadMaxLength: int := 8 * 1024 * 1024

  function Min(a: int, b: int): int {
    if a < b then a else b
  }

  function HardLimit(maxRequestBytes: int): int {
    if maxRequestBytes < 1 then 1 else maxRequestBytes
  }

  function DefaultLimit(maxRequestBytes: int): int {
    Min(PayloadMaxLength, HardLimit(maxRequestBytes))
  }

  function RouteLimit(route: Option<Route>, maxRequestBytes: int): int {
    if route.Some? && route.value.maxBytes > 0 then route.value.maxBytes else DefaultLimit(maxRequestBytes)
  }

  predicate Serves(route: Route, verb: string, path: string) {
    route.verb == verb && Match(route.pattern, path).Some?
  }

  /** The last registered route that serves the request. */
  function LastServing(routes: seq<Route>, verb: string, path: string): Option<Route> {
    if routes == [] then None
    else if Serves(routes[|routes| - 1], verb, path) then Some(routes[|routes| - 1])
    else LastServing(routes[..|routes| - 1], verb, path)
  }

  predicate Streams(stream: Stream, verb: string, path: string) {
    !stream.ws && stream.verb == verb && Match(stream.pattern, path).Some?
  }

  /** The first stream that serves the request. */
  function FirstStreaming(streams: seq<Stream>, verb: string, path: string): Option<Stream> {
    if streams == [] then None
    else if Streams(streams[0], verb, path) then Some(streams[0])
    else FirstStreaming(streams[1..], verb, path)
  }

  lemma {:induction false} LastServingIsLast(routes: seq<Route>, verb: string, path: string)
    ensures LastServing(routes, verb, path).None? <==> forall r | r in routes :: !Serves(r, verb, path)
    ensures LastServing(routes, verb, path).Some? ==>
      exists i :: 0 <= i < |routes| && LastServing(routes, verb, path) == Some(routes[i]) && Serves(routes[i], verb, path)
        && forall j | i < j < |routes| :: !Serves(routes[j], verb, path)
  {
    if routes != [] {
      var n := |routes| - 1;
      assert routes == routes[..n] + [routes[n]];
      LastServingIsLast(routes[..n], verb, path);
      assert LastServing(routes, verb, path).Some? ==>
        Serves(routes[n], verb, path) || LastServing(routes[..n], verb, path).Some?;
    }
  }

  lemma {:induction false} FirstStreamingIsFirst(streams: seq<Stream>, verb: string, path: string)
    ensures FirstStreaming(streams, verb, path).None? <==> forall s | s in streams :: !Streams(s, verb, path)
    ensures FirstStreaming(streams, verb, path).Some? ==>
      var s := FirstStreaming(streams, verb, path).value; s in streams && Streams(s, verb, path)
    ensures forall i | 0 <= i < |streams| && Streams(streams[i], verb, path) && (forall j | 0 <= j < i :: !Streams(streams[j], verb, path)) ::
      FirstStreaming(streams, verb, path) == Some(streams[i])
  {
    if streams != [] {
      assert streams == [streams[0]] + streams[1..];
      FirstStreamingIsFirst(streams[1..], verb, path);
      assert forall i | 0 < i < |streams| :: streams[i] == streams[1..][i - 1];
    }
  }

  lemma {:induction false} FirstStreamingGrows(before: seq<Stream>, s: Stream, verb: string, path: string)
    ensures FirstStreaming(before + [s], verb, path) ==
      if FirstStreaming(before, verb, path).Some? then FirstStreaming(before, verb, path)
      else if Streams(s, verb, path) then Some(s) else None
  {
    if before == [] {
      assert [s][1..] == [];
      assert before + [s] == [s];
    } else {
      assert (before + [s])[1..] == before[1..] + [s];
      FirstStreamingGrows(before[1..], s, verb, path);
    }
  }

  /** The route whose limit applies when the headers have arrived. */
  function HeaderRoute(routes: seq<Route>, verb: string, path: string): Option<Route> {
    var own := LastServing(routes, verb, path);
    if own.None? && verb == "HEAD" then LastServing(routes, "GET", path) else own
  }

  /** The route the handler runs. A stream of that very method stops HEAD from falling back to GET. */
  function HandlerRoute(routes: seq<Route>, streams: seq<Stream>, verb: string, path: string): Option<Route> {
    var own := LastServing(routes, verb, path);
    if own.None? && verb == "HEAD" && FirstStreaming(streams, verb, path).None? then LastServing(routes, "GET", path)
    else own
  }

  function EffectiveLimit(route: Option<Route>, maxRequestBytes: int): int {
    Min(RouteLimit(route, maxRequestBytes), HardLimit(maxRequestBytes))
  }

  // ---------------------------------------------------------------- the theorems

  /** The limit in bytes: the route's own if it has one, else 8 MiB, and in either case no more than the server's, which is
      at least one byte. */
  lemma LimitIs(route: Option<Route>, max: int)
    ensures var limit := EffectiveLimit(route, max); var server := if max < 1 then 1 else max;
      && 1 <= limit <= server
      && (route.Some? && 0 < route.value.maxBytes <= server ==> limit == route.value.maxBytes)
      && (route.Some? && server < route.value.maxBytes ==> limit == server)
      && (route.None? || route.value.maxBytes <= 0 ==> limit == if server < 8388608 then server else 8388608)
  {
  }

  /** The two limits differ exactly for a HEAD request that a HEAD stream answers, with no HEAD route but a GET route
      whose own limit is not the default. */
  lemma LimitsAgreeIff(routes: seq<Route>, streams: seq<Stream>, verb: string, path: string, max: int)
    ensures
      EffectiveLimit(HeaderRoute(routes, verb, path), max) == EffectiveLimit(HandlerRoute(routes, streams, verb, path), max)
      <==>
      !(&& verb == "HEAD"
        && (forall r | r in routes :: !Serves(r, "HEAD", path))
        && (exists s | s in streams :: Streams(s, "HEAD", path))
        && EffectiveLimit(LastServing(routes, "GET", path), max) != DefaultLimit(max))
  {
    LastServingIsLast(routes, "HEAD", path);
    FirstStreamingIsFirst(streams, "HEAD", path);
  }

  /** CREATE STREAM makes only GET event streams and WebSocket streams. */
  predicate RegisteredStreams(streams: seq<Stream>) {
    forall s | s in streams :: s.ws || s.verb == "GET"
  }

  /** What CREATE STREAM makes of an upper-case method. */
  function CreatedStream(name: string, verb: string, pattern: string, handler: string): Option<Stream> {
    var m := if verb == "WEBSOCKET" then "WS" else verb;
    if m != "GET" && m != "WS" then None else Some(Stream(name, m, pattern, handler, m == "WS"))
  }

  lemma CreatedStreamsAreRegistered(streams: seq<Stream>, name: string, verb: string, pattern: string, handler: string)
    requires RegisteredStreams(streams)
    ensures var c := CreatedStream(name, verb, pattern, handler);
      && (c.Some? <==> verb == "GET" || verb == "WS" || verb == "WEBSOCKET")
      && (c.Some? ==> RegisteredStreams(streams + [c.value]) && (c.value.ws <==> verb != "GET"))
  {
  }

  /** So with what can be registered, both phases apply the same limit to every request. */
  lemma LimitsAgree(routes: seq<Route>, streams: seq<Stream>, verb: string, path: string, max: int)
    requires RegisteredStreams(streams)
    ensures HeaderRoute(routes, verb, path) == HandlerRoute(routes, streams, verb, path)
    ensures EffectiveLimit(HeaderRoute(routes, verb, path), max) == EffectiveLimit(HandlerRoute(routes, streams, verb, path), max)
  {
    FirstStreamingIsFirst(streams, "HEAD", path);
  }

  /** A HEAD stream beside a GET route with its own limit would separate the two phases. */
  lemma HeadStreamSeparates()
    ensures exists routes: seq<Route>, streams: seq<Stream>, verb: string, path: string, max: int ::
      EffectiveLimit(HeaderRoute(routes, verb, path), max) != EffectiveLimit(HandlerRoute(routes, streams, verb, path), max)
  {
    var route, stream := Route("r", "GET", "/a", "", 7), Stream("s", "HEAD", "/a", "", false);
    MatchInvertsInstantiation("/a", []);
    var routes, streams := [route], [stream];
    assert Names(["a"]) == [] by { assert Names([]) == []; }
    calc {
      Split("/a");
      Split("a");
      { SplitWord("a", ""); assert "a" + "" == "a"; }
      ["a"];
    }
    MatchIffFilled("/a", "/a", []);
    assert Fill(["a"], []) == ["a"] by { assert ["a"][1..] == []; }
    assert Serves(route, "GET", "/a") && Streams(stream, "HEAD", "/a");
    assert routes[..0] == [];
    assert LastServing(routes, "GET", "/a") == Some(route);
    assert LastServing(routes, "HEAD", "/a") == None by { LastServingIsLast(routes, "HEAD", "/a"); }
    LimitsAgreeIff(routes, streams, "HEAD", "/a", 100);
    assert EffectiveLimit(HeaderRoute(routes, "HEAD", "/a"), 100) != EffectiveLimit(HandlerRoute(routes, streams, "HEAD", "/a"), 100);
  }

  // ---------------------------------------------------------------- the header phase

  lemma LastServingGrows(routes: seq<Route>, i: nat, verb: string, path: string)
    requires i < |routes|
    ensures LastServing(routes[..i + 1], verb, path) ==
      if Serves(routes[i], verb, path) then Some(routes[i]) else LastServing(routes[..i], verb, path)
  {
    assert routes[..i + 1][..i] == routes[..i];
  }

  /** One pass over the routes; the last that serves decides. */
  method LastLimit(routes: seq<Route>, verb: string, path: string, max: int, start: int) returns (limit: int)
    requires start == DefaultLimit(max)
    ensures limit == RouteLimit(LastServing(routes, verb, path), max)
  {
    limit := start;
    for i := 0 to |routes|
      invariant LastServing(routes[..i], verb, path).None? ==> limit == start
      invariant LastServing(routes[..i], verb, path).Some? ==> limit == RouteLimit(LastServing(routes[..i], verb, path), max)
    {
      LastServingGrows(routes, i, verb, path);
      if routes[i].verb == verb {
        var matched, _ := MatchPattern(routes[i].pattern, path);
        if matched {
          limit := if routes[i].maxBytes > 0 then routes[i].maxBytes else DefaultLimit(max);
        }
      }
    }
    assert routes[..|routes|] == routes;
  }

  method AnyServes(routes: seq<Route>, verb: string, path: string) returns (found: bool)
    ensures found <==> LastServing(routes, verb, path).Some?
  {
    found := false;
    for i := 0 to |routes|
      invariant found <==> LastServing(routes[..i], verb, path).Some?
    {
      LastServingGrows(routes, i, verb, path);
      if routes[i].verb == verb {
        var matched, _ := MatchPattern(routes[i].pattern, path);
        if matched { found := true; }
      }
    }
    assert routes[..|routes|] == routes;
  }

  method SetRequestPayloadLimit(routes: seq<Route>, verb: string, path: string, max: int) returns (limit: int)
    ensures limit == EffectiveLimit(HeaderRoute(routes, verb, path), max)
  {
    var routeLimit := LastLimit(routes, verb, path, max, DefaultLimit(max));
    if verb == "HEAD" {
      var found := AnyServes(routes, "HEAD", path);
      if !found { routeLimit := LastLimit(routes, "GET", path, max, routeLimit); }
    }
    limit := Min(routeLimit, HardLimit(max));
  }

  // ---------------------------------------------------------------- the handler

  predicate Distinct(list: seq<string>) {
    forall i, j | 0 <= i < j < |list| :: list[i] != list[j]
  }

  /** Adds a method to the Allow list unless it is there. */
  function Listed(list: seq<string>, verb: string): (r: seq<string>)
    ensures Distinct(list) ==> Distinct(r)
    ensures forall m :: m in r <==> m in list || m == verb
    ensures list <= r
  {
    if verb in list then list else list + [verb]
  }

  ghost predicate RouteOffers(routes: seq<Route>, verb: string, path: string) {
    exists r | r in routes :: Serves(r, verb, path)
  }

  ghost predicate StreamOffers(streams: seq<Stream>, verb: string, path: string) {
    exists s | s in streams :: Streams(s, verb, path)
  }

  lemma RouteOffersGrows(routes: seq<Route>, i: nat, verb: string, path: string)
    requires i < |routes|
    ensures RouteOffers(routes[..i + 1], verb, path) <==> RouteOffers(routes[..i], verb, path) || Serves(routes[i], verb, path)
  {
    var r := routes[i];
    assert routes[..i + 1] == routes[..i] + [r];
    assert r in routes[..i + 1];
  }

  lemma StreamOffersGrows(streams: seq<Stream>, i: nat, verb: string, path: string)
    requires i < |streams|
    ensures StreamOffers(streams[..i + 1], verb, path) <==> StreamOffers(streams[..i], verb, path) || Streams(streams[i], verb, path)
  {
    var s := streams[i];
    assert streams[..i + 1] == streams[..i] + [s];
    assert s in streams[..i + 1];
  }

  predicate Captured(pattern: string, path: string, params: Captures) {
    Match(pattern, path) == Some(params)
  }

  method ScanRoutes(routes: seq<Route>, verb: string, path: string)
    returns (route: Option<Route>, params: Captures, verbs: seq<string>)
    ensures route == LastServing(routes, verb, path)
    ensures route.Some? ==> Captured(route.value.pattern, path, params)
    ensures Distinct(verbs) && forall m :: m in verbs <==> RouteOffers(routes, m, path)
  {
    route, params, verbs := None, [], [];
    for i := 0 to |routes|
      invariant route == LastServing(routes[..i], verb, path)
      invariant route.Some? ==> Captured(route.value.pattern, path, params)
      invariant Distinct(verbs) && forall m :: m in verbs <==> RouteOffers(routes[..i], m, path)
    {
      LastServingGrows(routes, i, verb, path);
      forall m ensures RouteOffers(routes[..i + 1], m, path) <==> RouteOffers(routes[..i], m, path) || Serves(routes[i], m, path) {
        RouteOffersGrows(routes, i, m, path);
      }
      var matched, captures := MatchPattern(routes[i].pattern, path);
      if matched {
        verbs := Listed(verbs, routes[i].verb);
        if routes[i].verb == verb { route, params := Some(routes[i]), captures; }
      }
    }
    assert routes[..|routes|] == routes;
  }

  /** Streams add to the Allow list; the first of the request's method is taken if no route was. */
  method ScanStreams(streams: seq<Stream>, verb: string, path: string, taken: bool, listed: seq<string>)
    returns (stream: Option<Stream>, params: Captures, verbs: seq<string>, websocketPath: bool)
    requires Distinct(listed)
    ensures stream == if taken then None else FirstStreaming(streams, verb, path)
    ensures stream.Some? ==> Captured(stream.value.pattern, path, params)
    ensures Distinct(verbs) && forall m :: m in verbs <==> m in listed || StreamOffers(streams, m, path)
    ensures websocketPath <==> exists s | s in streams :: s.ws && Match(s.pattern, path).Some?
  {
    stream, params, verbs, websocketPath := None, [], listed, false;
    for i := 0 to |streams|
      invariant stream == if taken then None else FirstStreaming(streams[..i], verb, path)
      invariant stream.Some? ==> Captured(stream.value.pattern, path, params)
      invariant Distinct(verbs) && forall m :: m in verbs <==> m in listed || StreamOffers(streams[..i], m, path)
      invariant websocketPath <==> exists s | s in streams[..i] :: s.ws && Match(s.pattern, path).Some?
    {
      var s := streams[i];
      assert streams[..i + 1] == streams[..i] + [s];
      FirstStreamingGrows(streams[..i], s, verb, path);
      forall m ensures StreamOffers(streams[..i + 1], m, path) <==> StreamOffers(streams[..i], m, path) || Streams(s, m, path) {
        StreamOffersGrows(streams, i, m, path);
      }
      var matched, captures := MatchPattern(s.pattern, path);
      if s.ws {
        websocketPath := websocketPath || matched;
      } else if matched {
        verbs := Listed(verbs, s.verb);
        if s.verb == verb && !taken && stream.None? { stream, params := Some(s), captures; }
      }
    }
    assert streams[..|streams|] == streams;
  }

  datatype Selection = Selection(route: Option<Route>, stream: Option<Stream>, params: Captures, verbs: seq<string>,
                                 websocketPath: bool)

  /** An event stream that answers HEAD in the place of GET. The code does not look at the transport here; a
      WebSocket stream never has the method GET. */
  predicate GetStream(s: Stream, path: string) {
    s.verb == "GET" && Match(s.pattern, path).Some?
  }

  method FindGetStream(streams: seq<Stream>, path: string) returns (stream: Option<Stream>, params: Captures)
    ensures stream.Some? ==> stream.value in streams && GetStream(stream.value, path) && Captured(stream.value.pattern, path, params)
    ensures stream.None? ==> forall s | s in streams :: !GetStream(s, path)
  {
    for i := 0 to |streams|
      invariant forall s | s in streams[..i] :: !GetStream(s, path)
    {
      assert streams[..i + 1] == streams[..i] + [streams[i]];
      var matched, captures := MatchPattern(streams[i].pattern, path);
      if matched && streams[i].verb == "GET" { return Some(streams[i]), captures; }
    }
    assert streams[..|streams|] == streams;
    return None, [];
  }

  /** The route and the stream that the handler settles on: never both, a route before a stream, and neither only if
      nothing serves the request. The Allow list names each method of the path once, and HEAD when it stands in for
      GET. */
  method SelectHandler(routes: seq<Route>, streams: seq<Stream>, verb: string, path: string) returns (r: Selection)
    ensures r.route == HandlerRoute(routes, streams, verb, path)
    ensures r.route.Some? ==> r.stream.None? && Captured(r.route.value.pattern, path, r.params)
    ensures r.stream.Some? ==>
      && r.stream.value in streams && Captured(r.stream.value.pattern, path, r.params)
      && (Streams(r.stream.value, verb, path) || (verb == "HEAD" && GetStream(r.stream.value, path)))
    ensures r.route.None? && r.stream.None? ==>
      && !RouteOffers(routes, verb, path) && !StreamOffers(streams, verb, path)
      && (verb == "HEAD" ==> !RouteOffers(routes, "GET", path) && forall s | s in streams :: !GetStream(s, path))
    ensures Distinct(r.verbs)
    ensures forall m :: m in r.verbs <==>
      || RouteOffers(routes, m, path) || StreamOffers(streams, m, path)
      || (m == verb == "HEAD" && (r.route.Some? || r.stream.Some?))
    ensures r.websocketPath <==> exists s | s in streams :: s.ws && Match(s.pattern, path).Some?
  {
    var route, params, verbs := ScanRoutes(routes, verb, path);
    var stream, streamParams, allVerbs, websocketPath := ScanStreams(streams, verb, path, route.Some?, verbs);
    LastServingIsLast(routes, verb, path);
    LastServingIsLast(routes, "GET", path);
    FirstStreamingIsFirst(streams, verb, path);
    if route.None? && stream.None? && verb == "HEAD" {
      route, params, verbs := ScanRoutes(routes, "GET", path);
      if route.None? { stream, streamParams := FindGetStream(streams, path); }
      if route.Some? || stream.Some? { allVerbs := Listed(allVerbs, "HEAD"); }
    }
    r := Selection(route, stream, if route.Some? then params else streamParams, allVerbs, websocketPath);
  }

  /** The handler's own check of the body. */
  method HandlerLimit(routes: seq<Route>, streams: seq<Stream>, verb: string, path: string, max: int) returns (limit: int)
    ensures limit == EffectiveLimit(HandlerRoute(routes, streams, verb, path), max)
  {
    var r := SelectHandler(routes, streams, verb, path);
    var routeLimit := if r.route.Some? && r.route.value.maxBytes > 0 then r.route.value.maxBytes else DefaultLimit(max);
    limit := Min(routeLimit, HardLimit(max));
  }
}
