/**
 * The routing engine of `src/routing/route.rs`: routes and routers built by
 * appending, the segment-wise pattern matcher, route-parameter injection,
 * and dispatch through the router-scoped and route-scoped middleware chains
 * to the handler.
 */
module Routing {
  import opened Results
  import opened Text
  import opened Bindings
  import opened Requests
  import opened Responses

  /** What a middleware returns: the request to continue with, or the final response. */
  type Outcome = Result<Request, Response>

  /** Handlers and middleware are plain functions without captured state. */
  type Handler = Request -> Response
  type Middleware = Request -> Outcome

  datatype Route = Route(httpMethod: string, path: string, handler: Handler, middleware: seq<Middleware>)

  datatype Router = Router(prefix: string, routes: seq<Route>, middleware: seq<Middleware>)

  const ROOT_PREFIX: string := "/"
  const PREFIX_NOT_MATCHED: string := "Route prefix not matched"
  const NO_MATCHING_ROUTE: string := "No matching route found"

  // ---------------------------------------------------------------------
  // Middleware chains
  // ---------------------------------------------------------------------

  /**
   * Folding a middleware list over a state: while the state is `Ok`, each
   * middleware receives the previous one's request; once it is `Err`, no
   * further middleware is consulted and the state is the result.
   */
  function Chain(middleware: seq<Middleware>, state: Outcome): Outcome
    decreases |middleware|
  {
    if middleware == [] then state
    else
      match state
      case Err(_) => state
      case Ok(req) => Chain(middleware[1..], middleware[0](req))
  }

  /**
   * The middleware loop of both `handle_request`s: the first `Err` ends the
   * loop and is returned as it is.
   */
  method RunMiddleware(middleware: seq<Middleware>, request: Request) returns (result: Outcome)
    ensures result == Chain(middleware, Ok(request))
  {
    result := Ok(request);
    for i := 0 to |middleware|
      invariant Chain(middleware[i..], result) == Chain(middleware, Ok(request))
    {
      assert middleware[i..][1..] == middleware[i + 1..];
      match result
      case Err(_) =>
        return;
      case Ok(req) =>
        result := middleware[i](req);
    }
  }

  /** Running two lists one after the other is running their concatenation. */
  lemma {:induction false} ChainAppend(a: seq<Middleware>, b: seq<Middleware>, state: Outcome)
    ensures Chain(a + b, state) == Chain(b, Chain(a, state))
    decreases |a|
  {
    if a == [] {
      assert a + b == b;
    } else if state.Ok? {
      assert (a + b)[0] == a[0] && (a + b)[1..] == a[1..] + b;
      ChainAppend(a[1..], b, a[0](state.value));
    }
  }

  /** Once a prefix of the list has failed, whatever follows it is never consulted. */
  lemma ShortCircuit(a: seq<Middleware>, rest: seq<Middleware>, request: Request, response: Response)
    requires Chain(a, Ok(request)) == Err(response)
    ensures Chain(a + rest, Ok(request)) == Err(response)
  {
    ChainAppend(a, rest, Ok(request));
  }

  /**
   * When the first `k` middlewares pass the request along to `r` and the next
   * one answers `Err(response)`, the chain's result is exactly that response.
   */
  lemma FailsAt(middleware: seq<Middleware>, request: Request, k: nat, r: Request, response: Response)
    requires k < |middleware|
    requires Chain(middleware[..k], Ok(request)) == Ok(r)
    requires middleware[k](r) == Err(response)
    ensures Chain(middleware, Ok(request)) == Err(response)
  {
    ChainAppend(middleware[..k], middleware[k..], Ok(request));
    assert middleware[..k] + middleware[k..] == middleware;
  }

  /** A middleware that always continues with the request it was given. */
  ghost predicate PassesThrough(m: Middleware) {
    forall r :: m(r) == Ok(r)
  }

  /** A chain of pass-through middleware leaves the request as it is. */
  lemma {:induction false} ChainOfPassThrough(middleware: seq<Middleware>, request: Request)
    requires forall i :: 0 <= i < |middleware| ==> PassesThrough(middleware[i])
    ensures Chain(middleware, Ok(request)) == Ok(request)
    decreases |middleware|
  {
    if middleware != [] {
      assert middleware[0](request) == Ok(request);
      ChainOfPassThrough(middleware[1..], request);
    }
  }

  // ---------------------------------------------------------------------
  // Route
  // ---------------------------------------------------------------------

  /** `Route::new`. */
  function NewRoute(verb: string, path: string, handler: Handler): (r: Route)
    ensures r.httpMethod == verb && r.path == path && r.handler == handler && r.middleware == []
  {
    Route(verb, path, handler, [])
  }

  /** `Route::add_middleware`: appends at the end and changes nothing else. */
  function RouteAddMiddleware(route: Route, m: Middleware): (r: Route)
    ensures r.middleware == route.middleware + [m]
    ensures r.httpMethod == route.httpMethod && r.path == route.path && r.handler == route.handler
  {
    route.(middleware := route.middleware + [m])
  }

  /** The response of `Route::handle_request`. */
  function RouteResponse(route: Route, request: Request): Response {
    match Chain(route.middleware, Ok(request))
    case Err(response) => response
    case Ok(req) => route.handler(req)
  }

  /** `Route::handle_request`: the route's middleware in order, then the handler. */
  method RouteHandleRequest(route: Route, request: Request) returns (response: Response)
    ensures response == RouteResponse(route, request)
  {
    var finalRequest := RunMiddleware(route.middleware, request);
    match finalRequest
    case Ok(req) =>
      response := route.handler(req);
    case Err(res) =>
      response := res;
  }

  /** A middleware failure is the route's answer whatever its handler would do. */
  lemma HandlerSkippedOnFailure(route: Route, request: Request, other: Handler)
    requires Chain(route.middleware, Ok(request)).Err?
    ensures RouteResponse(route, request) == Chain(route.middleware, Ok(request)).error
    ensures RouteResponse(route.(handler := other), request) == RouteResponse(route, request)
  {
  }

  // ---------------------------------------------------------------------
  // Pattern matcher
  // ---------------------------------------------------------------------

  /** The `/`-separated segments of a path or pattern. */
  function Segments(path: string): (segs: seq<string>)
    ensures |segs| >= 1
  {
    Split(path, "/")
  }

  /** `starts_with('{') && ends_with('}')`: a placeholder segment such as `{id}`. */
  predicate IsPlaceholder(seg: string) {
    seg != [] && seg[0] == '{' && seg[|seg| - 1] == '}'
  }

  /** `strip_prefix('{').and_then(|s| s.strip_suffix('}'))`: the placeholder's name. */
  function PlaceholderName(seg: string): Option<string> {
    if seg != [] && seg[0] == '{' then
      var inner := seg[1..];
      if inner != [] && inner[|inner| - 1] == '}' then Some(inner[..|inner| - 1]) else None
    else None
  }

  /** The matcher's test and the injector's test pick out the same segments. */
  lemma PlaceholderTestsAgree(seg: string)
    ensures IsPlaceholder(seg) <==> PlaceholderName(seg).Some?
    ensures IsPlaceholder(seg) ==> |seg| >= 2 && PlaceholderName(seg).value == seg[1..|seg| - 1]
  {
  }

  predicate SegmentMatches(patternSeg: string, pathSeg: string) {
    IsPlaceholder(patternSeg) || patternSeg == pathSeg
  }

  /** The pattern and the path have as many segments, and each segment matches. */
  predicate Matches(pattern: string, path: string) {
    var ps := Segments(pattern);
    var qs := Segments(path);
    |ps| == |qs| && forall i :: 0 <= i < |ps| ==> SegmentMatches(ps[i], qs[i])
  }

  /** `Route::matches_route_pattern`. */
  method MatchesRoutePattern(route: Route, path: string) returns (matched: bool)
    ensures matched == Matches(route.path, path)
  {
    var patternParts := Segments(route.path);
    var pathParts := Segments(path);
    if |patternParts| != |pathParts| {
      return false;
    }
    for i := 0 to |patternParts|
      invariant forall j :: 0 <= j < i ==> SegmentMatches(patternParts[j], pathParts[j])
    {
      if IsPlaceholder(patternParts[i]) {
        continue;
      }
      if patternParts[i] != pathParts[i] {
        return false;
      }
    }
    return true;
  }

  /** Every pattern matches itself. */
  lemma MatchesItself(pattern: string)
    ensures Matches(pattern, pattern)
  {
  }

  /** A placeholder matches any segment, the empty one included. */
  lemma PlaceholderMatchesAnything(name: string, segment: string)
    ensures SegmentMatches("{" + name + "}", segment)
  {
  }

  // ---------------------------------------------------------------------
  // Route parameters
  // ---------------------------------------------------------------------

  /** Rust's `zip`: pairs up to the shorter of the two lists. */
  function Zip(a: seq<string>, b: seq<string>): (z: seq<(string, string)>)
    ensures |z| == if |a| < |b| then |a| else |b|
    ensures forall i :: 0 <= i < |z| ==> z[i] == (a[i], b[i])
  {
    if a == [] || b == [] then [] else [(a[0], b[0])] + Zip(a[1..], b[1..])
  }

  /** An aligned (pattern segment, path segment) pair binds the placeholder's name. */
  function ParamEntry(pair: (string, string)): Option<(string, string)> {
    match PlaceholderName(pair.0)
    case None => None
    case Some(name) => Some((name, pair.1))
  }

  /** The route parameters after injecting `pattern` against `path` into `params`. */
  function BindParams(params: map<string, string>, pattern: string, path: string): map<string, string> {
    Collect(params, Zip(Segments(pattern), Segments(path)), ParamEntry)
  }

  /** `Router::inject_route_params_from_path`: one insertion per placeholder segment. */
  method InjectRouteParams(request: Request, pattern: string, actualPath: string) returns (updated: Request)
    ensures updated == request.(routeParams := BindParams(request.routeParams, pattern, actualPath))
  {
    var pathParts := Segments(actualPath);
    var patternParts := Segments(pattern);
    var params := InsertAll(request.routeParams, Zip(patternParts, pathParts), ParamEntry);
    updated := request.(routeParams := params);
  }

  /**
   * A key is a route parameter after injection exactly when it was one
   * before or it is the name of a placeholder segment of the pattern that
   * has an aligned path segment; literal segments never become keys.
   */
  lemma BoundKeys(params: map<string, string>, pattern: string, path: string, key: string)
    ensures key in BindParams(params, pattern, path) <==>
      key in params ||
      exists i :: 0 <= i < |Segments(pattern)| && i < |Segments(path)| &&
                  PlaceholderName(Segments(pattern)[i]) == Some(key)
  {
    var pairs := Zip(Segments(pattern), Segments(path));
    CollectDomain(params, pairs, ParamEntry, key);
    if exists j :: 0 <= j < |pairs| && Binds(ParamEntry, pairs[j], key) {
      var j :| 0 <= j < |pairs| && Binds(ParamEntry, pairs[j], key);
      assert PlaceholderName(Segments(pattern)[j]) == Some(key);
    }
    if exists i :: 0 <= i < |Segments(pattern)| && i < |Segments(path)| &&
                   PlaceholderName(Segments(pattern)[i]) == Some(key) {
      var i :| 0 <= i < |Segments(pattern)| && i < |Segments(path)| &&
               PlaceholderName(Segments(pattern)[i]) == Some(key);
      assert Binds(ParamEntry, pairs[i], key);
    }
  }

  /**
   * A placeholder binds its name to the aligned path segment; when the name
   * repeats, the last placeholder with it wins.
   */
  lemma BoundValue(params: map<string, string>, pattern: string, path: string, i: nat, name: string)
    requires i < |Segments(pattern)| && i < |Segments(path)|
    requires PlaceholderName(Segments(pattern)[i]) == Some(name)
    requires forall j :: i < j < |Segments(pattern)| && j < |Segments(path)| ==>
               PlaceholderName(Segments(pattern)[j]) != Some(name)
    ensures name in BindParams(params, pattern, path)
    ensures BindParams(params, pattern, path)[name] == Segments(path)[i]
  {
    var pairs := Zip(Segments(pattern), Segments(path));
    forall j | i < j < |pairs| ensures !Binds(ParamEntry, pairs[j], name) {
      assert pairs[j] == (Segments(pattern)[j], Segments(path)[j]);
    }
    CollectLastWins(params, pairs, ParamEntry, i);
  }

  /** A parameter that no placeholder rebinds keeps its previous value. */
  lemma UnboundKept(params: map<string, string>, pattern: string, path: string, key: string)
    requires forall i :: 0 <= i < |Segments(pattern)| ==> PlaceholderName(Segments(pattern)[i]) != Some(key)
    ensures key in BindParams(params, pattern, path) <==> key in params
    ensures key in params ==> BindParams(params, pattern, path)[key] == params[key]
  {
    var pairs := Zip(Segments(pattern), Segments(path));
    forall j | 0 <= j < |pairs| ensures !Binds(ParamEntry, pairs[j], key) {
      assert pairs[j].0 == Segments(pattern)[j];
    }
    CollectUnbound(params, pairs, ParamEntry, key);
  }

  // ---------------------------------------------------------------------
  // Instantiating a pattern: the inverse view of matching and injection
  // ---------------------------------------------------------------------

  /** A segment with its placeholder replaced by the value given for the name. */
  function FillSegment(seg: string, values: map<string, string>): string {
    match PlaceholderName(seg)
    case Some(name) => if name in values then values[name] else seg
    case None => seg
  }

  function FillSegments(segs: seq<string>, values: map<string, string>): (filled: seq<string>)
    ensures |filled| == |segs|
    ensures forall i :: 0 <= i < |segs| ==> filled[i] == FillSegment(segs[i], values)
  {
    seq(|segs|, i requires 0 <= i < |segs| => FillSegment(segs[i], values))
  }

  /** A concrete path for `pattern`: every placeholder replaced by its value. */
  function Instantiate(pattern: string, values: map<string, string>): string {
    Join(FillSegments(Segments(pattern), values), "/")
  }

  /** Values that can stand for a single path segment. */
  predicate SlashFree(values: map<string, string>) {
    forall name :: name in values ==> '/' !in values[name]
  }

  /** The segments of an instantiated pattern are the filled-in segments of the pattern. */
  lemma InstantiateSegments(pattern: string, values: map<string, string>)
    requires SlashFree(values)
    ensures Segments(Instantiate(pattern, values)) == FillSegments(Segments(pattern), values)
  {
    var segs := Segments(pattern);
    var filled := FillSegments(segs, values);
    SplitPiecesAvoid(pattern, '/');
    assert "/" == ['/'];
    forall k | 0 <= k < |filled| ensures '/' !in filled[k] {
      assert filled[k] == FillSegment(segs[k], values);
    }
    SplitJoin(filled, "/");
  }

  /** A pattern matches every instantiation of itself. */
  lemma InstantiateMatches(pattern: string, values: map<string, string>)
    requires SlashFree(values)
    ensures Matches(pattern, Instantiate(pattern, values))
  {
    InstantiateSegments(pattern, values);
    var segs := Segments(pattern);
    var filled := Segments(Instantiate(pattern, values));
    forall i | 0 <= i < |segs| ensures SegmentMatches(segs[i], filled[i]) {
      PlaceholderTestsAgree(segs[i]);
    }
  }

  /**
   * Injecting a pattern against one of its instantiations recovers the
   * values: every placeholder name of the pattern is bound to its value, and
   * no other key is added.
   */
  lemma InstantiateBinds(params: map<string, string>, pattern: string, values: map<string, string>, name: string)
    requires SlashFree(values)
    requires forall i :: 0 <= i < |Segments(pattern)| && PlaceholderName(Segments(pattern)[i]).Some? ==>
               PlaceholderName(Segments(pattern)[i]).value in values
    ensures name in BindParams(params, pattern, Instantiate(pattern, values)) <==>
      name in params || exists i :: 0 <= i < |Segments(pattern)| && PlaceholderName(Segments(pattern)[i]) == Some(name)
    ensures (exists i :: 0 <= i < |Segments(pattern)| && PlaceholderName(Segments(pattern)[i]) == Some(name)) ==>
      name in values && BindParams(params, pattern, Instantiate(pattern, values))[name] == values[name]
  {
    var path := Instantiate(pattern, values);
    var segs := Segments(pattern);
    InstantiateSegments(pattern, values);
    BoundKeys(params, pattern, path, name);
    if exists i :: 0 <= i < |segs| && PlaceholderName(segs[i]) == Some(name) {
      var i :| 0 <= i < |segs| && PlaceholderName(segs[i]) == Some(name);
      FilledBinds(params, segs, values, i, name);
    }
  }

  /** Pairing segments with their filled versions binds a placeholder name to its value. */
  lemma FilledBinds(params: map<string, string>, segs: seq<string>, values: map<string, string>, i: nat, name: string)
    requires i < |segs| && PlaceholderName(segs[i]) == Some(name) && name in values
    ensures var bound := Collect(params, Zip(segs, FillSegments(segs, values)), ParamEntry);
            name in bound && bound[name] == values[name]
  {
    var pairs := Zip(segs, FillSegments(segs, values));
    assert pairs[i] == (segs[i], FillSegment(segs[i], values));
    assert Binds(ParamEntry, pairs[i], name);
    forall j | 0 <= j < |pairs| && Binds(ParamEntry, pairs[j], name)
      ensures ParamEntry(pairs[j]).value.1 == values[name]
    {
      assert pairs[j] == (segs[j], FillSegment(segs[j], values));
    }
    CollectUniform(params, pairs, ParamEntry, name, values[name]);
  }

  // ---------------------------------------------------------------------
  // Router
  // ---------------------------------------------------------------------

  /** `Router::new`. */
  function NewRouter(prefix: string): (r: Router)
    ensures r.prefix == prefix && r.routes == [] && r.middleware == []
  {
    Router(prefix, [], [])
  }

  /** `Router::add_middleware`: appends at the end and changes nothing else. */
  function RouterAddMiddleware(router: Router, m: Middleware): (r: Router)
    ensures r.middleware == router.middleware + [m]
    ensures r.prefix == router.prefix && r.routes == router.routes
  {
    router.(middleware := router.middleware + [m])
  }

  /**
   * The body shared by `get`, `post`, `put`, `patch` and `delete`: a new
   * route that receives the given middleware one by one, appended at the end.
   */
  method AddRoute(router: Router, verb: string, path: string, handler: Handler, middleware: seq<Middleware>)
    returns (r: Router)
    ensures r.prefix == router.prefix && r.middleware == router.middleware
    ensures |r.routes| == |router.routes| + 1 && r.routes[..|router.routes|] == router.routes
    ensures r.routes[|router.routes|] == Route(verb, path, handler, middleware)
  {
    var route := NewRoute(verb, path, handler);
    for i := 0 to |middleware|
      invariant route == Route(verb, path, handler, middleware[..i])
    {
      assert middleware[..i + 1] == middleware[..i] + [middleware[i]];
      route := RouteAddMiddleware(route, middleware[i]);
    }
    assert middleware[..|middleware|] == middleware;
    r := router.(routes := router.routes + [route]);
    assert r.routes[..|router.routes|] == router.routes;
  }

  /** `Router::get`. */
  method Get(router: Router, path: string, handler: Handler, middleware: seq<Middleware>) returns (r: Router)
    ensures r == router.(routes := router.routes + [Route("GET", path, handler, middleware)])
  {
    r := AddRoute(router, "GET", path, handler, middleware);
  }

  /** `Router::post`. */
  method Post(router: Router, path: string, handler: Handler, middleware: seq<Middleware>) returns (r: Router)
    ensures r == router.(routes := router.routes + [Route("POST", path, handler, middleware)])
  {
    r := AddRoute(router, "POST", path, handler, middleware);
  }

  /** `Router::put`. */
  method Put(router: Router, path: string, handler: Handler, middleware: seq<Middleware>) returns (r: Router)
    ensures r == router.(routes := router.routes + [Route("PUT", path, handler, middleware)])
  {
    r := AddRoute(router, "PUT", path, handler, middleware);
  }

  /** `Router::patch`. */
  method Patch(router: Router, path: string, handler: Handler, middleware: seq<Middleware>) returns (r: Router)
    ensures r == router.(routes := router.routes + [Route("PATCH", path, handler, middleware)])
  {
    r := AddRoute(router, "PATCH", path, handler, middleware);
  }

  /** `Router::delete`. */
  method Delete(router: Router, path: string, handler: Handler, middleware: seq<Middleware>) returns (r: Router)
    ensures r == router.(routes := router.routes + [Route("DELETE", path, handler, middleware)])
  {
    r := AddRoute(router, "DELETE", path, handler, middleware);
  }

  /**
   * The path the routes are matched against: the full path under the root
   * prefix, otherwise the full path with the prefix stripped as a plain
   * string prefix, or `None` when it does not start with the prefix.
   */
  function RelativePath(prefix: string, fullPath: string): (r: Option<string>)
    ensures prefix == ROOT_PREFIX ==> r == Some(fullPath)
    ensures prefix != ROOT_PREFIX ==> (r.Some? <==> prefix <= fullPath)
    ensures prefix != ROOT_PREFIX && r.Some? ==> fullPath == prefix + r.value
  {
    if prefix == ROOT_PREFIX then Some(fullPath) else StripPrefix(fullPath, prefix)
  }

  /** A route is selected by an exact method and a matching pattern. */
  predicate Selects(route: Route, verb: string, path: string) {
    route.httpMethod == verb && Matches(route.path, path)
  }

  /** The first route, in registration order, that the method and path select. */
  function FirstRoute(routes: seq<Route>, verb: string, path: string): (r: Option<nat>)
    ensures r.Some? ==> r.value < |routes| && Selects(routes[r.value], verb, path)
    ensures r.Some? ==> forall j :: 0 <= j < r.value ==> !Selects(routes[j], verb, path)
    ensures r.None? ==> forall j :: 0 <= j < |routes| ==> !Selects(routes[j], verb, path)
    decreases |routes|
  {
    if routes == [] then None
    else if Selects(routes[0], verb, path) then Some(0)
    else
      match FirstRoute(routes[1..], verb, path)
      case None => None
      case Some(i) => Some(i + 1)
  }

  /** The response of `Router::handle_request`. */
  function RouterResponse(router: Router, request: Request): Response {
    match RelativePath(router.prefix, request.route)
    case None => NotFound(PREFIX_NOT_MATCHED)
    case Some(relative) => Dispatch(router, request, relative)
  }

  /**
   * The answer once route `i` is selected for `relative`: the router's
   * middleware over the request with the route's parameters injected, then
   * the route itself.
   */
  function SelectedResponse(router: Router, request: Request, relative: string, i: nat): Response
    requires i < |router.routes|
  {
    var route := router.routes[i];
    var injected := request.(routeParams := BindParams(request.routeParams, route.path, relative));
    match Chain(router.middleware, Ok(injected))
    case Err(response) => response
    case Ok(req) => RouteResponse(route, req)
  }

  /** The response once the relative path is known: the first selected route, or 404. */
  function Dispatch(router: Router, request: Request, relative: string): Response {
    match FirstRoute(router.routes, request.httpMethod, relative)
    case None => NotFound(NO_MATCHING_ROUTE)
    case Some(i) => SelectedResponse(router, request, relative, i)
  }

  /**
   * `Router::handle_request`: strip the prefix once, then dispatch on the
   * relative path.
   */
  method RouterHandleRequest(router: Router, request: Request) returns (response: Response)
    ensures response == RouterResponse(router, request)
  {
    var fullPath := request.route;
    var relativePath: string;
    if router.prefix == ROOT_PREFIX {
      relativePath := fullPath;
    } else {
      var stripped := StripPrefix(fullPath, router.prefix);
      if stripped.None? {
        return NotFound(PREFIX_NOT_MATCHED);
      }
      relativePath := stripped.value;
    }
    assert RelativePath(router.prefix, request.route) == Some(relativePath);
    response := DispatchRoutes(router, request, relativePath);
  }

  /**
   * The route loop of `Router::handle_request`: the first route whose method
   * and pattern match has its parameters injected from the same relative
   * path, then the router's middleware and the route run.
   */
  method DispatchRoutes(router: Router, request: Request, relativePath: string) returns (response: Response)
    ensures response == Dispatch(router, request, relativePath)
  {
    for i := 0 to |router.routes|
      invariant forall j :: 0 <= j < i ==> !Selects(router.routes[j], request.httpMethod, relativePath)
    {
      var route := router.routes[i];
      var matched := false;
      if request.httpMethod == route.httpMethod {
        matched := MatchesRoutePattern(route, relativePath);
      }
      if matched {
        var injected := InjectRouteParams(request, route.path, relativePath);
        var processed := RunMiddleware(router.middleware, injected);
        if processed.Ok? {
          response := RouteHandleRequest(route, processed.value);
        } else {
          response := processed.error;
        }
        assert FirstRoute(router.routes, request.httpMethod, relativePath) == Some(i);
        return;
      }
      assert !Selects(route, request.httpMethod, relativePath);
    }
    response := NotFound(NO_MATCHING_ROUTE);
  }

  /** Outside a non-root prefix the router answers 404 "Route prefix not matched". */
  lemma PrefixMismatch(router: Router, request: Request)
    requires router.prefix != ROOT_PREFIX && !(router.prefix <= request.route)
    ensures RouterResponse(router, request) == NotFound(PREFIX_NOT_MATCHED)
  {
  }

  /**
   * When no route is selected the router answers 404 "No matching route
   * found", whatever its middleware would have done.
   */
  lemma NoRouteSelected(router: Router, request: Request, relative: string, other: seq<Middleware>)
    requires RelativePath(router.prefix, request.route) == Some(relative)
    requires forall j :: 0 <= j < |router.routes| ==> !Selects(router.routes[j], request.httpMethod, relative)
    ensures RouterResponse(router, request) == NotFound(NO_MATCHING_ROUTE)
    ensures RouterResponse(router.(middleware := other), request) == NotFound(NO_MATCHING_ROUTE)
  {
  }

  /**
   * When route `i` is the first selected one, the router's answer is its
   * middleware chain over the request with the parameters injected from the
   * relative path, then route `i`; no other route is consulted.
   */
  lemma SelectedRoute(router: Router, request: Request, relative: string, i: nat)
    requires RelativePath(router.prefix, request.route) == Some(relative)
    requires i < |router.routes| && Selects(router.routes[i], request.httpMethod, relative)
    requires forall j :: 0 <= j < i ==> !Selects(router.routes[j], request.httpMethod, relative)
    ensures RouterResponse(router, request) == SelectedResponse(router, request, relative, i)
  {
    assert FirstRoute(router.routes, request.httpMethod, relative) == Some(i);
  }
}
