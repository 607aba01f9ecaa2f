/**
 * End-to-end behaviour of the configured server (`src/main.rs` lines
 * 294-345) on concrete requests, for any handlers.
 */
module Scenarios {
  import opened Results
  import opened Text
  import opened Bindings
  import opened Requests
  import opened Responses
  import opened Routing
  import opened Server
  import opened App
  import opened Scalars

  // ---------------------------------------------------------------------
  // The segments of the paths involved
  // ---------------------------------------------------------------------

  /** A path written as its segments joined by `/` splits back into them. */
  lemma SegmentsOfJoin(parts: seq<string>)
    requires |parts| >= 1 && forall k :: 0 <= k < |parts| ==> '/' !in parts[k]
    ensures Segments(Join(parts, "/")) == parts
  {
    SplitJoin(parts, "/");
  }

  lemma JoinFront(a: string, rest: seq<string>, sep: string)
    requires |rest| >= 1
    ensures Join([a] + rest, sep) == a + sep + Join(rest, sep)
  {
    assert ([a] + rest)[1..] == rest;
  }

  /** A path of one slash-free segment `/w` splits into an empty segment and `w`. */
  lemma SlashFreeSegments(w: string)
    requires '/' !in w
    ensures Segments("/" + w) == ["", w]
  {
    JoinFront("", [w], "/");
    assert [""] + [w] == ["", w];
    assert "/" + w == "" + "/" + w;
    SegmentsOfJoin(["", w]);
  }

  /** A path of two slash-free segments `/a/b` splits into an empty segment, `a` and `b`. */
  lemma TwoLevelSegments(a: string, b: string)
    requires '/' !in a && '/' !in b
    ensures Segments("/" + a + "/" + b) == ["", a, b]
  {
    JoinFront(a, [b], "/");
    assert [a] + [b] == [a, b];
    JoinFront("", [a, b], "/");
    assert [""] + [a, b] == ["", a, b];
    assert "/" + a + "/" + b == "" + "/" + (a + "/" + b);
    SegmentsOfJoin(["", a, b]);
  }

  /** `/api/users`, the list route's full path, as one instance of the above. */
  lemma ApiUsersListSegments()
    ensures Segments("/api/users") == ["", "api", "users"]
  {
    TwoLevelSegments("api", "users");
    assert "/api/users" == "/" + "api" + "/" + "users";
  }

  /** The patterns of the public router, `/` and `/about`, as instances of the above. */
  lemma PublicPatternSegments()
    ensures Segments("/") == ["", ""] && Segments("/about") == ["", "about"]
  {
    SlashFreeSegments("");
    SlashFreeSegments("about");
    assert "/" == "/" + "" && "/about" == "/" + "about";
  }

  lemma HealthNotUsers()
    ensures !Matches("/health", "/users")
  {
    SlashFreeSegments("users");
    SlashFreeSegments("health");
    assert "/users" == "/" + "users" && "/health" == "/" + "health";
    var ps := Segments("/health");
    var qs := Segments("/users");
    assert ps[1] == "health" && qs[1] == "users";
    assert !SegmentMatches(ps[1], qs[1]);
  }

  lemma UserIdMatches(id: string)
    requires '/' !in id
    ensures Matches("/users/{id}", "/users/" + id)
  {
    TwoLevelSegments("users", "{id}");
    TwoLevelSegments("users", id);
    assert "/users/{id}" == "/" + "users" + "/" + "{id}";
    assert "/users/" + id == "/" + "users" + "/" + id;
    var ps := Segments("/users/{id}");
    assert IsPlaceholder(ps[2]);
  }

  /** Aligned segments where only the last pattern segment is a placeholder bind that one name. */
  lemma ZipBindsLastOnly(params: map<string, string>, ps: seq<string>, qs: seq<string>)
    requires |ps| == |qs| >= 1
    requires forall j :: 0 <= j < |ps| - 1 ==> PlaceholderName(ps[j]).None?
    requires PlaceholderName(ps[|ps| - 1]).Some?
    ensures Collect(params, Zip(ps, qs), ParamEntry) == params[PlaceholderName(ps[|ps| - 1]).value := qs[|ps| - 1]]
  {
    var pairs := Zip(ps, qs);
    var n := |pairs| - 1;
    var init := pairs[..n];
    forall j | 0 <= j < n ensures ParamEntry(init[j]).None? {
      assert init[j] == pairs[j] == (ps[j], qs[j]);
    }
    CollectSkipped(params, init, ParamEntry);
    assert pairs == init + [pairs[n]];
    CollectSnoc(params, init, pairs[n], ParamEntry);
    assert pairs[n] == (ps[n], qs[n]);
  }

  /** A pattern whose only placeholder is its last segment binds that one name. */
  lemma BindLastOnly(params: map<string, string>, pattern: string, path: string)
    requires |Segments(pattern)| == |Segments(path)|
    requires forall j :: 0 <= j < |Segments(pattern)| - 1 ==> PlaceholderName(Segments(pattern)[j]).None?
    requires PlaceholderName(Segments(pattern)[|Segments(pattern)| - 1]).Some?
    ensures var n := |Segments(pattern)| - 1;
            BindParams(params, pattern, path) ==
              params[PlaceholderName(Segments(pattern)[n]).value := Segments(path)[n]]
  {
    ZipBindsLastOnly(params, Segments(pattern), Segments(path));
  }

  /** A pattern without placeholders binds nothing. */
  lemma BindNone(params: map<string, string>, pattern: string, path: string)
    requires forall j :: 0 <= j < |Segments(pattern)| ==> PlaceholderName(Segments(pattern)[j]).None?
    ensures BindParams(params, pattern, path) == params
  {
    var pairs := Zip(Segments(pattern), Segments(path));
    CollectSkipped(params, pairs, ParamEntry);
  }

  /** Of the segments of `/users/{id}`, only the last is a placeholder, named `id`. */
  lemma UserIdPlaceholders()
    ensures PlaceholderName("").None? && PlaceholderName("users").None?
    ensures PlaceholderName("{id}") == Some("id")
  {
    assert "users"[0] != '{';
    assert "{id}"[1..] == "id}" && "id}"[..2] == "id";
  }

  /** Injecting `/users/{id}` against `/users/<id>` binds `id` and nothing else. */
  lemma UserIdBinds(params: map<string, string>, id: string)
    requires '/' !in id
    ensures BindParams(params, "/users/{id}", "/users/" + id) == params["id" := id]
  {
    var pattern := "/users/{id}";
    var path := "/users/" + id;
    TwoLevelSegments("users", "{id}");
    TwoLevelSegments("users", id);
    assert "/users/{id}" == "/" + "users" + "/" + "{id}";
    assert "/users/" + id == "/" + "users" + "/" + id;
    UserIdPlaceholders();
    var ps := Segments(pattern);
    assert ps == ["", "users", "{id}"];
    forall j | 0 <= j < |ps| - 1 ensures PlaceholderName(ps[j]).None? {
      assert ps[j] == "" || ps[j] == "users";
    }
    BindLastOnly(params, pattern, path);
    assert Segments(path)[2] == id;
  }

  /** `/users` injects nothing. */
  lemma UsersBindsNothing(params: map<string, string>)
    ensures BindParams(params, "/users", "/users") == params
  {
    SlashFreeSegments("users");
    assert "/users" == "/" + "users";
    BindNone(params, "/users", "/users");
  }

  // ---------------------------------------------------------------------
  // Routers
  // ---------------------------------------------------------------------

  /** Neither public route matches a path of three or more segments. */
  lemma PublicMisses(h: Handlers, req: Request)
    requires |Segments(req.route)| >= 3
    ensures RouterResponse(PublicRouter(h), req).code == NOT_FOUND
  {
    var r := PublicRouter(h);
    PublicPatternSegments();
    assert !Matches(r.routes[0].path, req.route);
    assert !Matches(r.routes[1].path, req.route);
    NoRouteSelected(r, req, req.route, r.middleware);
  }

  /** The fields of the configured `/api` router the scenarios rely on. */
  lemma ApiTable(h: Handlers)
    ensures ApiRouter(h).prefix == "/api" && ApiRouter(h).middleware == [ApiKeyCheck]
    ensures |ApiRouter(h).routes| == 7
    ensures ApiRouter(h).routes[0] == Route("GET", "/health", h.healthCheck, [])
    ensures ApiRouter(h).routes[1] == Route("GET", "/users", h.listUsers, [])
    ensures ApiRouter(h).routes[2] == Route("POST", "/users", h.createUser, [])
    ensures ApiRouter(h).routes[3] == Route("GET", "/users/{id}", h.getUser, [])
    ensures ApiRouter(h).routes[4] == Route("PUT", "/users/{id}", h.updateUser, [])
    ensures ApiRouter(h).routes[5] == Route("DELETE", "/users/{id}", h.deleteUser, [AdminCheck, RateLimit])
  {
  }

  /** The second route is selected when the first is not and the second is. */
  lemma SecondRouteSelected(r: Router, req: Request, relative: string)
    requires RelativePath(r.prefix, req.route) == Some(relative)
    requires |r.routes| >= 2
    requires !Selects(r.routes[0], req.httpMethod, relative) && Selects(r.routes[1], req.httpMethod, relative)
    ensures RouterResponse(r, req) == SelectedResponse(r, req, relative, 1)
  {
    SelectedRoute(r, req, relative, 1);
  }

  /** Route `i` is selected when every earlier route has another method. */
  lemma FirstWithMethod(r: Router, req: Request, relative: string, i: nat)
    requires RelativePath(r.prefix, req.route) == Some(relative)
    requires i < |r.routes| && Selects(r.routes[i], req.httpMethod, relative)
    requires forall j :: 0 <= j < i ==> r.routes[j].httpMethod != req.httpMethod
    ensures RouterResponse(r, req) == SelectedResponse(r, req, relative, i)
  {
    SelectedRoute(r, req, relative, i);
  }

  /** Route 5 is selected when the five before it have other methods. */
  lemma SixthSelected(r: Router, req: Request, relative: string)
    requires RelativePath(r.prefix, req.route) == Some(relative)
    requires |r.routes| >= 6 && Selects(r.routes[5], req.httpMethod, relative)
    requires r.routes[0].httpMethod != req.httpMethod && r.routes[1].httpMethod != req.httpMethod
    requires r.routes[2].httpMethod != req.httpMethod && r.routes[3].httpMethod != req.httpMethod
    requires r.routes[4].httpMethod != req.httpMethod
    ensures RouterResponse(r, req) == SelectedResponse(r, req, relative, 5)
  {
    FirstWithMethod(r, req, relative, 5);
  }

  /** A router whose middleware is only `api_key_check`, on a selected route. */
  lemma ApiKeyGate(r: Router, req: Request, relative: string, i: nat)
    requires i < |r.routes| && r.middleware == [ApiKeyCheck]
    ensures var injected := req.(routeParams := BindParams(req.routeParams, r.routes[i].path, relative));
            SelectedResponse(r, req, relative, i) ==
              if API_KEY_HEADER in req.headers && req.headers[API_KEY_HEADER] != ""
              then RouteResponse(r.routes[i], injected)
              else Response(UNAUTHORIZED, API_KEY_REQUIRED)
  {
    var injected := req.(routeParams := BindParams(req.routeParams, r.routes[i].path, relative));
    var mws := r.middleware;
    assert mws[0] == ApiKeyCheck && mws[1..] == [];
    assert Chain(mws, Ok(injected)) == ApiKeyCheck(injected);
    assert injected.headers == req.headers;
  }

  /** A route guarded by `admin_check` then `rate_limit`. */
  lemma AdminGate(route: Route, req: Request)
    requires route.middleware == [AdminCheck, RateLimit]
    ensures RouteResponse(route, req) ==
              if ADMIN_KEY_HEADER in req.headers && req.headers[ADMIN_KEY_HEADER] == ADMIN_SECRET
              then route.handler(req)
              else Response(FORBIDDEN, ADMIN_ACCESS_REQUIRED)
  {
    var mws := route.middleware;
    assert mws[0] == AdminCheck && mws[1..] == [RateLimit] && mws[1..][1..] == [];
    match AdminCheck(req)
    case Err(e) =>
      assert Chain(mws, Ok(req)) == Err(e);
    case Ok(r) =>
      assert r == req;
      assert Chain(mws, Ok(req)) == Chain([RateLimit], Ok(req)) == Ok(req);
  }

  // ---------------------------------------------------------------------
  // Scenarios on parsed requests
  // ---------------------------------------------------------------------

  /** The `/api` router answers `GET /api/users` without an `X-API-Key` header with 401. */
  lemma ApiKeyMissingAtApi(h: Handlers, req: Request)
    requires req.httpMethod == "GET" && req.route == "/api/users"
    requires API_KEY_HEADER !in req.headers
    ensures RouterResponse(ApiRouter(h), req) == Response(UNAUTHORIZED, API_KEY_REQUIRED)
  {
    var api := ApiRouter(h);
    ApiTable(h);
    assert req.route == "/api" + "/users";
    HealthNotUsers();
    MatchesItself("/users");
    SecondRouteSelected(api, req, "/users");
    ApiKeyGate(api, req, "/users", 1);
  }

  /** `GET /api/users` without an `X-API-Key` header is answered 401 by the server. */
  lemma ApiKeyMissing(h: Handlers, req: Request)
    requires req.httpMethod == "GET" && req.route == "/api/users"
    requires API_KEY_HEADER !in req.headers
    ensures FanOut(AppServer(h).routers, req) == Response(UNAUTHORIZED, API_KEY_REQUIRED)
  {
    ApiUsersListSegments();
    PublicMisses(h, req);
    ApiKeyMissingAtApi(h, req);
    SecondRouterOrNone(AppServer(h).routers, req);
  }

  /** The public router only has `GET` routes. */
  lemma PublicIgnoresOtherMethods(h: Handlers, req: Request)
    requires req.httpMethod != "GET"
    ensures RouterResponse(PublicRouter(h), req).code == NOT_FOUND
  {
    var r := PublicRouter(h);
    NoRouteSelected(r, req, req.route, r.middleware);
  }

  /** Two routers: the answer is the second one's unless that is a 404 too. */
  lemma SecondRouterOrNone(routers: seq<Router>, req: Request)
    requires |routers| == 2
    requires RouterResponse(routers[0], req).code == NOT_FOUND
    ensures FanOut(routers, req) ==
              if RouterResponse(routers[1], req).code != NOT_FOUND then RouterResponse(routers[1], req)
              else NotFound(NO_ROUTER_MATCHED)
  {
    var tail := routers[1..];
    assert tail == [routers[1]] && tail[1..] == [];
    assert FanOut(routers, req) == FanOut(tail, req);
  }

  /** `DELETE /api/users/<id>` selects the sixth route of the `/api` router. */
  lemma DeleteSelected(h: Handlers, req: Request, id: string)
    requires req.httpMethod == "DELETE" && req.route == "/api/users/" + id && '/' !in id
    ensures RouterResponse(ApiRouter(h), req) == SelectedResponse(ApiRouter(h), req, "/users/" + id, 5)
  {
    var api := ApiRouter(h);
    var relative := "/users/" + id;
    ApiTable(h);
    assert req.route == "/api" + relative;
    assert RelativePath(api.prefix, req.route) == Some(relative);
    UserIdMatches(id);
    assert Selects(api.routes[5], req.httpMethod, relative);
    SixthSelected(api, req, relative);
  }

  /** The admin decision of the `/api` router on `DELETE /api/users/<id>`. */
  function DeleteAnswer(h: Handlers, req: Request, id: string): Response {
    if ADMIN_KEY_HEADER in req.headers && req.headers[ADMIN_KEY_HEADER] == ADMIN_SECRET
    then h.deleteUser(req.(routeParams := req.routeParams["id" := id]))
    else Response(FORBIDDEN, ADMIN_ACCESS_REQUIRED)
  }

  /** Once selected, the delete route passes `api_key_check`, binds `id` and meets `admin_check`. */
  lemma DeleteRouted(h: Handlers, req: Request, id: string)
    requires req.httpMethod == "DELETE" && req.route == "/api/users/" + id && '/' !in id
    requires API_KEY_HEADER in req.headers && req.headers[API_KEY_HEADER] != ""
    ensures RouterResponse(ApiRouter(h), req) == DeleteAnswer(h, req, id)
  {
    var api := ApiRouter(h);
    var relative := "/users/" + id;
    ApiTable(h);
    DeleteSelected(h, req, id);
    ApiKeyGate(api, req, relative, 5);
    UserIdBinds(req.routeParams, id);
    AdminGate(api.routes[5], req.(routeParams := req.routeParams["id" := id]));
  }

  /**
   * `DELETE /api/users/<id>` with an API key reaches the delete route:
   * `admin_check` answers 403 unless `X-Admin-Key` is `supersecret`, in
   * which case the handler runs on the request with `id` bound.  A 404 from
   * the handler turns into the server's own 404.
   */
  lemma DeleteUser(h: Handlers, req: Request, id: string)
    requires req.httpMethod == "DELETE" && req.route == "/api/users/" + id && '/' !in id
    requires API_KEY_HEADER in req.headers && req.headers[API_KEY_HEADER] != ""
    ensures var expected := DeleteAnswer(h, req, id);
            FanOut(AppServer(h).routers, req) ==
              if expected.code != NOT_FOUND then expected else NotFound(NO_ROUTER_MATCHED)
  {
    PublicIgnoresOtherMethods(h, req);
    DeleteRouted(h, req, id);
    SecondRouterOrNone(AppServer(h).routers, req);
  }

  /**
   * With a wrong or missing admin key, `DELETE /api/users/<id>` ends in 403
   * whatever the handlers do: neither `rate_limit` nor the handler decides
   * the answer.
   */
  lemma AdminDenied(h: Handlers, req: Request, id: string)
    requires req.httpMethod == "DELETE" && req.route == "/api/users/" + id && '/' !in id
    requires API_KEY_HEADER in req.headers && req.headers[API_KEY_HEADER] != ""
    requires ADMIN_KEY_HEADER !in req.headers || req.headers[ADMIN_KEY_HEADER] != ADMIN_SECRET
    ensures FanOut(AppServer(h).routers, req) == Response(FORBIDDEN, ADMIN_ACCESS_REQUIRED)
  {
    DeleteUser(h, req, id);
  }

  // ---------------------------------------------------------------------
  // Scenarios on raw requests
  // ---------------------------------------------------------------------

  /** Two `&`-free pieces joined by `&` are the query's two pieces. */
  lemma TwoPieces(p1: string, p2: string)
    requires '&' !in p1 && '&' !in p2
    ensures QueryPieces(p1 + "&" + p2) == [p1, p2]
  {
    assert Join([p1, p2], "&") == p1 + "&" + p2 by {
      assert [p1, p2][1..] == [p2];
    }
    SplitJoin([p1, p2], "&");
  }

  /** Two pieces with an `=` each give a map of their two pairs, the second one last. */
  lemma TwoEntries(p1: string, p2: string)
    requires QueryEntry(p1).Some? && QueryEntry(p2).Some?
    ensures Collect(map[], [p1, p2], QueryEntry) ==
            map[QueryEntry(p1).value.0 := QueryEntry(p1).value.1][QueryEntry(p2).value.0 := QueryEntry(p2).value.1]
  {
    CollectSnoc(map[], [], p1, QueryEntry);
    CollectSnoc(map[], [p1], p2, QueryEntry);
    assert [p1, p2] == [p1] + [p2] && [p1] == [] + [p1];
  }

  /** A target with a two-piece query string. */
  lemma TwoQueryParams(path: string, p1: string, p2: string)
    requires '?' !in path && '&' !in p1 && '&' !in p2
    requires QueryEntry(p1).Some? && QueryEntry(p2).Some?
    ensures TargetParts(path + "?" + (p1 + "&" + p2)) ==
            (path, map[QueryEntry(p1).value.0 := QueryEntry(p1).value.1][QueryEntry(p2).value.0 := QueryEntry(p2).value.1])
  {
    var query := p1 + "&" + p2;
    SplitOnceAt(path, '?', query);
    assert path + "?" + query == path + ['?'] + query;
    TwoPieces(p1, p2);
    TwoEntries(p1, p2);
  }

  /** `key=value` with an `=`-free key is that pair. */
  lemma QueryPair(key: string, value: string)
    requires '=' !in key
    ensures QueryEntry(key + "=" + value) == Some((key, value))
  {
    assert key + "=" + value == key + ['='] + value;
    SplitOnceAt(key, '=', value);
  }

  /** The request line and headers of the query example, as a client writes them. */
  function ListUsersRaw(): string {
    Render("GET", "/api/users?page=2&limit=5", "HTTP/1.1", [(API_KEY_HEADER, "k")], "")
  }

  /** What the parser makes of it. */
  function ListUsersRequest(): Request {
    Request("GET", "/api/users", "HTTP/1.1", map[API_KEY_HEADER := "k"], "", map[], map["page" := "2", "limit" := "5"])
  }

  lemma ListUsersPieces()
    ensures "page=2" == "page" + "=" + "2" && "limit=5" == "limit" + "=" + "5"
    ensures '&' !in "page=2" && '&' !in "limit=5" && '?' !in "/api/users"
  {
  }

  lemma ListUsersTargetShape()
    ensures "/api/users?page=2&limit=5" == "/api/users" + "?" + ("page=2" + "&" + "limit=5")
  {
  }

  lemma ListUsersTarget()
    ensures TargetParts("/api/users?page=2&limit=5") == ("/api/users", map["page" := "2", "limit" := "5"])
  {
    ListUsersPieces();
    QueryPair("page", "2");
    QueryPair("limit", "5");
    ListUsersTargetShape();
    TwoQueryParams("/api/users", "page=2", "limit=5");
  }

  lemma ListUsersWords()
    ensures IsWord("GET") && IsWord("/api/users?page=2&limit=5") && IsWord("HTTP/1.1")
  {
  }

  lemma OneHeader(name: string, value: string)
    ensures HeaderMap([(name, value)]) == map[name := value]
  {
    CollectSnoc(map[], [], (name, value), PairEntry);
    assert [(name, value)] == [] + [(name, value)];
  }

  /** `GET /api/users?page=2&limit=5` parses into the path `/api/users` and the two query parameters. */
  lemma ListUsersParsed()
    ensures Parse(ListUsersRaw()) == Ok(ListUsersRequest())
  {
    var headers := [(API_KEY_HEADER, "k")];
    ListUsersWords();
    assert WellFormedHeader(headers[0]);
    ParseRender("GET", "/api/users?page=2&limit=5", "HTTP/1.1", headers, "");
    ListUsersTarget();
    OneHeader(API_KEY_HEADER, "k");
  }

  /** `query_int` reads the two parameters as numbers; an absent one falls back to its default. */
  lemma ListUsersQueryValues()
    ensures QueryInt(ListUsersRequest(), "page", 1) == 2
    ensures QueryInt(ListUsersRequest(), "limit", 10) == 5
    ensures Query(ListUsersRequest(), "sort", "name") == "name"
  {
    ParseDigits("2");
    ParseDigits("5");
  }

  /** `GET /api/users` with an API key reaches `list_users` with the request unchanged. */
  lemma ListUsersRouted(h: Handlers, req: Request)
    requires req.httpMethod == "GET" && req.route == "/api/users"
    requires API_KEY_HEADER in req.headers && req.headers[API_KEY_HEADER] != ""
    ensures RouterResponse(ApiRouter(h), req) == h.listUsers(req)
  {
    var api := ApiRouter(h);
    ApiTable(h);
    assert req.route == "/api" + "/users";
    HealthNotUsers();
    MatchesItself("/users");
    SecondRouteSelected(api, req, "/users");
    ApiKeyGate(api, req, "/users", 1);
    UsersBindsNothing(req.routeParams);
    assert req.(routeParams := req.routeParams) == req;
  }

  /**
   * The server answers the query example with whatever `list_users` answers
   * for the parsed request (its own 404 aside, which becomes the server's).
   */
  lemma ListUsersAnswered(h: Handlers)
    ensures var req := ListUsersRequest();
            Respond(AppServer(h), ListUsersRaw()) ==
              if h.listUsers(req).code != NOT_FOUND then h.listUsers(req) else NotFound(NO_ROUTER_MATCHED)
  {
    var req := ListUsersRequest();
    ListUsersParsed();
    ServerMiddlewarePasses(h, req);
    ApiUsersListSegments();
    PublicMisses(h, req);
    ListUsersRouted(h, req);
    SecondRouterOrNone(AppServer(h).routers, req);
  }

  /** A single word followed by the blank line is not a request line. */
  lemma OneWordRejected(w: string)
    requires IsWord(w)
    ensures Parse(w + HEAD_SEPARATOR) == Err(INVALID_REQUEST_LINE)
  {
    NoWhitespaceNoCR(w);
    assert w + HEAD_SEPARATOR == Join([w, ""], HEAD_SEPARATOR) by {
      assert [w, ""][1..] == [""];
    }
    SplitJoin([w, ""], HEAD_SEPARATOR);
    assert Head(w + HEAD_SEPARATOR) == w;
    SplitJoin([w], LINE_SEPARATOR);
    assert Words(w) == [w];
  }

  /** A read that fails to parse is answered 400, and the next read is answered too. */
  lemma BadReadThenNext(server: HttpServer, raw: string, next: string)
    requires raw != "" && next != "" && Parse(raw).Err?
    ensures Transcript(server, [raw, next]) ==
            [Response(BAD_REQUEST, BAD_REQUEST_PREFIX + INVALID_REQUEST_LINE), Respond(server, next)]
  {
    var inputs := [raw, next];
    assert inputs[1..] == [next] && [next][1..] == [];
    assert Respond(server, raw) == Response(BAD_REQUEST, BAD_REQUEST_PREFIX + INVALID_REQUEST_LINE);
    assert Transcript(server, [next]) == [Respond(server, next)] + Transcript(server, []);
  }

  /**
   * The read `garbage` followed by a blank line is answered 400 and the
   * connection goes on to answer the next read.
   */
  lemma GarbageThenNext(h: Handlers, garbage: string, next: string)
    requires garbage == "garbage\r\n\r\n" && next != ""
    ensures Transcript(AppServer(h), [garbage, next]) ==
            [Response(BAD_REQUEST, BAD_REQUEST_PREFIX + INVALID_REQUEST_LINE), Respond(AppServer(h), next)]
  {
    var word := "garbage";
    assert IsWord(word);
    OneWordRejected(word);
    assert garbage == word + HEAD_SEPARATOR;
    BadReadThenNext(AppServer(h), garbage, next);
  }

  /** The target `?a=b` has the empty path and the query `a=b`. */
  lemma EmptyRouteTarget()
    ensures TargetParts("?a=b") == ("", map["a" := "b"])
  {
    assert "?a=b" == "" + ['?'] + "a=b";
    SplitOnceAt("", '?', "a=b");
    SplitJoin(["a=b"], "&");
    assert QueryPieces("a=b") == ["a=b"];
    QueryPair("a", "b");
    assert "a=b" == "a" + "=" + "b";
    CollectSnoc(map[], [], "a=b", QueryEntry);
    assert ["a=b"] == [] + ["a=b"];
  }

  /** A target that starts with `?` leaves the route empty. */
  lemma EmptyRouteParsed()
    ensures Parse(Render("GET", "?a=b", "HTTP/1.1", [], "")) ==
            Ok(Request("GET", "", "HTTP/1.1", map[], "", map[], map["a" := "b"]))
  {
    assert IsWord("GET") && IsWord("?a=b") && IsWord("HTTP/1.1");
    ParseRender("GET", "?a=b", "HTTP/1.1", [], "");
    EmptyRouteTarget();
    assert HeaderMap([]) == map[];
  }

  /** The public router has no route for the empty path. */
  lemma PublicMissesEmpty(h: Handlers, req: Request)
    requires req.route == ""
    ensures RouterResponse(PublicRouter(h), req) == NotFound(NO_MATCHING_ROUTE)
  {
    var public := PublicRouter(h);
    PublicPatternSegments();
    assert Segments("") == [""];
    assert !Matches(public.routes[0].path, "");
    assert !Matches(public.routes[1].path, "");
    NoRouteSelected(public, req, "", public.middleware);
  }

  /** The empty route reaches neither router of the configured server. */
  lemma EmptyRouteRouted(h: Handlers, req: Request)
    requires req.route == ""
    ensures FanOut(AppServer(h).routers, req) == NotFound(NO_ROUTER_MATCHED)
  {
    PublicMissesEmpty(h, req);
    PrefixMismatch(ApiRouter(h), req);
    SecondRouterOrNone(AppServer(h).routers, req);
  }

  /** No router of the configured server matches the empty route. */
  lemma EmptyRouteAnswered(h: Handlers, raw: string)
    requires raw == Render("GET", "?a=b", "HTTP/1.1", [], "")
    ensures Respond(AppServer(h), raw) == NotFound(NO_ROUTER_MATCHED)
  {
    var req := Request("GET", "", "HTTP/1.1", map[], "", map[], map["a" := "b"]);
    EmptyRouteParsed();
    ServerMiddlewarePasses(h, req);
    EmptyRouteRouted(h, req);
  }
}
