/**
 * `HTTPServer` of `src/server/server.rs`: the builders and what one
 * connection does with each request it reads — parse, run the server-wide
 * middleware, then offer the request to each router in turn.  The socket is
 * replaced by the sequence of strings its reads return.
 */
module Server {
  import opened Results
  import opened Requests
  import opened Responses
  import opened Routing

  datatype HttpServer = HttpServer(addr: string, routers: seq<Router>, middleware: seq<Middleware>)

  const BAD_REQUEST: int := 400
  const BAD_REQUEST_PREFIX: string := "Bad Request: "
  const NO_ROUTER_MATCHED: string := "No router matched this path"

  /** `HTTPServer::new`. */
  function NewServer(addr: string): (s: HttpServer)
    ensures s.addr == addr && s.routers == [] && s.middleware == []
  {
    HttpServer(addr, [], [])
  }

  /** `HTTPServer::add_middleware`: appends at the end and changes nothing else. */
  function ServerAddMiddleware(server: HttpServer, m: Middleware): (s: HttpServer)
    ensures s.middleware == server.middleware + [m]
    ensures s.addr == server.addr && s.routers == server.routers
  {
    server.(middleware := server.middleware + [m])
  }

  /** `HTTPServer::add_router`: appends at the end and changes nothing else. */
  function AddRouter(server: HttpServer, router: Router): (s: HttpServer)
    ensures s.routers == server.routers + [router]
    ensures s.addr == server.addr && s.middleware == server.middleware
  {
    server.(routers := server.routers + [router])
  }

  // ---------------------------------------------------------------------
  // One request
  // ---------------------------------------------------------------------

  /**
   * Offering the request to the routers in registration order: the first
   * answer that is not a 404 is final; when every router answers 404, or
   * there is none, the answer is a 404 of the server's own.  Every router
   * receives the same request, never one another router has changed.
   */
  function FanOut(routers: seq<Router>, request: Request): (r: Response)
    ensures r.code == NOT_FOUND <==>
            forall j :: 0 <= j < |routers| ==> RouterResponse(routers[j], request).code == NOT_FOUND
    ensures r.code == NOT_FOUND ==> r == NotFound(NO_ROUTER_MATCHED)
    decreases |routers|
  {
    if routers == [] then NotFound(NO_ROUTER_MATCHED)
    else
      var res := RouterResponse(routers[0], request);
      if res.code != NOT_FOUND then res
      else
        var r := FanOut(routers[1..], request);
        assert forall j :: 1 <= j < |routers| ==> routers[j] == routers[1..][j - 1];
        r
  }

  /** The answer of the first router that does not answer 404, whatever the later ones say. */
  lemma {:induction false} FanOutPicksFirst(routers: seq<Router>, request: Request, i: nat)
    requires i < |routers| && RouterResponse(routers[i], request).code != NOT_FOUND
    requires forall j :: 0 <= j < i ==> RouterResponse(routers[j], request).code == NOT_FOUND
    ensures FanOut(routers, request) == RouterResponse(routers[i], request)
    decreases i
  {
    if i > 0 {
      forall j | 0 <= j < i - 1 ensures RouterResponse(routers[1..][j], request).code == NOT_FOUND {
        assert routers[1..][j] == routers[j + 1];
      }
      FanOutPicksFirst(routers[1..], request, i - 1);
    }
  }

  /** What the connection writes for one read. */
  function Respond(server: HttpServer, raw: string): Response {
    match Parse(raw)
    case Err(e) => Response(BAD_REQUEST, BAD_REQUEST_PREFIX + e)
    case Ok(request) =>
      match Chain(server.middleware, Ok(request))
      case Err(response) => response
      case Ok(req) => FanOut(server.routers, req)
  }

  /**
   * The server-wide middleware fold: every middleware is visited, and once
   * the state is an error it is carried along unchanged.
   */
  method FoldMiddleware(middleware: seq<Middleware>, request: Request) returns (finalRequest: Outcome)
    ensures finalRequest == Chain(middleware, Ok(request))
  {
    finalRequest := Ok(request);
    for i := 0 to |middleware|
      invariant Chain(middleware[i..], finalRequest) == Chain(middleware, Ok(request))
    {
      assert middleware[i..][1..] == middleware[i + 1..];
      match finalRequest
      case Ok(req) =>
        finalRequest := middleware[i](req);
      case Err(res) =>
        finalRequest := Err(res);
    }
  }

  /** Trying the routers in order until one answers something else than 404. */
  method TryRouters(routers: seq<Router>, request: Request) returns (response: Response)
    ensures response == FanOut(routers, request)
  {
    var found: Option<Response> := None;
    for i := 0 to |routers|
      invariant found.None?
      invariant forall j :: 0 <= j < i ==> RouterResponse(routers[j], request).code == NOT_FOUND
    {
      var res := RouterHandleRequest(routers[i], request);
      if res.code != NOT_FOUND {
        FanOutPicksFirst(routers, request, i);
        found := Some(res);
        break;
      }
    }
    response := if found.Some? then found.value else NotFound(NO_ROUTER_MATCHED);
  }

  /**
   * The body of the `handle_connection` loop for one read: parse, fold the
   * server middleware, then offer the request to the routers.
   */
  method HandleRequest(server: HttpServer, raw: string) returns (response: Response)
    ensures response == Respond(server, raw)
  {
    var parsed := New(raw);
    if parsed.Err? {
      return Response(BAD_REQUEST, BAD_REQUEST_PREFIX + parsed.error);
    }
    var finalRequest := FoldMiddleware(server.middleware, parsed.value);
    if finalRequest.Err? {
      return finalRequest.error;
    }
    response := TryRouters(server.routers, finalRequest.value);
  }

  /** A request that does not parse is answered 400 without consulting middleware or routers. */
  lemma BadRequestAnswered(server: HttpServer, raw: string, other: HttpServer)
    requires Parse(raw).Err?
    ensures Respond(server, raw) == Response(BAD_REQUEST, BAD_REQUEST_PREFIX + INVALID_REQUEST_LINE)
    ensures Respond(other, raw) == Respond(server, raw)
  {
  }

  /** Once the server middleware answers, that answer is written and no router is consulted. */
  lemma MiddlewareAnswerFinal(server: HttpServer, raw: string, response: Response, routers: seq<Router>)
    requires Parse(raw).Ok? && Chain(server.middleware, Ok(Parse(raw).value)) == Err(response)
    ensures Respond(server, raw) == response
    ensures Respond(server.(routers := routers), raw) == response
  {
  }

  // ---------------------------------------------------------------------
  // The connection
  // ---------------------------------------------------------------------

  /**
   * The answers `respond` gives on one connection: one per read, in order,
   * until the first empty read (the client closed the connection) or the end
   * of the reads.
   */
  function Answers(respond: string -> Response, inputs: seq<string>): seq<Response>
    decreases |inputs|
  {
    if inputs == [] || inputs[0] == "" then []
    else [respond(inputs[0])] + Answers(respond, inputs[1..])
  }

  /** The responses the server writes on one connection. */
  function Transcript(server: HttpServer, inputs: seq<string>): seq<Response> {
    Answers(raw => Respond(server, raw), inputs)
  }

  /** Up to the first empty read, every read gets exactly one answer, its own. */
  lemma {:induction false} AnswersPerRead(respond: string -> Response, inputs: seq<string>, n: nat)
    requires n <= |inputs| && (n == |inputs| || inputs[n] == "")
    requires forall k :: 0 <= k < n ==> inputs[k] != ""
    ensures |Answers(respond, inputs)| == n
    ensures forall k :: 0 <= k < n ==> Answers(respond, inputs)[k] == respond(inputs[k])
    decreases n
  {
    if n > 0 {
      var tail := inputs[1..];
      forall k | 0 <= k < n - 1 ensures tail[k] != "" {
        assert tail[k] == inputs[k + 1];
      }
      AnswersPerRead(respond, tail, n - 1);
      var rest := Answers(respond, tail);
      var all := Answers(respond, inputs);
      assert all == [respond(inputs[0])] + rest;
      forall k | 1 <= k < n ensures all[k] == respond(inputs[k]) {
        assert all[k] == rest[k - 1];
        assert tail[k - 1] == inputs[k];
      }
    }
  }

  /** `handle_connection`: read, answer, repeat; an empty read ends the loop. */
  method HandleConnection(server: HttpServer, inputs: seq<string>) returns (written: seq<Response>)
    ensures written == Transcript(server, inputs)
  {
    written := [];
    var k := 0;
    while k < |inputs|
      invariant 0 <= k <= |inputs|
      invariant written + Transcript(server, inputs[k..]) == Transcript(server, inputs)
    {
      var requestStr := inputs[k];
      if requestStr == "" {
        break;
      }
      var response := HandleRequest(server, requestStr);
      assert inputs[k..][1..] == inputs[k + 1..];
      written := written + [response];
      k := k + 1;
    }
  }

  /**
   * Up to the first empty read, every read gets exactly one response, the
   * one `Respond` gives for it; a read that fails to parse does not end the
   * connection.
   */
  lemma TranscriptPerRead(server: HttpServer, inputs: seq<string>, n: nat)
    requires n <= |inputs| && (n == |inputs| || inputs[n] == "")
    requires forall k :: 0 <= k < n ==> inputs[k] != ""
    ensures |Transcript(server, inputs)| == n
    ensures forall k :: 0 <= k < n ==> Transcript(server, inputs)[k] == Respond(server, inputs[k])
  {
    AnswersPerRead(raw => Respond(server, raw), inputs, n);
  }
}
