/**
 * The application of `src/main.rs`: its middleware functions and the table
 * of routers and routes `main` builds.  The handlers are application code
 * and enter the model as arbitrary functions.
 */
module App {
  import opened Results
  import opened Requests
  import opened Responses
  import opened Routing
  import opened Server

  const UNAUTHORIZED: int := 401
  const FORBIDDEN: int := 403
  const SERVICE_UNAVAILABLE: int := 503

  const API_KEY_HEADER: string := "X-API-Key"
  const ADMIN_KEY_HEADER: string := "X-Admin-Key"
  const ADMIN_SECRET: string := "supersecret"

  const API_KEY_REQUIRED: string := "API key required"
  const ADMIN_ACCESS_REQUIRED: string := "Admin access required"
  const UNDER_MAINTENANCE: string := "Service under maintenance"

  /** The flag `maintenance_mode` consults, fixed in the source. */
  const MAINTENANCE: bool := false

  const SERVER_ADDR: string := "127.0.0.1:8081"

  // ---------------------------------------------------------------------
  // Middleware
  // ---------------------------------------------------------------------

  /** `request_logger`: logs and continues. */
  function RequestLogger(req: Request): Outcome {
    Ok(req)
  }

  /** `global_cors`: logs and continues. */
  function GlobalCors(req: Request): Outcome {
    Ok(req)
  }

  /** `security_check`: logs and continues. */
  function SecurityCheck(req: Request): Outcome {
    Ok(req)
  }

  /** `rate_limit`: logs and continues. */
  function RateLimit(req: Request): Outcome {
    Ok(req)
  }

  /** The logging middleware never answers and never changes the request. */
  lemma LoggingMiddlewarePassesThrough()
    ensures PassesThrough(RequestLogger) && PassesThrough(GlobalCors)
    ensures PassesThrough(SecurityCheck) && PassesThrough(RateLimit)
  {
  }

  /** `maintenance_mode` with its flag as a parameter. */
  function MaintenanceModeWith(maintenance: bool, req: Request): (r: Outcome)
    ensures maintenance ==> r == Err(Response(SERVICE_UNAVAILABLE, UNDER_MAINTENANCE))
    ensures !maintenance ==> r == Ok(req)
  {
    if maintenance then Err(Response(SERVICE_UNAVAILABLE, UNDER_MAINTENANCE)) else Ok(req)
  }

  /** `maintenance_mode` as configured. */
  function MaintenanceMode(req: Request): Outcome {
    MaintenanceModeWith(MAINTENANCE, req)
  }

  /** With the flag off, `maintenance_mode` lets every request through unchanged. */
  lemma MaintenanceOff()
    ensures PassesThrough(MaintenanceMode)
  {
  }

  /** `api_key_check`: continues exactly when `X-API-Key` is present and not empty. */
  function ApiKeyCheck(req: Request): (r: Outcome)
    ensures r.Ok? <==> API_KEY_HEADER in req.headers && req.headers[API_KEY_HEADER] != ""
    ensures r.Ok? ==> r.value == req
    ensures r.Err? ==> r.error == Response(UNAUTHORIZED, API_KEY_REQUIRED)
  {
    match GetHeader(req, API_KEY_HEADER)
    case Some(key) => if key != "" then Ok(req) else Err(Response(UNAUTHORIZED, API_KEY_REQUIRED))
    case None => Err(Response(UNAUTHORIZED, API_KEY_REQUIRED))
  }

  /** `admin_check`: continues exactly when `X-Admin-Key` is `supersecret`. */
  function AdminCheck(req: Request): (r: Outcome)
    ensures r.Ok? <==> ADMIN_KEY_HEADER in req.headers && req.headers[ADMIN_KEY_HEADER] == ADMIN_SECRET
    ensures r.Ok? ==> r.value == req
    ensures r.Err? ==> r.error == Response(FORBIDDEN, ADMIN_ACCESS_REQUIRED)
  {
    match GetHeader(req, ADMIN_KEY_HEADER)
    case Some(key) => if key == ADMIN_SECRET then Ok(req) else Err(Response(FORBIDDEN, ADMIN_ACCESS_REQUIRED))
    case None => Err(Response(FORBIDDEN, ADMIN_ACCESS_REQUIRED))
  }

  // ---------------------------------------------------------------------
  // The configured table
  // ---------------------------------------------------------------------

  /** The nine handlers `main` registers. */
  datatype Handlers = Handlers(
    home: Handler, about: Handler,
    healthCheck: Handler, listUsers: Handler, createUser: Handler,
    getUser: Handler, updateUser: Handler, deleteUser: Handler,
    adminDashboard: Handler)

  /** The public router: no router middleware. */
  function PublicRouter(h: Handlers): Router {
    Router(ROOT_PREFIX, [
      Route("GET", "/", h.home, []),
      Route("GET", "/about", h.about, [])
    ], [])
  }

  /** The `/api` router: `api_key_check` on every route, admin checks on two. */
  function ApiRouter(h: Handlers): Router {
    Router("/api", [
      Route("GET", "/health", h.healthCheck, []),
      Route("GET", "/users", h.listUsers, []),
      Route("POST", "/users", h.createUser, []),
      Route("GET", "/users/{id}", h.getUser, []),
      Route("PUT", "/users/{id}", h.updateUser, []),
      Route("DELETE", "/users/{id}", h.deleteUser, [AdminCheck, RateLimit]),
      Route("GET", "/admin", h.adminDashboard, [AdminCheck, RateLimit])
    ], [ApiKeyCheck])
  }

  /** The server: four server-wide middleware, then the public and the `/api` router. */
  function AppServer(h: Handlers): HttpServer {
    HttpServer(SERVER_ADDR, [PublicRouter(h), ApiRouter(h)],
               [RequestLogger, GlobalCors, SecurityCheck, MaintenanceMode])
  }

  /** The public router as `main` builds it. */
  method BuildPublicRouter(h: Handlers) returns (r: Router)
    ensures r == PublicRouter(h)
  {
    r := NewRouter(ROOT_PREFIX);
    r := Get(r, "/", h.home, []);
    r := Get(r, "/about", h.about, []);
  }

  /** The `/api` router as `main` builds it. */
  method BuildApiRouter(h: Handlers) returns (r: Router)
    ensures r == ApiRouter(h)
  {
    r := NewRouter("/api");
    r := RouterAddMiddleware(r, ApiKeyCheck);
    r := Get(r, "/health", h.healthCheck, []);
    r := Get(r, "/users", h.listUsers, []);
    r := Post(r, "/users", h.createUser, []);
    r := Get(r, "/users/{id}", h.getUser, []);
    r := Put(r, "/users/{id}", h.updateUser, []);
    r := Delete(r, "/users/{id}", h.deleteUser, [AdminCheck, RateLimit]);
    r := Get(r, "/admin", h.adminDashboard, [AdminCheck, RateLimit]);
  }

  /** The server as `main` builds it. */
  method BuildServer(h: Handlers) returns (s: HttpServer)
    ensures s == AppServer(h)
  {
    var public := BuildPublicRouter(h);
    var api := BuildApiRouter(h);
    s := NewServer(SERVER_ADDR);
    s := ServerAddMiddleware(s, RequestLogger);
    s := ServerAddMiddleware(s, GlobalCors);
    s := ServerAddMiddleware(s, SecurityCheck);
    s := ServerAddMiddleware(s, MaintenanceMode);
    s := AddRouter(s, public);
    s := AddRouter(s, api);
  }

  /** The server-wide middleware of the configured server passes every request through unchanged. */
  lemma ServerMiddlewarePasses(h: Handlers, req: Request)
    ensures Chain(AppServer(h).middleware, Ok(req)) == Ok(req)
  {
    var mws := AppServer(h).middleware;
    LoggingMiddlewarePassesThrough();
    MaintenanceOff();
    assert forall i :: 0 <= i < |mws| ==> PassesThrough(mws[i]);
    ChainOfPassThrough(mws, req);
  }
}
