# http-server-from-scratch: the request-processing core in Dafny

This project models the request-processing core of `http-server-from-scratch`, a small HTTP/1.1 framework written in Rust. The core covers one request from the text a connection reads to the response it writes. It has four parts:

- **Request parsing** (`src/requests/request.rs`). The raw text splits at `\r\n\r\n` into a head and a body. The head splits at `\r\n` into lines. The request line must be exactly three whitespace-separated words. Header lines split at their first `:`. The request target splits at its first `?`, and the query string splits on `&` and then at the first `=`. The typed accessors fall back to a default.
- **Routing** (`src/routing/route.rs`). A pattern matcher works over `/`-separated segments, with `{name}` placeholders. Parameter injection binds placeholder names to path segments. A router strips its prefix and picks the first matching route. It then runs its own middleware and the route's middleware, each stopping at the first failure, and finally the handler. The builders append routes and middleware.
- **The server** (`src/server/server.rs`). Each read is parsed, and a request that fails to parse is answered 400. The server-wide middleware then runs. The routers are tried in order, and the first answer that is not 404 wins. A zero-byte read ends the connection.
- **The application** (`src/main.rs`). This is the configured server: its middleware (the API-key and admin-key guards among them), its two routers and their route tables.

Modules:

- Results and Responses: `Option`/`Result`, and a response as a status code with a message.
- Text: Rust's `split`, `split_once`, `split_whitespace`, `trim` and `strip_prefix` on strings, with their round trips (`Join(Split(s, sep), sep) == s` and its converse).
- Scalars: `str::parse` for `i32` and `bool`.
- Bindings: building a map by successive insertions.
- Requests, Routing, Server and App: the four source files.
- Scenarios: end-to-end facts about the configured server.

Middleware and handlers are plain function pointers with no captured state in the source. They become total Dafny functions `Request -> Result<Request, Response>` and `Request -> Response`. The builders in the source take `self` by value, push, and return it. So routes, routers and servers are datatypes, and each builder returns the updated value. Each loop of the source is a method with loop invariants, proved equal to a function that specifies it. The three loops that insert pairs into a map share one generic method, `Bindings.InsertAll`. The properties are proved about those functions.

Behaviour of the code worth noting:

- A `{name}` segment matches any actual segment, including an empty one (`src/routing/route.rs:61-73` makes no non-emptiness check).
- The route after parsing can be empty. A target that starts with `?`, such as `?a=b`, gives route `""` (`Scenarios.EmptyRouteParsed`). No router of the configured server matches that route (`Scenarios.EmptyRouteAnswered`).
- The `"Empty request"` error at `src/requests/request.rs:102-104` can never be returned, because `split` always yields at least one piece. Empty input fails with `"Invalid request line format"` instead (`Requests.HeadLines`, `Requests.RequestLine`).
- Whitespace in `split_whitespace` and `trim` is Unicode `White_Space`, as Rust defines it, not only ASCII whitespace.

## Model

| member | source | states |
|---|---|---|
| Text.Split | src/requests/request.rs:17 | `str::split` always yields at least one piece |
| Text.SplitPiecesAvoid | src/requests/request.rs:85 | no piece of a split on a character contains that character |
| Text.JoinSplit | src/requests/request.rs:17 | joining the pieces of a split with the separator gives the original string back |
| Text.SplitJoin | src/routing/route.rs:52-53 | splitting pieces joined by a separator that none of them contains gives the pieces back |
| Text.SplitNoOccurrence | src/requests/request.rs:17-18 | a string without the separator splits into itself alone |
| Text.SplitAtFirst | src/requests/request.rs:17-18 | the first piece ends at the first occurrence of the separator, and the rest is the split of what follows |
| Text.SplitOnce | src/requests/request.rs:82 | `split_once` fails exactly when the character is absent; otherwise the string is left part, character, right part, and the left part does not contain the character |
| Text.SplitOnceAt | src/requests/request.rs:86 | a string built as left part, character, right part, with the character absent from the left part, splits back into those two parts |
| Text.Words | src/requests/request.rs:107 | `split_whitespace` yields non-empty, whitespace-free words; a single word is its own split |
| Text.WordsOfThree | src/requests/request.rs:107-117 | three words separated by single spaces split into exactly those three words |
| Text.WordsSkipsWhitespace | src/requests/request.rs:107 | a whitespace character in front of the text changes nothing, so leading and repeated whitespace is skipped |
| Text.WordsOfBlank | src/requests/request.rs:107 | text made only of whitespace has no words |
| Text.WordsSplitOff | src/requests/request.rs:107 | a word followed by any whitespace character is the first word, and the rest is split the same way |
| Text.WordsJoin | src/requests/request.rs:107 | `split_whitespace` gives back any non-empty list of non-empty, whitespace-free words joined by single spaces |
| Text.TrimStart | src/requests/request.rs:129-130 | removes exactly a whitespace prefix and leaves a result that does not start with whitespace |
| Text.TrimEnd | src/requests/request.rs:129-130 | removes exactly a whitespace suffix and leaves a result that does not end with whitespace |
| Text.TrimIsTrimmed | src/requests/request.rs:129-130 | `trim` yields a trimmed string and is the identity on trimmed strings |
| Text.TrimLeadingSpace | src/requests/request.rs:130 | the space after `name:` disappears when the value is trimmed |
| Text.StripPrefix | src/routing/route.rs:154 | `strip_prefix` succeeds exactly when the prefix is a prefix, and the rest completes it |
| Scalars.ParseI32 | src/requests/request.rs:60 | `parse::<i32>` accepts only an optional sign followed by at least one ASCII digit; the empty string and a lone sign are rejected |
| Scalars.ParseDigits | src/requests/request.rs:60 | a run of digits whose value fits in `i32` parses to that value |
| Scalars.ParseNegatedDigits | src/requests/request.rs:60 | a minus sign before digits gives the negated value, down to `-2147483648` |
| Scalars.ParsePlusDigits | src/requests/request.rs:60 | a leading `+` is accepted and changes nothing |
| Scalars.ParseOverflow | src/requests/request.rs:60 | a value outside the `i32` range is rejected with either sign |
| Scalars.ParseFormat | src/requests/request.rs:60 | the decimal rendering of every `i32` parses back to it |
| Scalars.NatDigitsValue | src/requests/request.rs:60 | the decimal rendering of a natural number has that value |
| Scalars.ParseBool | src/requests/request.rs:68 | `parse::<bool>` accepts exactly `"true"` and `"false"` |
| Bindings.CollectSnoc | src/requests/request.rs:126-133 | one more item is one more `insert`, or nothing when the item yields no pair |
| Bindings.CollectDomain | src/requests/request.rs:85-89 | after the insertions a key is present iff it was present before or some item binds it |
| Bindings.CollectLastWins | src/requests/request.rs:126-133 | the value under a key comes from the last item that binds it |
| Bindings.CollectUnbound | src/routing/route.rs:140-144 | a key that no item binds keeps its old presence and value |
| Bindings.CollectUniform | src/requests/request.rs:85-89 | when every binding of a key gives the same value, the key ends with that value |
| Bindings.CollectSkipped | src/requests/request.rs:85-89 | items that yield no pair leave the map unchanged |
| Bindings.CollectCongruent | src/requests/request.rs:126-133 | item lists that yield the same pairs position by position build the same map |
| Bindings.InsertAll | src/requests/request.rs:126-133 | the `for` loop that inserts the pair each item yields, skipping items without one, builds exactly `Collect` (the loops of `extract_headers`, `extract_query_params` and `inject_route_params_from_path`) |
| Responses.NotFound | src/routing/route.rs:180 | a not-found response has code 404 and the given message |
| Requests.HeadLines | src/requests/request.rs:99-104 | the head always has at least one line, so the `"Empty request"` branch is dead |
| Requests.RequestLine | src/requests/request.rs:97-118 | succeeds iff the first head line has exactly three words, which are the result; otherwise fails with `"Invalid request line format"` |
| Requests.HeaderEntry | src/requests/request.rs:127-131 | a head line yields a header iff it contains `:` |
| Requests.ExtractHeaders | src/requests/request.rs:120-136 | the insertion loop over the head lines after the first builds the header map |
| Requests.QueryPieces | src/requests/request.rs:85 | the query string has at least one `&`-piece |
| Requests.ExtractQueryParams | src/requests/request.rs:81-95 | the insertion loop over the query pieces builds the path and the query map |
| Requests.Parse | src/requests/request.rs:16-33 | fails iff the request line is not three words, with `"Invalid request line format"`; otherwise method, version, route, query, headers and body come from the request line and the head, and `route_params` starts empty |
| Requests.New | src/requests/request.rs:16-33 | `HTTPRequest::new`, run step by step, returns what `Parse` specifies |
| Requests.Query | src/requests/request.rs:41-46 | the stored query value if the key is present, else the default |
| Requests.Param | src/requests/request.rs:49-54 | the stored route parameter if the key is present, else the default |
| Requests.QueryInt | src/requests/request.rs:57-62 | the parsed value when the stored string is an `i32`, else the default; it never fails |
| Requests.QueryBool | src/requests/request.rs:65-70 | `true`/`false` for exactly `"true"`/`"false"`, else the default; it never fails |
| Requests.HasQuery | src/requests/request.rs:73-75 | true iff the key is a query key |
| Requests.GetHeader | src/requests/request.rs:77-79 | exact-key lookup, present iff the header was stored |
| Requests.BodyBetweenSeparators | src/requests/request.rs:17-18 | the body is the text between the first and second `\r\n\r\n`; anything after the second is dropped |
| Requests.BodyAfterOnlySeparator | src/requests/request.rs:17-18 | with a single separator the body is everything after it |
| Requests.BodyWithoutSeparator | src/requests/request.rs:17-18 | without a separator the whole text is the head and the body is empty |
| Requests.HeaderLastWins | src/requests/request.rs:126-133 | a header name maps to the trimmed value of the last line that names it |
| Requests.HeaderPresent | src/requests/request.rs:126-133 | a header name is present iff some head line after the first has a `:` and that trimmed name |
| Requests.TargetWithoutQuery | src/requests/request.rs:92-94 | a target without `?` is the path, with no query parameters |
| Requests.QueryLastWins | src/requests/request.rs:85-89 | a query key maps to the value of the last piece that binds it |
| Requests.QueryPresent | src/requests/request.rs:82-90 | a query key is present iff some `&`-piece with `=` has that key |
| Requests.NoWhitespaceNoCR | src/requests/request.rs:107 | a whitespace-free word contains no carriage return |
| Requests.HeaderEntryOfLine | src/requests/request.rs:127-131 | a well-formed header line `name: value` yields exactly `(name, value)` |
| Requests.BlankLineOnlyAfterHead | src/requests/request.rs:17 | head lines that are non-empty and free of `\r` contain no `\r\n\r\n` once joined |
| Requests.RenderedLinesClean | src/requests/request.rs:100 | the lines of a rendered head are non-empty and free of CR |
| Requests.RenderedSections | src/requests/request.rs:17-18 | for a head of such lines, a blank line and a body without one, the head and body found are exactly those parts |
| Requests.ParseRender | src/requests/request.rs:16-33 | parsing a rendered request (three words, well-formed headers, a body without `\r\n\r\n`) gives back its method, path, query, headers and body |
| Routing.RunMiddleware | src/routing/route.rs:40-46 | applies the middleware in order, each to the previous output, and returns the first error |
| Routing.ChainAppend | src/routing/route.rs:40-46 | running two middleware lists one after the other is running their concatenation |
| Routing.ShortCircuit | src/routing/route.rs:42-45 | once a prefix of the list fails, nothing after it changes the outcome |
| Routing.FailsAt | src/routing/route.rs:40-46 | the first middleware that fails decides the response |
| Routing.ChainOfPassThrough | src/routing/route.rs:40-46 | middleware that all return their input leave the request as it was |
| Routing.NewRoute | src/routing/route.rs:23-30 | a route with the given method, path and handler, and no middleware |
| Routing.RouteAddMiddleware | src/routing/route.rs:32-35 | appends one middleware at the end and changes nothing else |
| Routing.RouteHandleRequest | src/routing/route.rs:37-49 | runs the middleware chain and then the handler, as `RouteResponse` specifies |
| Routing.HandlerSkippedOnFailure | src/routing/route.rs:42-45 | when a middleware fails its response is returned, whatever the handler is |
| Routing.Segments | src/routing/route.rs:52-53 | a path has at least one segment |
| Routing.PlaceholderTestsAgree | src/routing/route.rs:61-73 | the placeholder test of the matcher and that of injection agree, and the name is the text inside the braces |
| Routing.MatchesRoutePattern | src/routing/route.rs:51-74 | returns true iff the segment counts are equal and every segment is a placeholder or equal to the path's segment |
| Routing.MatchesItself | src/routing/route.rs:51-74 | every pattern matches itself |
| Routing.PlaceholderMatchesAnything | src/routing/route.rs:64-66 | a `{name}` segment matches any segment, the empty one included |
| Routing.Zip | src/routing/route.rs:140 | pairs pattern and path segments position by position, up to the shorter |
| Routing.InjectRouteParams | src/routing/route.rs:136-145 | the loop changes only the route parameters, to `BindParams` of the old ones |
| Routing.BoundKeys | src/routing/route.rs:136-145 | after injection a key is present iff it was before or some aligned placeholder has that name; literal segments never become keys |
| Routing.BoundValue | src/routing/route.rs:136-145 | a placeholder name is bound to the aligned path segment of its last occurrence |
| Routing.UnboundKept | src/routing/route.rs:136-145 | a key that no placeholder names keeps its presence and value |
| Routing.InstantiateSegments | src/routing/route.rs:52-53 | the segments of a pattern filled with slash-free values are the filled segments |
| Routing.InstantiateMatches | src/routing/route.rs:51-74 | a pattern matches every path obtained by filling its placeholders with slash-free values |
| Routing.InstantiateBinds | src/routing/route.rs:136-145 | injecting from such a path binds each placeholder name back to its value |
| Routing.FilledBinds | src/routing/route.rs:139-143 | pairing segments with their filled versions binds each placeholder name to its value, however often it occurs |
| Routing.NewRouter | src/routing/route.rs:78-84 | a router with the given prefix, no routes and no middleware |
| Routing.RouterAddMiddleware | src/routing/route.rs:86-89 | appends one middleware at the end and changes nothing else |
| Routing.AddRoute | src/routing/route.rs:91-98 | appends exactly one route, with the given method, path, handler and middleware in order; prefix and router middleware unchanged |
| Routing.Get | src/routing/route.rs:91-98 | appends one `GET` route at the end |
| Routing.Post | src/routing/route.rs:100-107 | appends one `POST` route at the end |
| Routing.Put | src/routing/route.rs:109-116 | appends one `PUT` route at the end |
| Routing.Patch | src/routing/route.rs:118-125 | appends one `PATCH` route at the end |
| Routing.Delete | src/routing/route.rs:127-134 | appends one `DELETE` route at the end |
| Routing.RelativePath | src/routing/route.rs:151-158 | prefix `/` keeps the full path; any other prefix is a plain string prefix that is stripped, and when it is absent there is no path |
| Routing.FirstRoute | src/routing/route.rs:161-164 | the least index, in registration order, whose method equals the request's and whose pattern matches; none if there is no such index |
| Routing.RouterHandleRequest | src/routing/route.rs:147-181 | `Router::handle_request` returns what `RouterResponse` specifies |
| Routing.DispatchRoutes | src/routing/route.rs:161-180 | the route loop stops at the first selected route; with none it answers 404 `"No matching route found"` |
| Routing.PrefixMismatch | src/routing/route.rs:151-158 | a path outside the prefix is answered 404 `"Route prefix not matched"` |
| Routing.NoRouteSelected | src/routing/route.rs:161-180 | when no route is selected the answer is 404 `"No matching route found"`, whatever the router middleware |
| Routing.SelectedRoute | src/routing/route.rs:161-177 | the first selected route decides the answer; routes after it are never consulted |
| Server.NewServer | src/server/server.rs:15-21 | a server with the given address, no routers and no middleware |
| Server.ServerAddMiddleware | src/server/server.rs:23-26 | appends one middleware at the end and changes nothing else |
| Server.AddRouter | src/server/server.rs:28-31 | appends one router at the end and changes nothing else |
| Server.FanOut | src/server/server.rs:77-89 | the answer is 404 iff every router answers 404, and then it is the server's `"No router matched this path"` |
| Server.FanOutPicksFirst | src/server/server.rs:78-84 | the first router whose answer is not 404 decides, whatever the later routers say; each sees the same request |
| Server.FoldMiddleware | src/server/server.rs:59-67 | the fold visits every server middleware and carries the first error to the end, giving the short-circuit chain |
| Server.TryRouters | src/server/server.rs:77-89 | the router loop returns what `FanOut` specifies |
| Server.HandleRequest | src/server/server.rs:46-91 | one pass of the connection loop writes what `Respond` specifies |
| Server.BadRequestAnswered | src/server/server.rs:49-55 | a request that does not parse is answered 400 `"Bad Request: Invalid request line format"`, whatever the middleware and routers |
| Server.MiddlewareAnswerFinal | src/server/server.rs:59-74 | once the server middleware answers, that answer is written and no router is consulted |
| Server.HandleConnection | src/server/server.rs:33-95 | the connection loop writes what `Transcript` specifies |
| Server.AnswersPerRead | src/server/server.rs:38-55 | whatever the answering step, the loop gives one answer per read, in order, up to the first empty read |
| Server.TranscriptPerRead | src/server/server.rs:38-55 | up to the first empty read, each read gets exactly one response, its own; a bad request does not end the connection |
| App.LoggingMiddlewarePassesThrough | src/main.rs:57-70 | `request_logger`, `global_cors`, `security_check` and `rate_limit` return their request unchanged |
| App.MaintenanceModeWith | src/main.rs:72-81 | in maintenance the answer is 503; otherwise the request passes unchanged |
| App.MaintenanceOff | src/main.rs:72-81 | with the flag as configured, `maintenance_mode` passes every request |
| App.ApiKeyCheck | src/main.rs:87-98 | passes the request unchanged iff `X-API-Key` is present and non-empty, else answers 401 |
| App.AdminCheck | src/main.rs:104-115 | passes the request unchanged iff `X-Admin-Key` equals `supersecret`, else answers 403 |
| App.BuildPublicRouter | src/main.rs:294-296 | the public router built by the builder calls is the table `PublicRouter` |
| App.BuildApiRouter | src/main.rs:299-309 | the `/api` router built by the builder calls is the table `ApiRouter` |
| App.BuildServer | src/main.rs:332-342 | the server built by the builder calls is `AppServer` |
| App.ServerMiddlewarePasses | src/main.rs:332-337 | the configured server middleware lets every request through unchanged |
| Scenarios.BindLastOnly | src/routing/route.rs:136-145 | a pattern whose only placeholder is its last segment adds exactly that name, bound to the path's last segment |
| Scenarios.BindNone | src/routing/route.rs:136-145 | a pattern without placeholders leaves the route parameters as they were |
| Scenarios.ApiKeyGate | src/routing/route.rs:166-172 | behind a router whose only middleware is `api_key_check`, a selected route runs iff `X-API-Key` is non-empty, and otherwise the answer is 401 |
| Scenarios.AdminGate | src/main.rs:104-120 | a route guarded by `admin_check` then `rate_limit` runs its handler iff the admin key is right, and otherwise answers 403 |
| Scenarios.HealthNotUsers | src/main.rs:303-304 | `/health` does not match `/users` |
| Scenarios.UserIdMatches | src/main.rs:306 | `/users/{id}` matches `/users/<id>` for a slash-free id |
| Scenarios.UserIdBinds | src/main.rs:306 | injection from `/users/<id>` binds `id` to the id |
| Scenarios.UsersBindsNothing | src/main.rs:304 | injection for `/users` leaves the route parameters as they were |
| Scenarios.PublicMisses | src/main.rs:294-296 | the public router answers 404 to every path of three or more segments, such as `/api/users` |
| Scenarios.PublicMissesEmpty | src/main.rs:294-296 | the public router has no route for the empty path and answers 404 `"No matching route found"` |
| Scenarios.ApiTable | src/main.rs:299-309 | the `/api` router has the listed routes, in order |
| Scenarios.ApiKeyMissingAtApi | src/main.rs:299-304 | the `/api` router selects `GET /users` and `api_key_check` answers 401 without `X-API-Key` |
| Scenarios.ApiKeyMissing | src/main.rs:87-98 | `GET /api/users` without `X-API-Key` is answered 401 |
| Scenarios.PublicIgnoresOtherMethods | src/main.rs:294-296 | the public router answers 404 to every method other than `GET` |
| Scenarios.SecondRouterOrNone | src/server/server.rs:77-89 | with two routers and a 404 from the first, the answer is the second's, or the server's 404 |
| Scenarios.DeleteSelected | src/main.rs:308 | `DELETE /api/users/<id>` selects the sixth route |
| Scenarios.DeleteRouted | src/main.rs:299-308 | with an API key, the delete route answers 403 unless the admin key is right, and otherwise runs the handler with `id` bound |
| Scenarios.DeleteUser | src/main.rs:294-342 | the server's answer to `DELETE /api/users/<id>` with an API key |
| Scenarios.AdminDenied | src/main.rs:104-115 | with a wrong or missing admin key, `DELETE /api/users/<id>` ends in 403 whatever the handlers do |
| Scenarios.TwoQueryParams | src/requests/request.rs:81-95 | a target with two `key=value` pieces gives the path and both pairs, the second inserted last |
| Scenarios.ListUsersParsed | src/requests/request.rs:16-33 | `GET /api/users?page=2&limit=5` with one header parses to path `/api/users` and two query parameters |
| Scenarios.ListUsersQueryValues | src/requests/request.rs:41-62 | on that request `query_int` reads 2 and 5, and an absent key falls back to its default |
| Scenarios.ListUsersRouted | src/main.rs:299-304 | with an API key, `GET /api/users` reaches `list_users` with the request unchanged |
| Scenarios.ListUsersAnswered | src/server/server.rs:46-91 | the server answers that raw request with the answer of `list_users` (a 404 of its own aside) |
| Scenarios.OneWordRejected | src/requests/request.rs:109-111 | a single word followed by the blank line is not a request line |
| Scenarios.BadReadThenNext | src/server/server.rs:49-55 | a read that fails to parse is answered 400, and the next read is answered too |
| Scenarios.GarbageThenNext | src/server/server.rs:49-55 | `garbage\r\n\r\n` gets a 400 and the connection goes on |
| Scenarios.EmptyRouteTarget | src/requests/request.rs:81-95 | the target `?a=b` has the empty path and the query `a=b` |
| Scenarios.EmptyRouteParsed | src/requests/request.rs:82-91 | the target `?a=b` parses to the empty route with the query `a=b` |
| Scenarios.EmptyRouteRouted | src/server/server.rs:77-89 | a request with the empty route reaches neither router: the public one has no such route and the `/api` prefix is not matched |
| Scenarios.EmptyRouteAnswered | src/server/server.rs:77-89 | no router of the configured server matches the empty route, so the answer is the server's 404 |

## Left out

- Networking is not modelled: `run`, the `TcpListener`, `tokio::spawn`, `Arc`, and asynchronous reads and writes with their I/O errors. A connection is a sequence of strings, one per read, and its output is the sequence of responses written.
- The 4096-byte read buffer and `String::from_utf8_lossy` are not modelled. A read is already a string, and a request split across reads, or two requests in one read, are beyond the model.
- `HTTPRequest::body<T>` (JSON deserialisation with serde) is not modelled.
- The `src/responses` module is not part of this model. A response is its status code and message, and `to_http_string` is not modelled.
- The business handlers in `src/main.rs` (`home`, `about`, `list_users` and the others) are arbitrary functions supplied as parameters. Every scenario holds for any handlers.
- The `println!` logging in the middleware and in `main` is not modelled. The logging middleware are modelled as returning their input.
- `App.MaintenanceMode`: the flag is the configured constant `false`. `App.MaintenanceModeWith` models both branches.
- In-place mutation of the route, router and server vectors is not modelled separately. The builders take `self` by value, so the functional update is exact and no aliasing is possible.
- `Scalars.ParseI32`: its own contract states only the accepted shape (a sign followed by at least one digit). The accepted values and the overflow bound are stated by `Scalars.ParseDigits`, `Scalars.ParseNegatedDigits`, `Scalars.ParsePlusDigits` and `Scalars.ParseOverflow`.
