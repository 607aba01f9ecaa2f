/**
 * The request model of `src/requests/request.rs`: parsing raw request text
 * into an `HTTPRequest` and the typed accessors on it.
 */
module Requests {
  import opened Results
  import opened Text
  import opened Scalars
  import opened Bindings

  /**
   * A parsed request.  `route` is the request target up to its first `?`;
   * `routeParams` is filled in only by the router.
   */
  datatype Request = Request(
    httpMethod: string,
    route: string,
    version: string,
    headers: map<string, string>,
    body: string,
    routeParams: map<string, string>,
    queryParams: map<string, string>)

  const HEAD_SEPARATOR: string := "\r\n\r\n"
  const LINE_SEPARATOR: string := "\r\n"
  const EMPTY_REQUEST: string := "Empty request"
  const INVALID_REQUEST_LINE: string := "Invalid request line format"

  // ---------------------------------------------------------------------
  // The sections of the raw text
  // ---------------------------------------------------------------------

  /** The text before the first blank line (all of it when there is none). */
  function Head(raw: string): string {
    Split(raw, HEAD_SEPARATOR)[0]
  }

  /** `parts.get(1).unwrap_or("")`: the second piece of the split on the blank line. */
  function BodyOf(raw: string): string {
    var parts := Split(raw, HEAD_SEPARATOR);
    if |parts| > 1 then parts[1] else ""
  }

  /** The lines of the head: the request line first, then the header lines. */
  function HeadLines(raw: string): (lines: seq<string>)
    ensures |lines| >= 1
  {
    Split(Head(raw), LINE_SEPARATOR)
  }

  /** `extract_method_route_and_version`. */
  function RequestLine(raw: string): (r: Result<(string, string, string), string>)
    ensures r.Ok? <==> |Words(HeadLines(raw)[0])| == 3
    ensures r.Err? ==> r.error == INVALID_REQUEST_LINE
    ensures r.Ok? ==> [r.value.0, r.value.1, r.value.2] == Words(HeadLines(raw)[0])
  {
    var lines := HeadLines(raw);
    if |lines| == 0 then Err(EMPTY_REQUEST)
    else
      var tokens := Words(lines[0]);
      if |tokens| != 3 then Err(INVALID_REQUEST_LINE)
      else Ok((tokens[0], tokens[1], tokens[2]))
  }

  // ---------------------------------------------------------------------
  // Headers
  // ---------------------------------------------------------------------

  /** A header line split at its first `:`, both sides trimmed; `None` without a `:`. */
  function HeaderEntry(line: string): (r: Option<(string, string)>)
    ensures r.None? <==> ':' !in line
  {
    match SplitOnce(line, ':')
    case None => None
    case Some(parts) => Some((Trim(parts.0), Trim(parts.1)))
  }

  /** The map that inserting the entry of each header line, in order, builds. */
  function HeaderMapOfLines(lines: seq<string>): map<string, string> {
    Collect(map[], lines, HeaderEntry)
  }

  /** The header map `extract_headers` builds from the lines after the request line. */
  function HeadersOf(raw: string): map<string, string> {
    HeaderMapOfLines(HeadLines(raw)[1..])
  }

  /** `extract_headers`: one insertion per head line after the request line that has a `:`. */
  method ExtractHeaders(raw: string) returns (headers: map<string, string>)
    ensures headers == HeadersOf(raw)
  {
    var lines := HeadLines(raw);
    headers := InsertAll(map[], lines[1..], HeaderEntry);
  }

  // ---------------------------------------------------------------------
  // Request target and query string
  // ---------------------------------------------------------------------

  /** A query piece split at its first `=`, untrimmed and undecoded; `None` without a `=`. */
  function QueryEntry(piece: string): Option<(string, string)> {
    SplitOnce(piece, '=')
  }

  /** The `&`-separated pieces of a query string. */
  function QueryPieces(query: string): (pieces: seq<string>)
    ensures |pieces| >= 1
  {
    Split(query, "&")
  }

  /** The path and query map `extract_query_params` returns for a request target. */
  function TargetParts(target: string): (string, map<string, string>) {
    match SplitOnce(target, '?')
    case None => (target, map[])
    case Some(parts) => (parts.0, Collect(map[], QueryPieces(parts.1), QueryEntry))
  }

  /** `extract_query_params`: one insertion per `&`-separated piece that has a `=`. */
  method ExtractQueryParams(target: string) returns (path: string, params: map<string, string>)
    ensures (path, params) == TargetParts(target)
  {
    match SplitOnce(target, '?')
    case Some(parts) =>
      var pieces := QueryPieces(parts.1);
      params := InsertAll(map[], pieces, QueryEntry);
      path := parts.0;
    case None =>
      path, params := target, map[];
  }

  // ---------------------------------------------------------------------
  // HTTPRequest::new
  // ---------------------------------------------------------------------

  /** `HTTPRequest::new`: fails exactly when the request line is not three words. */
  function Parse(raw: string): (r: Result<Request, string>)
    ensures r.Err? <==> |Words(HeadLines(raw)[0])| != 3
    ensures r.Err? ==> r.error == INVALID_REQUEST_LINE
    ensures r.Ok? ==>
      var tokens := Words(HeadLines(raw)[0]);
      && r.value.httpMethod == tokens[0]
      && r.value.version == tokens[2]
      && r.value.route == TargetParts(tokens[1]).0
      && r.value.queryParams == TargetParts(tokens[1]).1
      && r.value.headers == HeadersOf(raw)
      && r.value.body == BodyOf(raw)
      && r.value.routeParams == map[]
  {
    var body := BodyOf(raw);
    match RequestLine(raw)
    case Err(e) => Err(e)
    case Ok(line) =>
      var headers := HeadersOf(raw);
      var target := TargetParts(line.1);
      Ok(Request(line.0, target.0, line.2, headers, body, map[], target.1))
  }

  /** `HTTPRequest::new` with its two loops run as the source runs them. */
  method New(raw: string) returns (r: Result<Request, string>)
    ensures r == Parse(raw)
  {
    var parts := Split(raw, HEAD_SEPARATOR);
    var body := if |parts| > 1 then parts[1] else "";
    var line := RequestLine(raw);
    if line.Err? {
      return Err(line.error);
    }
    var headers := ExtractHeaders(raw);
    var path, query := ExtractQueryParams(line.value.1);
    r := Ok(Request(line.value.0, path, line.value.2, headers, body, map[], query));
  }

  // ---------------------------------------------------------------------
  // Accessors
  // ---------------------------------------------------------------------

  /** `query(key, default)`. */
  function Query(req: Request, key: string, default: string): (v: string)
    ensures key in req.queryParams ==> v == req.queryParams[key]
    ensures key !in req.queryParams ==> v == default
  {
    if key in req.queryParams then req.queryParams[key] else default
  }

  /** `param(key, default)`. */
  function Param(req: Request, key: string, default: string): (v: string)
    ensures key in req.routeParams ==> v == req.routeParams[key]
    ensures key !in req.routeParams ==> v == default
  {
    if key in req.routeParams then req.routeParams[key] else default
  }

  /** `query_int(key, default)`: the stored value when it parses as an `i32`. */
  function QueryInt(req: Request, key: string, default: i32): (v: i32)
    ensures key in req.queryParams && ParseI32(req.queryParams[key]).Some? ==>
              v == ParseI32(req.queryParams[key]).value
    ensures key !in req.queryParams || ParseI32(req.queryParams[key]).None? ==> v == default
  {
    if key in req.queryParams && ParseI32(req.queryParams[key]).Some?
    then ParseI32(req.queryParams[key]).value
    else default
  }

  /** `query_bool(key, default)`: the stored value when it is exactly `true` or `false`. */
  function QueryBool(req: Request, key: string, default: bool): (v: bool)
    ensures key in req.queryParams && req.queryParams[key] == "true" ==> v
    ensures key in req.queryParams && req.queryParams[key] == "false" ==> !v
    ensures key !in req.queryParams || ParseBool(req.queryParams[key]).None? ==> v == default
  {
    if key in req.queryParams && ParseBool(req.queryParams[key]).Some?
    then ParseBool(req.queryParams[key]).value
    else default
  }

  /** `has_query(key)`. */
  function HasQuery(req: Request, key: string): (b: bool)
    ensures b <==> key in req.queryParams
  {
    key in req.queryParams
  }

  /** `get_header(name)`: exact-key lookup, no case folding. */
  function GetHeader(req: Request, name: string): (r: Option<string>)
    ensures r.Some? <==> name in req.headers
    ensures r.Some? ==> r.value == req.headers[name]
  {
    if name in req.headers then Some(req.headers[name]) else None
  }

  // ---------------------------------------------------------------------
  // Properties of the parser
  // ---------------------------------------------------------------------

  /** The body is the text between the first and the second blank-line separator. */
  lemma BodyBetweenSeparators(raw: string, i: nat, j: nat)
    requires FirstOccurrence(raw, HEAD_SEPARATOR, i)
    requires FirstOccurrence(raw[i + |HEAD_SEPARATOR|..], HEAD_SEPARATOR, j)
    ensures Head(raw) == raw[..i]
    ensures BodyOf(raw) == raw[i + |HEAD_SEPARATOR|..][..j]
  {
    var rest := raw[i + |HEAD_SEPARATOR|..];
    SplitAtFirst(raw, HEAD_SEPARATOR, i);
    SplitAtFirst(rest, HEAD_SEPARATOR, j);
  }

  /** With a single separator the body is everything after it. */
  lemma BodyAfterOnlySeparator(raw: string, i: nat)
    requires FirstOccurrence(raw, HEAD_SEPARATOR, i)
    requires NoOccurrence(raw[i + |HEAD_SEPARATOR|..], HEAD_SEPARATOR)
    ensures Head(raw) == raw[..i]
    ensures BodyOf(raw) == raw[i + |HEAD_SEPARATOR|..]
  {
    SplitAtFirst(raw, HEAD_SEPARATOR, i);
    SplitNoOccurrence(raw[i + |HEAD_SEPARATOR|..], HEAD_SEPARATOR);
  }

  /** Without a separator the whole text is the head and the body is empty. */
  lemma BodyWithoutSeparator(raw: string)
    requires NoOccurrence(raw, HEAD_SEPARATOR)
    ensures Head(raw) == raw && BodyOf(raw) == ""
  {
    SplitNoOccurrence(raw, HEAD_SEPARATOR);
  }

  /**
   * A header line yields its trimmed name and value; the value under a name
   * is the one from the last line with that name.
   */
  lemma HeaderLastWins(lines: seq<string>, k: nat, name: string, value: string)
    requires k < |lines| && ':' in lines[k]
    requires Trim(SplitOnce(lines[k], ':').value.0) == name
    requires Trim(SplitOnce(lines[k], ':').value.1) == value
    requires forall l :: k < l < |lines| ==> !Binds(HeaderEntry, lines[l], name)
    ensures name in HeaderMapOfLines(lines) && HeaderMapOfLines(lines)[name] == value
  {
    CollectLastWins(map[], lines, HeaderEntry, k);
  }

  /** A name is a header key exactly when some line with a `:` has that trimmed name. */
  lemma HeaderPresent(lines: seq<string>, name: string)
    ensures name in HeaderMapOfLines(lines) <==>
      exists k :: 0 <= k < |lines| && ':' in lines[k] && Trim(SplitOnce(lines[k], ':').value.0) == name
  {
    CollectDomain(map[], lines, HeaderEntry, name);
    if exists k :: 0 <= k < |lines| && Binds(HeaderEntry, lines[k], name) {
      var k :| 0 <= k < |lines| && Binds(HeaderEntry, lines[k], name);
      assert ':' in lines[k] && Trim(SplitOnce(lines[k], ':').value.0) == name;
    }
    if exists k :: 0 <= k < |lines| && ':' in lines[k] && Trim(SplitOnce(lines[k], ':').value.0) == name {
      var k :| 0 <= k < |lines| && ':' in lines[k] && Trim(SplitOnce(lines[k], ':').value.0) == name;
      assert Binds(HeaderEntry, lines[k], name);
    }
  }

  /** Without a `?` the target is all path and there are no query parameters. */
  lemma TargetWithoutQuery(target: string)
    requires '?' !in target
    ensures TargetParts(target) == (target, map[])
  {
  }

  /**
   * With a `?`, the path is the text before the first `?`, and the value
   * under a query key comes from the last `&`-piece with that key.
   */
  lemma QueryLastWins(path: string, query: string, k: nat, key: string, value: string)
    requires '?' !in path
    requires k < |QueryPieces(query)|
    requires SplitOnce(QueryPieces(query)[k], '=') == Some((key, value))
    requires forall l :: k < l < |QueryPieces(query)| ==> !Binds(QueryEntry, QueryPieces(query)[l], key)
    ensures TargetParts(path + "?" + query).0 == path
    ensures key in TargetParts(path + "?" + query).1
    ensures TargetParts(path + "?" + query).1[key] == value
  {
    SplitOnceAt(path, '?', query);
    CollectLastWins(map[], QueryPieces(query), QueryEntry, k);
  }

  /** A query key is present exactly when some `&`-piece with a `=` has that key. */
  lemma QueryPresent(path: string, query: string, key: string)
    requires '?' !in path
    ensures key in TargetParts(path + "?" + query).1 <==>
      exists k :: 0 <= k < |QueryPieces(query)| && Binds(QueryEntry, QueryPieces(query)[k], key)
  {
    SplitOnceAt(path, '?', query);
    CollectDomain(map[], QueryPieces(query), QueryEntry, key);
  }

  // ---------------------------------------------------------------------
  // Round trip: parsing a rendered request
  // ---------------------------------------------------------------------

  /** A header that renders as `name: value` and parses back unchanged. */
  predicate WellFormedHeader(h: (string, string)) {
    ':' !in h.0 && '\r' !in h.0 && '\r' !in h.1 && IsTrimmed(h.0) && IsTrimmed(h.1)
  }

  /** A request-line word: non-empty and free of whitespace. */
  predicate IsWord(s: string) {
    s != [] && NoWhitespace(s)
  }

  function HeaderLine(h: (string, string)): string {
    h.0 + ": " + h.1
  }

  function HeaderLines(headers: seq<(string, string)>): (lines: seq<string>)
    ensures |lines| == |headers|
    ensures forall k :: 0 <= k < |headers| ==> lines[k] == HeaderLine(headers[k])
  {
    if headers == [] then [] else [HeaderLine(headers[0])] + HeaderLines(headers[1..])
  }

  /** The lines of a rendered head: the request line, then one line per header. */
  function RenderedLines(verb: string, target: string, version: string, headers: seq<(string, string)>): seq<string> {
    [verb + " " + target + " " + version] + HeaderLines(headers)
  }

  /** A request as a client writes it: head lines joined by CRLF, a blank line, the body. */
  function Render(verb: string, target: string, version: string, headers: seq<(string, string)>, body: string): string {
    Join(RenderedLines(verb, target, version, headers), LINE_SEPARATOR) + HEAD_SEPARATOR + body
  }

  function PairEntry(h: (string, string)): Option<(string, string)> {
    Some(h)
  }

  /** The map that inserting the given pairs in order builds. */
  function HeaderMap(headers: seq<(string, string)>): map<string, string> {
    Collect(map[], headers, PairEntry)
  }

  lemma NoWhitespaceNoCR(s: string)
    requires NoWhitespace(s)
    ensures '\r' !in s
  {
    forall k | 0 <= k < |s| ensures s[k] != '\r' {
      assert !IsWhitespace(s[k]);
    }
  }

  lemma HeaderEntryOfLine(h: (string, string))
    requires WellFormedHeader(h)
    ensures HeaderEntry(HeaderLine(h)) == Some(h)
  {
    assert HeaderLine(h) == h.0 + [':'] + (" " + h.1);
    SplitOnceAt(h.0, ':', " " + h.1);
    TrimIsTrimmed(h.0);
    TrimLeadingSpace(h.1);
  }

  /**
   * In lines joined by CRLF, where every line is non-empty and has no CR, a
   * blank line can only start at the end of the joined text.
   */
  lemma {:induction false} BlankLineOnlyAfterHead(lines: seq<string>, t: string)
    requires |lines| >= 1
    requires forall k :: 0 <= k < |lines| ==> lines[k] != [] && '\r' !in lines[k]
    ensures forall j: nat :: j < |Join(lines, LINE_SEPARATOR)| ==>
              !OccursAt(Join(lines, LINE_SEPARATOR) + t, HEAD_SEPARATOR, j)
    decreases |lines|
  {
    var head := Join(lines, LINE_SEPARATOR);
    var s := head + t;
    var l0 := lines[0];
    JoinStartsWith(lines, LINE_SEPARATOR);
    forall j: nat | j < |head| ensures !OccursAt(s, HEAD_SEPARATOR, j) {
      if j < |l0| {
        assert s[j] == l0[j];
        assert l0[j] != '\r';
        if j + 4 <= |s| {
          assert s[j..j + 4][0] == s[j];
        }
      } else {
        var rest := Join(lines[1..], LINE_SEPARATOR);
        assert head == l0 + LINE_SEPARATOR + rest;
        JoinStartsWith(lines[1..], LINE_SEPARATOR);
        if j == |l0| {
          assert s[j + 2] == rest[0] == lines[1][0];
          assert lines[1][0] != '\r';
          if j + 4 <= |s| {
            assert s[j..j + 4][2] == s[j + 2];
          }
        } else if j == |l0| + 1 {
          assert s[j] == '\n';
          if j + 4 <= |s| {
            assert s[j..j + 4][0] == s[j];
          }
        } else {
          var m := |l0| + 2;
          BlankLineOnlyAfterHead(lines[1..], t);
          assert s[m..] == rest + t;
          OccursAtDrop(s, HEAD_SEPARATOR, m, j);
        }
      }
    }
  }

  /** The lines of a rendered head are non-empty and contain no carriage return. */
  lemma RenderedLinesClean(verb: string, target: string, version: string, headers: seq<(string, string)>)
    requires IsWord(verb) && IsWord(target) && IsWord(version)
    requires forall k :: 0 <= k < |headers| ==> WellFormedHeader(headers[k])
    ensures var lines := RenderedLines(verb, target, version, headers);
            forall k :: 0 <= k < |lines| ==> lines[k] != [] && '\r' !in lines[k]
  {
    var lines := RenderedLines(verb, target, version, headers);
    NoWhitespaceNoCR(verb);
    NoWhitespaceNoCR(target);
    NoWhitespaceNoCR(version);
    forall k | 0 <= k < |lines| ensures lines[k] != [] && '\r' !in lines[k] {
      if k > 0 {
        assert lines[k] == HeaderLine(headers[k - 1]);
        assert lines[k] == headers[k - 1].0 + ": " + headers[k - 1].1;
      }
    }
  }

  /**
   * Head lines that are non-empty and free of CR, then a blank line, then a
   * body without a blank line: the head and the body are exactly those parts.
   */
  lemma RenderedSections(lines: seq<string>, body: string)
    requires |lines| >= 1
    requires forall k :: 0 <= k < |lines| ==> lines[k] != [] && '\r' !in lines[k]
    requires NoOccurrence(body, HEAD_SEPARATOR)
    ensures Head(Join(lines, LINE_SEPARATOR) + HEAD_SEPARATOR + body) == Join(lines, LINE_SEPARATOR)
    ensures BodyOf(Join(lines, LINE_SEPARATOR) + HEAD_SEPARATOR + body) == body
  {
    var head := Join(lines, LINE_SEPARATOR);
    var raw := head + HEAD_SEPARATOR + body;
    assert raw == head + (HEAD_SEPARATOR + body);
    BlankLineOnlyAfterHead(lines, HEAD_SEPARATOR + body);
    assert raw[|head|..|head| + 4] == HEAD_SEPARATOR;
    assert FirstOccurrence(raw, HEAD_SEPARATOR, |head|);
    SplitAtFirst(raw, HEAD_SEPARATOR, |head|);
    assert raw[..|head|] == head;
    assert raw[|head| + 4..] == body;
    SplitNoOccurrence(body, HEAD_SEPARATOR);
  }

  /**
   * Parsing a rendered request gives back its method, version and body, the
   * path and query of its target, and the map its headers build (a later
   * header with the same name wins), with no route parameters.
   */
  lemma ParseRender(verb: string, target: string, version: string, headers: seq<(string, string)>, body: string)
    requires IsWord(verb) && IsWord(target) && IsWord(version)
    requires forall k :: 0 <= k < |headers| ==> WellFormedHeader(headers[k])
    requires NoOccurrence(body, HEAD_SEPARATOR)
    ensures Parse(Render(verb, target, version, headers, body)) ==
      Ok(Request(verb, TargetParts(target).0, version, HeaderMap(headers), body, map[], TargetParts(target).1))
  {
    var lines := RenderedLines(verb, target, version, headers);
    var raw := Render(verb, target, version, headers, body);
    RenderedLinesClean(verb, target, version, headers);
    RenderedSections(lines, body);
    assert Head(raw) == Join(lines, LINE_SEPARATOR) && BodyOf(raw) == body;
    // the head splits back into its lines
    SplitJoin(lines, LINE_SEPARATOR);
    assert HeadLines(raw) == lines;
    WordsOfThree(verb, target, version);
    // the header lines build the header map
    forall k | 0 <= k < |headers| ensures HeaderEntry(lines[1..][k]) == PairEntry(headers[k]) {
      assert lines[1..][k] == HeaderLine(headers[k]);
      HeaderEntryOfLine(headers[k]);
    }
    CollectCongruent(map[], lines[1..], HeaderEntry, headers, PairEntry);
  }
}
