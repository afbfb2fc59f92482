/**
 * HttpAdapter: one client connection, from the bytes received to the bytes
 * sent back.  The adapter reads the message, lets the request object parse
 * it, runs the hook the route table names for it, copies what the hook
 * returned onto a fresh response, and sends what the response builds.
 *
 * A hook is the application's handler: here a function from the request's
 * headers and body to what it returned.  What a receive gave (text, or a
 * failure to receive or to decode it) is a parameter; the socket is the
 * `Connection` object, which records what was sent and whether it was closed.
 */
module HttpAdapter {
  import opened Text
  import opened Assoc
  import opened HttpRequest
  import opened HttpResponse

  /** A handler's `body`: text, which is encoded as UTF-8, or bytes kept as they are. */
  datatype Body = Str(text: string) | Raw(bytes: seq<byte>)

  /**
   * What calling a hook gave: a dict with any of its five keys, anything
   * that is not a non-empty dict, or an exception.
   */
  datatype HookResult =
    | Returned(status: Option<int>, headers: Option<Entries<string, string>>, setCookie: Option<string>,
               body: Option<Body>, path: Option<string>)
    | NotADict
    | Raised

  /** hook(headers=req.headers, body=req.body) */
  type Hook = (map<string, string>, Option<string>) -> HookResult

  /** What conn.recv(1024).decode('utf-8') gave. */
  datatype Received = Data(text: string) | Failed

  /** What the adapter sends when anything but a hook fails. */
  const SERVER_ERROR_REPLY: seq<byte> := Bytes("HTTP/1.1 500 Internal Server Error\r\n\r\n500 Internal Server Error")

  const HOOK_ERROR_BODY: string := "Internal Server Error"

  /** The response the adapter starts every exchange with. */
  const FRESH: Snapshot := Snapshot(200, "OK", [], [])

  function BodyBytes(b: Body): seq<byte> {
    match b
    case Str(t) => Utf8Encode(t)
    case Raw(d) => d
  }

  /**
   * What handle_client does with a hook's result: the response after it and
   * the request path after it.  Status, headers, the cookie, the body and the
   * path are applied in that order, each only when the dict has its key.
   */
  function Apply(r: HookResult, s: Snapshot, path: Option<string>): (Snapshot, Option<string>) {
    match r
    case NotADict => (s, path)
    case Raised => (s.(status := 500, content := Bytes(HOOK_ERROR_BODY)), path)
    case Returned(st, hs, ck, b, p) =>
      var s1 := if st.Some? then s.(status := st.value) else s;
      var s2 := if hs.Some? then s1.(headers := PutAll(s1.headers, hs.value)) else s1;
      var s3 := if ck.Some? then s2.(headers := Put(s2.headers, "Set-Cookie", ck.value)) else s2;
      var s4 := if b.Some? then s3.(content := BodyBytes(b.value)) else s3;
      (s4, if p.Some? then p else path)
  }

  /** The request as prepare leaves it: method, path, headers, body and hook. */
  datatype Parsed = Parsed(verb: Option<string>, path: Option<string>, headers: map<string, string>, body: Option<string>, hook: Option<Hook>)

  /**
   * The request after prepare(msg, routes) on a request object whose method
   * and path were verb and path: a request line of fewer than two words
   * leaves those two as they were.
   */
  function ParsedOf(msg: string, verb: Option<string>, path: Option<string>, routes: Routes<Hook>): Parsed {
    var lines := Split(msg, CRLF);
    var v := match Target(lines) case Some((m, _)) => Some(m) case None => verb;
    var p := match Target(lines) case Some((_, q)) => Some(q) case None => path;
    Parsed(v, p, HeadersOf(lines), Some(BodyOf(lines)), Route(routes, p, v))
  }

  /** The response and the request path once the hook, if any, has run. */
  function Handled(q: Parsed): (Snapshot, Option<string>) {
    match q.hook
    case None => (FRESH, q.path)
    case Some(h) => Apply(h(q.headers, q.body), FRESH, q.path)
  }

  /** The response handle_client leaves for a non-empty message, and the bytes it sends. */
  function Outcome(msg: string, verb: Option<string>, path: Option<string>, routes: Routes<Hook>, env: Env): (Snapshot, seq<byte>) {
    var q := ParsedOf(msg, verb, path, routes);
    var (s, p) := Handled(q);
    Build(s, p, q.headers, env)
  }

  /** The bytes handle_client sends for a non-empty message. */
  function Exchange(msg: string, verb: Option<string>, path: Option<string>, routes: Routes<Hook>, env: Env): seq<byte> {
    Outcome(msg, verb, path, routes, env).1
  }

  /** The url prepare leaves: the path of a request line of two words or more, else the old url. */
  function UrlOf(msg: string, url: Option<string>): Option<string> {
    match Target(Split(msg, CRLF))
    case Some((_, p)) => Some(p)
    case None => url
  }

  /**
   * The request once prepare has parsed msg and a hook has run, on a request
   * whose method, path, url and authentication were verb, path, url and auth:
   * the fields prepare sets, with the path a hook's result may have replaced.
   */
  ghost predicate Prepared(req: Request<Hook>, msg: string, verb: Option<string>, path: Option<string>,
                           url: Option<string>, auth: Auth, routes: Routes<Hook>)
    reads req
  {
    var q := ParsedOf(msg, verb, path, routes);
    req.verb == q.verb && req.path == Handled(q).1 && req.url == UrlOf(msg, url)
    && req.headers == q.headers && req.cookies == map[] && req.body == q.body && req.hook == q.hook && req.auth == auth
  }

  /** The request and the response once handle_client has answered msg: prepared, and built by build_response. */
  ghost predicate Answered(req: Request<Hook>, resp: Response, msg: string, verb: Option<string>, path: Option<string>,
                           url: Option<string>, auth: Auth, routes: Routes<Hook>, env: Env)
    reads req, resp
  {
    Prepared(req, msg, verb, path, url, auth, routes)
    && Snapshot(resp.status, resp.reason, resp.headers, resp.content) == Outcome(msg, verb, path, routes, env).0
  }

  /** The bytes handle_client sends, for whatever the receive gave. */
  function Reply(r: Received, verb: Option<string>, path: Option<string>, routes: Routes<Hook>, env: Env): seq<byte> {
    match r
    case Failed => SERVER_ERROR_REPLY
    case Data(msg) => if msg == "" then [] else Exchange(msg, verb, path, routes, env)
  }

  // ---------------------------------------------------------------------
  // Properties of an exchange

  /** A message that parses to no route is answered by the static file server. */
  lemma NoHookServesStatic(msg: string, verb: Option<string>, path: Option<string>, routes: Routes<Hook>, env: Env)
    requires msg != "" && ParsedOf(msg, verb, path, routes).hook.None?
    ensures Reply(Data(msg), verb, path, routes, env) ==
      Serve(FRESH, ParsedOf(msg, verb, path, routes).path, ParsedOf(msg, verb, path, routes).headers, env).1
  {
  }

  /**
   * A first line of fewer than two words on a request object that never had
   * a path reaches build_response without one: the fixed 404 page is sent.
   */
  lemma UnparsedTargetNotFound(msg: string, verb: Option<string>, routes: Routes<Hook>, env: Env)
    requires msg != "" && Target(Split(msg, CRLF)).None?
    ensures Reply(Data(msg), verb, None, routes, env) == NotFoundPage()
  {
    NoPathNotFound(FRESH, ParsedOf(msg, verb, None, routes).headers, env);
  }

  /** A hook that raises is answered with status 500, reason OK, and the text Internal Server Error. */
  lemma HookErrorReply(msg: string, verb: Option<string>, path: Option<string>, routes: Routes<Hook>, env: Env)
    requires msg != ""
    requires var q := ParsedOf(msg, verb, path, routes); q.hook.Some? && q.hook.value(q.headers, q.body) == Raised
    ensures var q := ParsedOf(msg, verb, path, routes);
      Reply(Data(msg), verb, path, routes, env) ==
        Serialise(Snapshot(500, "OK", [("Content-Type", DEFAULT_CONTENT_TYPE)], Bytes(HOOK_ERROR_BODY)), q.headers, env.date)
  {
    var q := ParsedOf(msg, verb, path, routes);
    assert Handled(q).0 == Snapshot(500, "OK", [], Bytes(HOOK_ERROR_BODY));
  }

  /** A status of 401 from a hook always sends the fixed 401 page, whatever body it gave. */
  lemma HookUnauthorized(msg: string, verb: Option<string>, path: Option<string>, routes: Routes<Hook>, env: Env)
    requires msg != ""
    requires var q := ParsedOf(msg, verb, path, routes);
      q.hook.Some? && q.hook.value(q.headers, q.body).Returned? && q.hook.value(q.headers, q.body).status == Some(401)
    ensures Reply(Data(msg), verb, path, routes, env) == UnauthorizedPage()
  {
  }

  /** The dedicated cookie key wins over a Set-Cookie in the hook's headers. */
  lemma SetCookieWins(r: HookResult, s: Snapshot, path: Option<string>)
    requires r.Returned? && r.setCookie.Some?
    ensures Get(Apply(r, s, path).0.headers, "Set-Cookie") == r.setCookie
  {
    var s1 := if r.status.Some? then s.(status := r.status.value) else s;
    var s2 := if r.headers.Some? then s1.(headers := PutAll(s1.headers, r.headers.value)) else s1;
    PutGet(s2.headers, "Set-Cookie", r.setCookie.value, "Set-Cookie");
  }

  /** A header the hook returns is set on the response, unless it is Set-Cookie and a cookie was given too. */
  lemma HookHeaderSet(r: HookResult, s: Snapshot, path: Option<string>, k: string)
    requires r.Returned? && r.headers.Some? && k in Keys(r.headers.value)
    requires k == "Set-Cookie" ==> r.setCookie.None?
    ensures Get(Apply(r, s, path).0.headers, k) == Some(Latest(r.headers.value, k))
  {
    var s1 := if r.status.Some? then s.(status := r.status.value) else s;
    PutAllGet(s1.headers, r.headers.value, k);
    if r.setCookie.Some? {
      PutGet(PutAll(s1.headers, r.headers.value), "Set-Cookie", r.setCookie.value, k);
    }
  }

  /** Text a hook returns as its body is sent as its UTF-8 encoding. */
  lemma HookTextBody(r: HookResult, s: Snapshot, path: Option<string>)
    requires r.Returned? && r.body.Some? && r.body.value.Str?
    ensures Apply(r, s, path).0.content == Utf8Encode(r.body.value.text)
  {
  }

  /** A path a hook returns replaces the request path for the static file server. */
  lemma HookRedirectsPath(r: HookResult, s: Snapshot, path: Option<string>)
    requires r.Returned? && r.path.Some?
    ensures Apply(r, s, path).1 == r.path
  {
  }

  /** Only a dict changes the response or the path; an exception sets status 500 and the error text. */
  lemma NotADictChangesNothing(s: Snapshot, path: Option<string>)
    ensures Apply(NotADict, s, path) == (s, path)
    ensures Apply(Raised, s, path) == (s.(status := 500, content := Bytes(HOOK_ERROR_BODY)), path)
    ensures |Apply(Raised, s, path).0.content| == 21
  {
  }

  // ---------------------------------------------------------------------
  // The connection and the adapter

  /** The client socket: the bytes sent on it so far, and whether it was closed. */
  class Connection {
    var sent: seq<byte>
    var closed: bool

    constructor()
      ensures sent == [] && !closed
    {
      sent := [];
      closed := false;
    }

    /** conn.sendall(data) */
    method SendAll(data: seq<byte>)
      modifies this`sent
      ensures sent == old(sent) + data
    {
      sent := sent + data;
    }

    /** conn.close() */
    method Close()
      modifies this`closed
      ensures closed
    {
      closed := true;
    }
  }

  class Adapter {
    var conn: Connection
    var routes: Routes<Hook>
    const request: Request<Hook>
    var response: Response

    constructor(c: Connection, rs: Routes<Hook>)
      ensures conn == c && routes == rs && fresh(request) && fresh(response)
      ensures request.verb == None && request.path == None
    {
      conn := c;
      routes := rs;
      request := new Request();
      response := new Response();
    }

    /**
     * handle_client(conn, addr, routes): answers one message on conn and
     * closes it.  An empty message is answered with nothing; a failed
     * receive with the fixed 500 reply.
     */
    method HandleClient(c: Connection, received: Received, rs: Routes<Hook>, env: Env)
      modifies this`conn, this`response, c, request
      ensures conn == c && fresh(response)
      ensures c.sent == old(c.sent) + Reply(received, old(request.verb), old(request.path), rs, env)
      ensures c.closed
      ensures received.Data? && received.text != "" ==>
        Answered(request, response, received.text, old(request.verb), old(request.path), old(request.url), old(request.auth), rs, env)
      ensures !(received.Data? && received.text != "") ==>
        unchanged(request) && Snapshot(response.status, response.reason, response.headers, response.content) == FRESH
    {
      conn := c;
      var req := request;
      var resp := new Response();
      response := resp;
      if received.Failed? {
        c.SendAll(SERVER_ERROR_REPLY);
        c.Close();
        return;
      }
      var msg := received.text;
      if msg == "" {
        c.Close();
        return;
      }
      var out := Answer(req, resp, msg, rs, env);
      c.SendAll(out);
      c.Close();
    }
  }

  /** The body of handle_client for a non-empty message: prepare, run the hook, build the response. */
  method Answer(req: Request<Hook>, resp: Response, msg: string, rs: Routes<Hook>, env: Env) returns (out: seq<byte>)
    requires resp.status == 200 && resp.reason == "OK" && resp.headers == [] && resp.content == []
    modifies req, resp
    ensures out == Exchange(msg, old(req.verb), old(req.path), rs, env)
    ensures Answered(req, resp, msg, old(req.verb), old(req.path), old(req.url), old(req.auth), rs, env)
  {
    Dispatch(req, resp, msg, rs);
    out := resp.BuildResponse(req.path, req.headers, env);
  }

  /** The part of handle_client before build_response: prepare, then the hook and its result. */
  method Dispatch(req: Request<Hook>, resp: Response, msg: string, rs: Routes<Hook>)
    requires resp.status == 200 && resp.reason == "OK" && resp.headers == [] && resp.content == []
    modifies req, resp
    ensures Prepared(req, msg, old(req.verb), old(req.path), old(req.url), old(req.auth), rs)
    ensures Snapshot(resp.status, resp.reason, resp.headers, resp.content) == Handled(ParsedOf(msg, old(req.verb), old(req.path), rs)).0
  {
    ghost var q := ParsedOf(msg, req.verb, req.path, rs);
    ghost var url := UrlOf(msg, req.url);
    req.Prepare(msg, rs);
    assert req.verb == q.verb && req.path == q.path && req.hook == q.hook && req.url == url;
    assert req.headers == q.headers && req.body == q.body;
    if req.hook.Some? {
      var result := req.hook.value(req.headers, req.body);
      ApplyResult(resp, req, result);
    }
    assert (Snapshot(resp.status, resp.reason, resp.headers, resp.content), req.path) == Handled(q);
  }

  /** The part of handle_client that copies a hook's result onto the response and the request. */
  method ApplyResult(resp: Response, req: Request<Hook>, r: HookResult)
    modifies resp`status, resp`headers, resp`content, req`path
    ensures (Snapshot(resp.status, resp.reason, resp.headers, resp.content), req.path) ==
      Apply(r, Snapshot(old(resp.status), old(resp.reason), old(resp.headers), old(resp.content)), old(req.path))
  {
    match r
    case NotADict =>
    case Raised =>
      resp.status := 500;
      resp.content := Bytes(HOOK_ERROR_BODY);
    case Returned(st, hs, ck, b, p) =>
      if st.Some? {
        resp.status := st.value;
      }
      if hs.Some? {
        var merged := MergeHeaders(resp.headers, hs.value);
        resp.headers := merged;
      }
      if ck.Some? {
        resp.headers := Put(resp.headers, "Set-Cookie", ck.value);
      }
      if b.Some? {
        resp.content := BodyBytes(b.value);
      }
      if p.Some? {
        req.path := p;
      }
  }
}
