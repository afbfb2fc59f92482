/**
 * Backend: the cookie-login application.  GET /login serves the login
 * page; POST /login checks the form credentials and on success redirects
 * to /index.html with an auth cookie; / and /index.html serve the index
 * page only to a client presenting that cookie.
 *
 * Handlers return the dict the adapter merges into the response, here the
 * adapter's `HookResult`.  The www directory is a map from file name to
 * what reading it as UTF-8 text gives.
 */
module Backend {
  import opened Text
  import opened Assoc
  import opened Forms
  import opened HttpRequest
  import opened HttpResponse
  import opened HttpAdapter

  /** What reading a file of www/ gives: its text, or the message of the error raised. */
  datatype WwwFile = TextFile(text: string) | ReadFailure(error: string)

  datatype Handler = Index | LoginPage | LoginSubmit

  const AUTH_COOKIE: string := "auth=true; Path=/; HttpOnly"

  const DENIED_HTML: string := "<!DOCTYPE html><html><head><title>401 Unauthorized</title></head><body><h1>401 Unauthorized</h1><p>Access denied. Please <a href=\"/login\">login</a> first.</p></body></html>"

  /** What a handler returns: a status, optional headers, and a text body. */
  function Result(status: int, headers: Option<Entries<string, string>>, body: string): HookResult {
    Returned(Some(status), headers, None, Some(Str(body)), None)
  }

  /** The type serve_static_file announces, chosen by the file name's suffix. */
  function ContentTypeFor(filepath: string): (r: string)
    ensures r in ["text/html", "text/css", "application/javascript", "text/plain"]
    ensures r == "text/html" <==> EndsWith(filepath, ".html")
    ensures r == "text/css" <==> !EndsWith(filepath, ".html") && EndsWith(filepath, ".css")
    ensures r == "application/javascript" <==> !EndsWith(filepath, ".html") && !EndsWith(filepath, ".css") && EndsWith(filepath, ".js")
  {
    if EndsWith(filepath, ".html") then "text/html"
    else if EndsWith(filepath, ".css") then "text/css"
    else if EndsWith(filepath, ".js") then "application/javascript"
    else "text/plain"
  }

  /** serve_static_file(filepath): the file's text with its type, 404 when missing, 500 when unreadable. */
  function ServeStaticFile(filepath: string, www: map<string, WwwFile>): HookResult {
    if filepath !in www then Result(404, None, "404 Not Found")
    else match www[filepath]
      case TextFile(t) => Result(200, Some([("Content-Type", ContentTypeFor(filepath))]), t)
      case ReadFailure(e) => Result(500, None, "Internal Server Error: " + e)
  }

  /** handle_login_get: the login page. */
  function LoginGet(www: map<string, WwwFile>): HookResult {
    ServeStaticFile("login.html", www)
  }

  /** credentials.get(key, '') */
  function Lookup(d: map<string, string>, key: string): string {
    if key in d then d[key] else ""
  }

  /** The credentials of a login body: its form fields, none when it is missing or empty. */
  function Credentials(body: Option<string>): map<string, string> {
    if body.Some? && body.value != "" then Parse(Form, body.value) else map[]
  }

  const REDIRECT: HookResult :=
    Result(302, Some([("Location", "/index.html"), ("Set-Cookie", AUTH_COOKIE)]), "Redirecting...")

  const LOGIN_DENIED: HookResult := Result(401, None, "Invalid username or password")

  /** What handle_login_post answers to a body. */
  function LoginPostResult(body: Option<string>): HookResult {
    var creds := Credentials(body);
    if Lookup(creds, "username") == "admin" && Lookup(creds, "password") == "password" then REDIRECT
    else LOGIN_DENIED
  }

  /** The cookies of a request: its Cookie header's pairs, none when it has none. */
  function Cookies(headers: map<string, string>): map<string, string> {
    var c := if |headers| > 0 && "cookie" in headers then headers["cookie"] else "";
    if c != "" then Parse(Cookie, c) else map[]
  }

  /** What handle_index answers to request headers. */
  function IndexResult(headers: map<string, string>, www: map<string, WwwFile>): HookResult {
    var cookies := Cookies(headers);
    if "auth" in cookies && cookies["auth"] == "true" then ServeStaticFile("index.html", www)
    else Result(401, None, DENIED_HTML)
  }

  // ---------------------------------------------------------------------
  // The handlers

  /** handle_login_post: collects the form pairs, then checks them. */
  method HandleLoginPost(body: Option<string>) returns (r: HookResult)
    ensures r == LoginPostResult(body)
  {
    var credentials: map<string, string> := map[];
    if body.Some? && body.value != "" {
      var params := Split(body.value, "&");
      var i := 0;
      while i < |params|
        invariant 0 <= i <= |params|
        invariant credentials == Fold(Form, params[..i])
      {
        FoldStep(Form, params, i);
        var kv := SplitOnce(params[i], "=");
        if kv.Some? {
          credentials := credentials[Unquote(kv.value.0, false) := Unquote(kv.value.1, false)];
        }
        i := i + 1;
      }
      assert params[..i] == params;
    }
    var username := Lookup(credentials, "username");
    var password := Lookup(credentials, "password");
    if username == "admin" && password == "password" {
      r := REDIRECT;
    } else {
      r := LOGIN_DENIED;
    }
  }

  /** handle_index: collects the cookie pairs, then serves index.html to an authenticated client. */
  method HandleIndex(headers: map<string, string>, www: map<string, WwwFile>) returns (r: HookResult)
    ensures r == IndexResult(headers, www)
  {
    var cookies: map<string, string> := map[];
    var header := if |headers| > 0 && "cookie" in headers then headers["cookie"] else "";
    if header != "" {
      var pairs := Split(header, ";");
      var i := 0;
      while i < |pairs|
        invariant 0 <= i <= |pairs|
        invariant cookies == Fold(Cookie, pairs[..i])
      {
        FoldStep(Cookie, pairs, i);
        var pair := Strip(pairs[i]);
        var kv := SplitOnce(pair, "=");
        if kv.Some? {
          cookies := cookies[Strip(kv.value.0) := Strip(kv.value.1)];
        }
        i := i + 1;
      }
      assert pairs[..i] == pairs;
    }
    if "auth" in cookies && cookies["auth"] == "true" {
      r := ServeStaticFile("index.html", www);
    } else {
      r := Result(401, None, DENIED_HTML);
    }
  }

  /** The route table: path -> method -> handler. */
  const ROUTES: Routes<Handler> :=
    map["/" := map["GET" := Index], "/index.html" := map["GET" := Index],
        "/login" := map["GET" := LoginPage, "POST" := LoginSubmit]]

  /** The handler a route names, called with the request's headers and body. */
  function Run(h: Handler, headers: map<string, string>, body: Option<string>, www: map<string, WwwFile>): HookResult {
    match h
    case Index => IndexResult(headers, www)
    case LoginPage => LoginGet(www)
    case LoginSubmit => LoginPostResult(body)
  }

  /** The route table as the engine takes it: each route's handler, run against the www directory. */
  function App(www: map<string, WwwFile>): Routes<Hook> {
    map p | p in ROUTES :: map m | m in ROUTES[p] :: (hs: map<string, string>, b: Option<string>) => Run(ROUTES[p][m], hs, b, www)
  }

  // ---------------------------------------------------------------------
  // Properties

  /** A file missing from www/ ends, through the engine, in the fixed 404 page. */
  lemma MissingPageNotFound(filepath: string, www: map<string, WwwFile>, path: Option<string>, req: map<string, string>, env: Env)
    requires filepath !in www
    ensures var (s, p) := Apply(ServeStaticFile(filepath, www), FRESH, path); Build(s, p, req, env).1 == NotFoundPage()
  {
    var (s, p) := Apply(ServeStaticFile(filepath, www), FRESH, path);
    NotFoundSecond(s, p, req, env);
  }

  /** A readable file is answered with status 200, its suffix's type and its text as UTF-8. */
  lemma PageServed(filepath: string, www: map<string, WwwFile>, path: Option<string>)
    requires filepath in www && www[filepath].TextFile?
    ensures var s := Apply(ServeStaticFile(filepath, www), FRESH, path).0;
      s.status == 200 && Get(s.headers, "Content-Type") == Some(ContentTypeFor(filepath))
      && s.content == Utf8Encode(www[filepath].text)
  {
    var ct := ("Content-Type", ContentTypeFor(filepath));
    PutAllOne([], ct);
    PutGet([], ct.0, ct.1, "Content-Type");
  }

  /** A file that cannot be read is answered with status 500 and the error after a fixed prefix. */
  lemma PageReadError(filepath: string, www: map<string, WwwFile>, path: Option<string>)
    requires filepath in www && www[filepath].ReadFailure?
    ensures var s := Apply(ServeStaticFile(filepath, www), FRESH, path).0;
      s.status == 500 && s.content == Utf8Encode("Internal Server Error: " + www[filepath].error)
  {
  }

  /** Exactly four (path, method) pairs have a handler. */
  lemma RoutesResolve(p: string, m: string)
    ensures Route(ROUTES, Some(p), Some(m)) ==
      if (p == "/" || p == "/index.html") && m == "GET" then Some(Index)
      else if p == "/login" && m == "GET" then Some(LoginPage)
      else if p == "/login" && m == "POST" then Some(LoginSubmit)
      else None
  {
  }

  /**
   * The engine's table resolves exactly the routes of ROUTES, and each
   * resolved hook returns what its handler returns.
   */
  lemma AppRoutes(p: string, m: string, www: map<string, WwwFile>, headers: map<string, string>, body: Option<string>)
    ensures Route(App(www), Some(p), Some(m)).Some? <==> Route(ROUTES, Some(p), Some(m)).Some?
    ensures Route(App(www), Some(p), Some(m)).Some? ==>
      Route(App(www), Some(p), Some(m)).value(headers, body) == Run(Route(ROUTES, Some(p), Some(m)).value, headers, body, www)
    ensures p == "/login" && m == "POST" ==>
      Route(App(www), Some(p), Some(m)).value(headers, body) == LoginPostResult(body)
    ensures (p == "/" || p == "/index.html") && m == "GET" ==>
      Route(App(www), Some(p), Some(m)).value(headers, body) == IndexResult(headers, www)
  {
    RoutesResolve(p, m);
  }

  /** A `key=value` field whose key needs no decoding binds the key to the decoded value. */
  lemma FormField(key: string, v: string)
    requires '=' !in key && '%' !in key
    ensures Item(Form, key + "=" + v) == Some((key, Unquote(v, false)))
  {
    SplitOnceAt(key, "=", v);
    UnquotePlain(key, false);
  }

  /** Two fields joined by `&`, neither containing it, are two form items. */
  lemma FormFields(a: string, b: string)
    requires '&' !in a && '&' !in b
    ensures Fold(Form, Split(a + "&" + b, "&")) ==
      match Item(Form, b)
      case None => Fold(Form, [a])
      case Some((k, v)) => Fold(Form, [a])[k := v]
  {
    SplitCons(a, "&", b);
    SplitSingle(b, "&");
    var pieces := [a, b];
    assert Split(a + "&" + b, "&") == pieces;
    FoldStep(Form, pieces, 1);
    assert pieces[..2] == pieces;
    assert pieces[..1] == [a];
  }

  lemma SingleField(a: string)
    ensures Fold(Form, [a]) == match Item(Form, a) case None => map[] case Some((k, v)) => map[k := v]
  {
    FoldStep(Form, [a], 0);
    assert [a][..1] == [a];
    assert [a][..0] == [];
  }

  lemma NoAmpersand(key: string, v: string)
    requires '&' !in key && '&' !in v
    ensures '&' !in key + "=" + v
  {
    var s := key + "=" + v;
    forall i | 0 <= i < |s| ensures s[i] != '&' {
      if i < |key| { assert s[i] == key[i]; }
      else if i > |key| { assert s[i] == v[i - |key| - 1]; }
    }
  }

  /** Two `&`-joined fields with plain keys parse to both bindings, the second winning on a shared key. */
  lemma TwoFields(k1: string, v1: string, k2: string, v2: string)
    requires '=' !in k1 && '%' !in k1 && '&' !in k1 && '&' !in v1
    requires '=' !in k2 && '%' !in k2 && '&' !in k2 && '&' !in v2
    ensures Parse(Form, k1 + "=" + v1 + "&" + k2 + "=" + v2) == map[k1 := Unquote(v1, false)][k2 := Unquote(v2, false)]
  {
    var a := k1 + "=" + v1;
    var b := k2 + "=" + v2;
    assert k1 + "=" + v1 + "&" + k2 + "=" + v2 == a + "&" + b;
    NoAmpersand(k1, v1);
    NoAmpersand(k2, v2);
    FormField(k1, v1);
    FormField(k2, v2);
    SingleField(a);
    FormFields(a, b);
  }

  lemma PlainKey(k: string)
    requires forall i :: 0 <= i < |k| ==> 'a' <= k[i] <= 'z'
    ensures '=' !in k && '%' !in k && '&' !in k
  {
  }

  /** A two-field form is accepted exactly when its decoded fields are admin and password. */
  lemma LoginForm(u: string, p: string)
    requires '&' !in u && '&' !in p
    ensures LoginPostResult(Some("username=" + u + "&password=" + p)) ==
      if Unquote(u, false) == "admin" && Unquote(p, false) == "password" then REDIRECT else LOGIN_DENIED
  {
    assert "username=" + u + "&password=" + p == "username" + "=" + u + "&" + "password" + "=" + p;
    PlainKey("username");
    PlainKey("password");
    TwoFields("username", u, "password", p);
  }

  /** A request without cookies is refused with the 401 page of the application. */
  lemma NoCookieDenied(headers: map<string, string>, www: map<string, WwwFile>)
    requires "cookie" !in headers || headers["cookie"] == ""
    ensures IndexResult(headers, www) == Result(401, None, DENIED_HTML)
  {
  }

  /** A cookie whose last auth pair says true opens the index page. */
  lemma AuthCookieServesIndex(headers: map<string, string>, www: map<string, WwwFile>, j: nat)
    requires "cookie" in headers && headers["cookie"] != ""
    requires var pairs := Split(headers["cookie"], ";");
      j < |pairs| && Item(Cookie, pairs[j]) == Some(("auth", "true"))
      && forall i :: j < i < |pairs| ==> Item(Cookie, pairs[i]).None? || Item(Cookie, pairs[i]).value.0 != "auth"
    ensures IndexResult(headers, www) == ServeStaticFile("index.html", www)
  {
    FoldLatest(Cookie, Split(headers["cookie"], ";"), j);
  }

  /**
   * Through the adapter, the application's own 401 bodies never reach the
   * client: a 401 status always sends the engine's fixed 401 page, so
   * LOGIN_DENIED and the index refusal look the same on the wire.
   */
  lemma DenialsSendFixedPage(body: string, path: Option<string>, req: map<string, string>, env: Env)
    ensures var (s, p) := Apply(Result(401, None, body), FRESH, path); Build(s, p, req, env).1 == UnauthorizedPage()
  {
    var (s, p) := Apply(Result(401, None, body), FRESH, path);
    UnauthorizedFirst(s, p, req, env);
  }

  /** A successful login sets the cookie and the redirect target on the response, with status 302 and reason OK. */
  lemma RedirectResponse(path: Option<string>)
    ensures Apply(REDIRECT, FRESH, path).0.status == 302
    ensures Apply(REDIRECT, FRESH, path).0.reason == "OK"
    ensures Get(Apply(REDIRECT, FRESH, path).0.headers, "Location") == Some("/index.html")
    ensures Get(Apply(REDIRECT, FRESH, path).0.headers, "Set-Cookie") == Some(AUTH_COOKIE)
  {
    var hs := [("Location", "/index.html"), ("Set-Cookie", AUTH_COOKIE)];
    PutAllGet([], hs, "Location");
    PutAllGet([], hs, "Set-Cookie");
    LatestUnique(hs, "Location");
    LatestUnique(hs, "Set-Cookie");
  }
}
