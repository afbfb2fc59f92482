/**
 * HttpResponse: the response object of the engine.  A handler may already
 * have set a status, headers and content on it; `BuildResponse` then
 * serialises it, in a fixed order of priority: the fixed 401 page, the
 * fixed 404 page, the handler's content, and last a file served from disk
 * according to the MIME type of the request path.
 *
 * The file system, the clock and the MIME table are the environment `Env`:
 * a map from file path to what reading it gives, the text of the Date
 * header, and the table of file extensions to MIME types.
 */
module HttpResponse {
  import opened Text
  import opened Assoc

  /** What reading an existing path gives: its bytes, or a read error. */
  datatype FileState = Readable(data: seq<byte>) | Unreadable

  /**
   * baseDir is the project root with a trailing separator; types is the
   * extension table mimetypes consults; files are the paths that exist.
   * unlistable are existing paths on which os.listdir raises: regular
   * files, and directories that cannot be read.  A directory is in files
   * as Unreadable, since opening it raises (see EnvValid).
   */
  datatype Env = Env(baseDir: string, types: map<string, string>, files: map<string, FileState>,
                     unlistable: set<string>, date: string)

  /** Every path that cannot be listed exists. */
  predicate EnvValid(env: Env) {
    env.unlistable <= env.files.Keys
  }

  const OCTET_STREAM: string := "application/octet-stream"
  const DEFAULT_CONTENT_TYPE: string := "text/html; charset=utf-8"
  const NOT_FOUND_BODY: string := "404 Not Found"
  const READ_ERROR_BODY: string := "500 Internal Server Error"

  /** The header of the fixed 404 page; its body is NOT_FOUND_BODY. */
  const NOT_FOUND_HEAD: string :=
    "HTTP/1.1 404 Not Found\r\nAccept-Ranges: bytes\r\nContent-Type: text/html\r\nContent-Length: 13\r\nCache-Control: max-age=86000\r\nConnection: close\r\n\r\n"

  const UNAUTHORIZED_HTML: string :=
    "<!DOCTYPE html>\n    <html>\n    <head><title>401 Unauthorized</title></head>\n    <body>\n    <h1>401 Unauthorized</h1>\n    <p>Access denied. Please login first.</p>\n    </body>\n    </html>"

  // ---------------------------------------------------------------------
  // MIME types

  /**
   * The extension of the last path segment: from its last `.` to the end,
   * or nothing when that segment has no `.`.
   */
  function Extension(path: string): (r: string)
    ensures r == [] || (r[0] == '.' && EndsWith(path, r))
    ensures forall i :: 0 <= i < |r| ==> r[i] != '/'
    ensures forall i :: 1 <= i < |r| ==> r[i] != '.'
    decreases |path|
  {
    if path == [] then ""
    else
      var c := path[|path| - 1];
      if c == '/' then ""
      else if c == '.' then "."
      else
        var e := Extension(path[..|path| - 1]);
        if e == [] then "" else e + [c]
  }

  /** get_mime_type: the type the extension table gives, application/octet-stream when none. */
  function MimeType(types: map<string, string>, path: string): (r: string)
    ensures Extension(path) !in types || types[Extension(path)] == "" ==> r == OCTET_STREAM
    ensures Extension(path) in types && types[Extension(path)] != "" ==> r == types[Extension(path)]
  {
    var e := Extension(path);
    if e in types && types[e] != "" then types[e] else OCTET_STREAM
  }

  /** The types build_response serves from disk, and the type it hands to prepare_content_type. */
  function StaticType(path: string, mime: string): Option<string> {
    if EndsWith(path, ".html") || mime == "text/html" then Some("text/html")
    else if mime == "text/css" then Some("text/css")
    else if mime in ["image/png", "image/jpeg", "image/gif"] then Some(mime)
    else if mime in ["application/json", "application/xml", "application/zip"] then Some(mime)
    else None
  }

  /**
   * The headers prepare_content_type sets for a type main/sub, in the order
   * it sets them.  A text type it then rejects has already set its Content-Type.
   */
  function TypeHeaders(main: string, sub: string): Entries<string, string> {
    if main == "text" then [("Content-Type", main + "/" + sub)]
    else if main == "image" then
      [("Content-Type", main + "/" + sub), ("Cache-Control", "public, max-age=31536000"), ("Accept-Ranges", "bytes")]
    else if main == "application" then [("Content-Type", main + "/" + sub)]
    else if main == "video" then [("Content-Type", main + "/" + sub)]
    else []
  }

  /** The directory prepare_content_type picks for main/sub; None where it raises ValueError. */
  function TypeRoot(main: string, sub: string, baseDir: string): Option<string> {
    if main == "text" then
      if sub == "css" then Some(baseDir)
      else if sub == "html" then Some(baseDir + "www/")
      else if sub in ["plain", "csv", "xml"] then Some(baseDir + "static/")
      else None
    else if main == "image" then Some(baseDir)
    else if main == "application" then Some(baseDir + "apps/")
    else if main == "video" then Some(baseDir + "static/")
    else None
  }

  /** prepare_content_type's headers: the type is split on its first `/`; without one nothing is set. */
  function ContentTypeHeaders(mime: string): Entries<string, string> {
    match SplitOnce(mime, "/")
    case None => []
    case Some((main, sub)) => TypeHeaders(main, sub)
  }

  /** prepare_content_type's directory; None where it raises ValueError. */
  function ContentRoot(mime: string, baseDir: string): Option<string> {
    match SplitOnce(mime, "/")
    case None => None
    case Some((main, sub)) => TypeRoot(main, sub, baseDir)
  }

  /** A type is read as its part before the first `/` and the rest. */
  lemma MimeParts(main: string, sub: string)
    requires '/' !in main
    ensures SplitOnce(main + "/" + sub, "/") == Some((main, sub))
  {
    SplitOnceAt(main, "/", sub);
  }

  /** A type with a known main part is written back unchanged as the Content-Type. */
  lemma ContentTypeIsMime(main: string, sub: string)
    requires main == "text" || main == "image" || main == "application" || main == "video"
    ensures |ContentTypeHeaders(main + "/" + sub)| >= 1
    ensures ContentTypeHeaders(main + "/" + sub)[0] == ("Content-Type", main + "/" + sub)
  {
    MimeParts(main, sub);
  }

  /** A type without `/` sets nothing and fails. */
  lemma ContentTypeNeedsSlash(mime: string, baseDir: string)
    requires !Contains(mime, "/")
    ensures ContentTypeHeaders(mime) == [] && ContentRoot(mime, baseDir) == None
  {
  }

  /** The directory of each type build_response serves from disk. */
  function StaticRoot(m: string, baseDir: string): string {
    if m == "text/html" then baseDir + "www/"
    else if m == "text/css" || m in ["image/png", "image/jpeg", "image/gif"] then baseDir
    else baseDir + "apps/"
  }

  /** Every type build_response serves from disk has its directory, and prepare_content_type does not raise. */
  lemma StaticTypesHaveRoot(path: string, mime: string, baseDir: string)
    requires StaticType(path, mime).Some?
    ensures ContentRoot(StaticType(path, mime).value, baseDir) == Some(StaticRoot(StaticType(path, mime).value, baseDir))
  {
    var m := StaticType(path, mime).value;
    if m == "text/html" || m == "text/css" {
      TextRoot(m, baseDir);
    } else if m == "image/png" || m == "image/jpeg" || m == "image/gif" {
      ImageTypeRoot(m, baseDir);
    } else {
      ApplicationTypeRoot(m, baseDir);
    }
  }

  lemma ImageTypeRoot(m: string, baseDir: string)
    requires m == "image/png" || m == "image/jpeg" || m == "image/gif"
    ensures ContentRoot(m, baseDir) == Some(StaticRoot(m, baseDir))
  {
    if m == "image/png" {
      BinaryRoot("image", "png", baseDir);
      assert "image" + "/" + "png" == "image/png";
    } else if m == "image/jpeg" {
      BinaryRoot("image", "jpeg", baseDir);
      assert "image" + "/" + "jpeg" == "image/jpeg";
    } else {
      BinaryRoot("image", "gif", baseDir);
      assert "image" + "/" + "gif" == "image/gif";
    }
  }

  lemma ApplicationTypeRoot(m: string, baseDir: string)
    requires m == "application/json" || m == "application/xml" || m == "application/zip"
    ensures ContentRoot(m, baseDir) == Some(StaticRoot(m, baseDir))
  {
    if m == "application/json" {
      BinaryRoot("application", "json", baseDir);
      assert "application" + "/" + "json" == "application/json";
    } else if m == "application/xml" {
      BinaryRoot("application", "xml", baseDir);
      assert "application" + "/" + "xml" == "application/xml";
    } else {
      BinaryRoot("application", "zip", baseDir);
      assert "application" + "/" + "zip" == "application/zip";
    }
  }

  lemma TextRoot(m: string, baseDir: string)
    requires m == "text/html" || m == "text/css"
    ensures ContentRoot(m, baseDir) == Some(StaticRoot(m, baseDir))
  {
    if m == "text/html" {
      MimeParts("text", "html");
      assert "text" + "/" + "html" == "text/html";
    } else {
      MimeParts("text", "css");
      assert "text" + "/" + "css" == "text/css";
    }
  }

  /**
   * The image types are read under the root and the application types
   * under `apps/`, both by their main part.
   */
  lemma BinaryRoot(main: string, sub: string, baseDir: string)
    requires (main == "image" && (sub == "png" || sub == "jpeg" || sub == "gif"))
      || (main == "application" && (sub == "json" || sub == "xml" || sub == "zip"))
    ensures ContentRoot(main + "/" + sub, baseDir) == Some(if main == "image" then baseDir else baseDir + "apps/")
  {
    MimeParts(main, sub);
  }

  // ---------------------------------------------------------------------
  // Files

  /** The request path as a path below the directory: leading `/` dropped, index.html for the root, one `www/` dropped. */
  function RelPath(path: string): string {
    var r := LStripChar(path, '/');
    var r' := if r == "" then "index.html" else r;
    if StartsWith(r', "www/") then r'[4..] else r'
  }

  function Slashes(n: nat): (r: string)
    ensures |r| == n && forall i :: 0 <= i < n ==> r[i] == '/'
  {
    seq(n, _ => '/')
  }

  /** Stripping `/` takes away exactly the leading slashes. */
  lemma {:induction false} LStripSlashes(n: nat, p: string)
    requires p == [] || p[0] != '/'
    ensures LStripChar(Slashes(n) + p, '/') == p
    decreases n
  {
    if n > 0 {
      assert (Slashes(n) + p)[1..] == Slashes(n - 1) + p;
      LStripSlashes(n - 1, p);
    } else {
      assert Slashes(0) + p == p;
    }
  }

  /**
   * Any request path is some run of slashes followed by a rest q that does
   * not start with one; the relative path is index.html for an empty q, q
   * without its `www/` prefix, or q itself.
   */
  lemma RelPathOf(n: nat, q: string)
    requires q == [] || q[0] != '/'
    ensures q == [] ==> RelPath(Slashes(n) + q) == "index.html"
    ensures StartsWith(q, "www/") ==> RelPath(Slashes(n) + q) == q[4..]
    ensures q != [] && !StartsWith(q, "www/") ==> RelPath(Slashes(n) + q) == q
  {
    LStripSlashes(n, q);
    assert !StartsWith("index.html", "www/") by {
      assert "index.html"[0] != "www/"[0];
    }
  }

  /** The root path `/` is read as index.html in the directory. */
  lemma RootIsIndex(baseDir: string)
    ensures FilePath("/", baseDir) == PathJoin(baseDir, "index.html")
  {
    assert "/" == Slashes(1) + "";
    RelPathOf(1, "");
  }

  /** os.path.join(a, b) on POSIX: an absolute b replaces a. */
  function PathJoin(a: string, b: string): string {
    if StartsWith(b, "/") then b
    else if a == "" || EndsWith(a, "/") then a + b
    else a + "/" + b
  }

  function FilePath(path: string, baseDir: string): string {
    PathJoin(baseDir, RelPath(path))
  }

  /** The part of p up to and including its last `/`, or empty when it has none. */
  function Head(p: string): (h: string)
    ensures h == [] || (h[|h| - 1] == '/' && h <= p)
    decreases |p|
  {
    if p == [] then ""
    else if p[|p| - 1] == '/' then p
    else Head(p[..|p| - 1])
  }

  /** s without its trailing `/` characters. */
  function RStripSlash(s: string): (r: string)
    ensures r <= s && (r == [] || r[|r| - 1] != '/')
    decreases |s|
  {
    if s != [] && s[|s| - 1] == '/' then RStripSlash(s[..|s| - 1]) else s
  }

  predicate AllSlashes(s: string) {
    forall i :: 0 <= i < |s| ==> s[i] == '/'
  }

  /** os.path.dirname on POSIX: the head without its trailing slashes, unless it is all slashes. */
  function Dirname(p: string): string {
    var h := Head(p);
    if h != "" && !AllSlashes(h) then RStripSlash(h) else h
  }

  /**
   * The diagnostic listing of the parent of a missing file raises: the
   * parent exists (`os.path.exists("")` is false) and cannot be listed.
   */
  predicate ListingFails(env: Env, f: string) {
    Dirname(f) != "" && Dirname(f) in env.unlistable
  }

  /** build_content cannot read f: f cannot be read, or f is missing and listing its parent raises. */
  predicate ReadFails(env: Env, f: string) {
    if f in env.files then env.files[f] == Unreadable else ListingFails(env, f)
  }

  /** build_content finds nothing at f: f is missing (and its parent listing succeeds) or empty. */
  predicate NothingAt(env: Env, f: string) {
    if f in env.files then env.files[f] == Readable([]) else !ListingFails(env, f)
  }

  /**
   * build_content: the length and the bytes served for a path.  A missing
   * file is length 0 with the text 404 Not Found.  A read error is the
   * 25-byte text 500 Internal Server Error with its true length; so is a
   * missing file whose parent exists but cannot be listed, because the
   * diagnostic os.listdir raises inside the same try.
   */
  function BuildContent(env: Env, path: string, baseDir: string): (r: (nat, seq<byte>))
    ensures r.0 == 0 <==> NothingAt(env, FilePath(path, baseDir))
    ensures ReadFails(env, FilePath(path, baseDir)) ==> r == (25, Bytes(READ_ERROR_BODY))
    ensures r.0 != 0 ==> r.0 == |r.1|
  {
    var f := FilePath(path, baseDir);
    if f !in env.files then
      if ListingFails(env, f) then (|Bytes(READ_ERROR_BODY)|, Bytes(READ_ERROR_BODY))
      else (0, Bytes(NOT_FOUND_BODY))
    else match env.files[f]
      case Readable(data) => (|data|, data)
      case Unreadable => (|Bytes(READ_ERROR_BODY)|, Bytes(READ_ERROR_BODY))
  }

  /**
   * The parent of `d/name` is d, for a file name without `/` and a
   * directory that is not empty and does not end in `/`.
   */
  lemma {:induction false} DirnameOfJoin(d: string, name: string)
    requires d != [] && d[|d| - 1] != '/'
    requires forall i :: 0 <= i < |name| ==> name[i] != '/'
    ensures Dirname(d + "/" + name) == d
  {
    HeadOfJoin(d, name);
    var h := d + "/";
    assert !AllSlashes(h) by { assert h[|d| - 1] != '/'; }
    assert h[..|h| - 1] == d;
    assert RStripSlash(h) == RStripSlash(d);
  }

  lemma {:induction false} HeadOfJoin(d: string, name: string)
    requires forall i :: 0 <= i < |name| ==> name[i] != '/'
    ensures Head(d + "/" + name) == d + "/"
    decreases |name|
  {
    if name != [] {
      var p := d + "/" + name;
      assert p[|p| - 1] == name[|name| - 1];
      assert p[..|p| - 1] == d + "/" + name[..|name| - 1];
      HeadOfJoin(d, name[..|name| - 1]);
    }
  }

  /** A readable non-empty file is served whole. */
  lemma ContentOfFile(env: Env, path: string, baseDir: string)
    requires FilePath(path, baseDir) in env.files
    requires env.files[FilePath(path, baseDir)].Readable? && env.files[FilePath(path, baseDir)].data != []
    ensures BuildContent(env, path, baseDir).0 != 0
    ensures BuildContent(env, path, baseDir).1 == env.files[FilePath(path, baseDir)].data
  {
  }

  /**
   * A read error serves the 25-byte error text, with a non-zero length;
   * so does a missing file whose parent cannot be listed.
   */
  lemma ContentOfReadError(env: Env, path: string, baseDir: string)
    requires ReadFails(env, FilePath(path, baseDir))
    ensures BuildContent(env, path, baseDir) == (25, Bytes(READ_ERROR_BODY))
  {
  }

  // ---------------------------------------------------------------------
  // The header block

  /** status or 200 */
  function StatusOr200(status: int): int {
    if status == 0 then 200 else status
  }

  /** reason or "OK" */
  function ReasonOrOK(reason: string): string {
    if reason == "" then "OK" else reason
  }

  function StatusLine(status: int, reason: string): string {
    "HTTP/1.1 " + IntToString(StatusOr200(status)) + " " + ReasonOrOK(reason) + CRLF
  }

  /** The fixed header set, echoing three request headers (looked up case-insensitively). */
  function DefaultHeaders(req: map<string, string>, own: Entries<string, string>, contentLength: nat, date: string): Entries<string, string> {
    [ ("Accept", if "accept" in req then req["accept"] else "application/json"),
      ("Accept-Language", if "accept-language" in req then req["accept-language"] else "en-US,en;q=0.9"),
      ("Authorization", if "authorization" in req then req["authorization"] else "Basic <credentials>"),
      ("Cache-Control", "no-cache"),
      ("Content-Type", GetOr(own, "Content-Type", DEFAULT_CONTENT_TYPE)),
      ("Content-Length", NatToString(contentLength)),
      ("Date", date),
      ("Connection", "close"),
      ("Server", "WeApRous-HTTP-Server/1.0") ]
  }

  /** One `name: value` line per entry, in order. */
  function HeaderLines(e: Entries<string, string>): string {
    if e == [] then ""
    else HeaderLines(e[..|e| - 1]) + e[|e| - 1].0 + ": " + e[|e| - 1].1 + CRLF
  }

  /** The header set sent: the defaults, then the response's own headers merged over them. */
  function SentHeaders(req: map<string, string>, own: Entries<string, string>, contentLength: nat, date: string): Entries<string, string> {
    PutAll(DefaultHeaders(req, own, contentLength, date), own)
  }

  /** build_response_header, before encoding */
  function HeaderBlock(status: int, reason: string, req: map<string, string>, own: Entries<string, string>, contentLength: nat, date: string): string {
    StatusLine(status, reason) + HeaderLines(SentHeaders(req, own, contentLength, date)) + CRLF
  }

  /** A header of the response's own wins over the default of the same name; the others keep their default. */
  lemma {:induction false} SentHeaderValue(req: map<string, string>, own: Entries<string, string>, contentLength: nat, date: string, k: string)
    requires UniqueKeys(own)
    ensures Get(SentHeaders(req, own, contentLength, date), k) ==
      if k in Keys(own) then Get(own, k) else Get(DefaultHeaders(req, own, contentLength, date), k)
  {
    PutAllGet(DefaultHeaders(req, own, contentLength, date), own, k);
    if k in Keys(own) {
      LatestUnique(own, k);
    }
  }

  /** The defaults come first, in their fixed order, and no name is sent twice. */
  lemma SentHeaderOrder(req: map<string, string>, own: Entries<string, string>, contentLength: nat, date: string)
    ensures |SentHeaders(req, own, contentLength, date)| >= 9
    ensures Keys(SentHeaders(req, own, contentLength, date))[..9] ==
      ["Accept", "Accept-Language", "Authorization", "Cache-Control", "Content-Type", "Content-Length", "Date", "Connection", "Server"]
    ensures UniqueKeys(SentHeaders(req, own, contentLength, date))
  {
    var d := DefaultHeaders(req, own, contentLength, date);
    PutAllKeepsOrder(d, own);
    DefaultsUnique(req, own, contentLength, date);
    PutAllUnique(d, own);
  }

  /** The Content-Type sent is the response's own when it has one, the HTML default otherwise. */
  lemma SentContentType(req: map<string, string>, own: Entries<string, string>, contentLength: nat, date: string)
    requires UniqueKeys(own)
    ensures Get(SentHeaders(req, own, contentLength, date), "Content-Type") ==
      Some(if "Content-Type" in Keys(own) then Get(own, "Content-Type").value else DEFAULT_CONTENT_TYPE)
  {
    var d := DefaultHeaders(req, own, contentLength, date);
    SentHeaderValue(req, own, contentLength, date, "Content-Type");
    if "Content-Type" !in Keys(own) {
      DefaultsUnique(req, own, contentLength, date);
      GetFirst(d, 4);
      assert GetOr(own, "Content-Type", DEFAULT_CONTENT_TYPE) == DEFAULT_CONTENT_TYPE;
    }
  }

  /** The default header names are distinct. */
  lemma DefaultsUnique(req: map<string, string>, own: Entries<string, string>, contentLength: nat, date: string)
    ensures UniqueKeys(DefaultHeaders(req, own, contentLength, date))
    ensures Keys(DefaultHeaders(req, own, contentLength, date)) ==
      ["Accept", "Accept-Language", "Authorization", "Cache-Control", "Content-Type", "Content-Length", "Date", "Connection", "Server"]
  {
  }

  /** Without a reason of its own, any status goes out with the reason OK. */
  lemma StatusLineReason(status: int)
    ensures StatusLine(status, "") == "HTTP/1.1 " + IntToString(StatusOr200(status)) + " OK" + CRLF
  {
  }

  // ---------------------------------------------------------------------
  // The fixed pages

  /** build_notfound */
  function NotFoundPage(): seq<byte> {
    Bytes(NOT_FOUND_HEAD + NOT_FOUND_BODY)
  }

  function UnauthorizedHead(): string {
    "HTTP/1.1 401 Unauthorized\r\nContent-Type: text/html\r\nContent-Length: "
    + NatToString(|Bytes(UNAUTHORIZED_HTML)|) + "\r\nConnection: close\r\n\r\n"
  }

  /** build_unauthorized */
  function UnauthorizedPage(): seq<byte> {
    Bytes(UnauthorizedHead()) + Bytes(UNAUTHORIZED_HTML)
  }

  /** The 404 page announces 13 bytes of content and carries exactly the 13 bytes of its body last. */
  lemma NotFoundLength()
    ensures |Bytes(NOT_FOUND_BODY)| == 13 && |NotFoundPage()| >= 13
    ensures NotFoundPage()[|NotFoundPage()| - 13..] == Bytes(NOT_FOUND_BODY)
  {
    BytesAppend(NOT_FOUND_HEAD, NOT_FOUND_BODY);
  }

  /** The 401 page announces, in decimal, the byte length of the HTML that follows its header. */
  lemma UnauthorizedLength()
    ensures DigitsValue(NatToString(|Bytes(UNAUTHORIZED_HTML)|)) == |Bytes(UNAUTHORIZED_HTML)|
    ensures UnauthorizedPage()[|Bytes(UnauthorizedHead())|..] == Bytes(UNAUTHORIZED_HTML)
  {
    DigitsValueOfNat(|Bytes(UNAUTHORIZED_HTML)|);
  }

  // ---------------------------------------------------------------------
  // build_response

  /** The parts of a response build_response reads and writes. */
  datatype Snapshot = Snapshot(status: int, reason: string, headers: Entries<string, string>, content: seq<byte>)

  /** The response bytes for a finished snapshot: its header block, then its content. */
  function Serialise(s: Snapshot, req: map<string, string>, date: string): seq<byte> {
    Utf8Encode(HeaderBlock(s.status, s.reason, req, s.headers, |s.content|, date)) + s.content
  }

  /**
   * build_response: the snapshot after the call and the bytes it returns,
   * for the request's path and headers.  A request without a path fails on
   * `path.endswith` before anything is changed, and the exception handler
   * returns the fixed 404 page.
   */
  function Build(s: Snapshot, path: Option<string>, req: map<string, string>, env: Env): (Snapshot, seq<byte>) {
    if s.status == 401 then (s, UnauthorizedPage())
    else if s.status == 404 then (s, NotFoundPage())
    else Serve(s, path, req, env)
  }

  /** build_response past the fixed pages: the handler's content if any, else the static file. */
  function Serve(s: Snapshot, path: Option<string>, req: map<string, string>, env: Env): (Snapshot, seq<byte>) {
    if s.content != [] then
      var hs := if "Content-Type" in Keys(s.headers) then s.headers else Put(s.headers, "Content-Type", DEFAULT_CONTENT_TYPE);
      Send(s.(headers := hs), req, env.date)
    else if path.None? then (s, NotFoundPage())
    else ServeStatic(s, path.value, req, env)
  }

  /** The last step of both serving branches: status or 200, reason or OK, then the header block and the content. */
  function Send(s: Snapshot, req: map<string, string>, date: string): (Snapshot, seq<byte>) {
    var t := Snapshot(StatusOr200(s.status), ReasonOrOK(s.reason), s.headers, s.content);
    (t, Serialise(t, req, date))
  }

  /** The static branch of build_response: the file of the path's type, read from its directory. */
  function ServeStatic(s: Snapshot, p: string, req: map<string, string>, env: Env): (Snapshot, seq<byte>) {
    match StaticType(p, MimeType(env.types, p))
    case None => (s, NotFoundPage())
    case Some(m) =>
      var hs := PutAll(s.headers, ContentTypeHeaders(m));
      var root := match ContentRoot(m, env.baseDir) case Some(d) => d case None => "";
      ServeContent(s.(headers := hs), BuildContent(env, p, root), req, env.date)
  }

  /** What build_content gave is sent, unless its length is 0: then the 404 page. */
  function ServeContent(s: Snapshot, c: (nat, seq<byte>), req: map<string, string>, date: string): (Snapshot, seq<byte>) {
    if c.0 == 0 then (s.(content := c.1), NotFoundPage())
    else Send(s.(content := c.1), req, date)
  }

  /** A 401 is always the fixed page: the handler's content and headers are not sent. */
  lemma UnauthorizedFirst(s: Snapshot, path: Option<string>, req: map<string, string>, env: Env)
    requires s.status == 401
    ensures Build(s, path, req, env) == (s, UnauthorizedPage())
  {
  }

  /** A 404 is always the fixed page. */
  lemma NotFoundSecond(s: Snapshot, path: Option<string>, req: map<string, string>, env: Env)
    requires s.status == 404
    ensures Build(s, path, req, env) == (s, NotFoundPage())
  {
  }

  /**
   * Content set by a handler is sent after the header block, with no file
   * lookup; the Content-Type defaults to HTML only when the handler set none.
   */
  lemma HandlerContent(s: Snapshot, path: Option<string>, req: map<string, string>, env: Env)
    requires s.status != 401 && s.status != 404 && s.content != [] && UniqueKeys(s.headers)
    ensures var (t, out) := Build(s, path, req, env);
      out == Utf8Encode(HeaderBlock(t.status, t.reason, req, t.headers, |s.content|, env.date)) + s.content
      && t.content == s.content
      && Get(SentHeaders(req, t.headers, |s.content|, env.date), "Content-Type") ==
         Some(if "Content-Type" in Keys(s.headers) then Get(s.headers, "Content-Type").value else DEFAULT_CONTENT_TYPE)
  {
    var t := Build(s, path, req, env).0;
    if "Content-Type" !in Keys(s.headers) {
      PutUnique(s.headers, "Content-Type", DEFAULT_CONTENT_TYPE);
      PutGet(s.headers, "Content-Type", DEFAULT_CONTENT_TYPE, "Content-Type");
    }
    SentContentType(req, t.headers, |s.content|, env.date);
  }

  /** A path whose file is missing or empty gets the 404 page, never an empty 200. */
  lemma MissingFileNotFound(s: Snapshot, p: string, m: string, req: map<string, string>, env: Env)
    requires s.status != 401 && s.status != 404 && s.content == []
    requires StaticType(p, MimeType(env.types, p)) == Some(m)
    requires NothingAt(env, FilePath(p, StaticRoot(m, env.baseDir)))
    ensures Build(s, Some(p), req, env).1 == NotFoundPage()
  {
    StaticTypesHaveRoot(p, MimeType(env.types, p), env.baseDir);
  }

  /**
   * Without content and without a path, build_response fails on the path and
   * its exception handler sends the fixed 404 page, the response unchanged.
   */
  lemma NoPathNotFound(s: Snapshot, req: map<string, string>, env: Env)
    requires s.status != 401 && s.status != 404 && s.content == []
    ensures Build(s, None, req, env) == (s, NotFoundPage())
  {
  }

  /** A path of a type not served from disk gets the 404 page. */
  lemma UnservedTypeNotFound(s: Snapshot, p: string, req: map<string, string>, env: Env)
    requires s.status != 401 && s.status != 404 && s.content == []
    requires StaticType(p, MimeType(env.types, p)).None?
    ensures Build(s, Some(p), req, env) == (s, NotFoundPage())
  {
  }

  /**
   * A file that cannot be read, or a missing file whose parent cannot be
   * listed, is served as a normal response with the status the response
   * already had (200 unless a handler set another), carrying the 25-byte
   * error text as its content.
   */
  lemma ReadErrorServed(s: Snapshot, p: string, m: string, req: map<string, string>, env: Env)
    requires s.status != 401 && s.status != 404 && s.content == []
    requires StaticType(p, MimeType(env.types, p)) == Some(m)
    requires ReadFails(env, FilePath(p, StaticRoot(m, env.baseDir)))
    ensures Build(s, Some(p), req, env).0.status == StatusOr200(s.status)
    ensures Build(s, Some(p), req, env).0.content == Bytes(READ_ERROR_BODY)
    ensures |Build(s, Some(p), req, env).0.content| == 25
    ensures Build(s, Some(p), req, env).1 == Serialise(Build(s, Some(p), req, env).0, req, env.date)
  {
    StaticTypesHaveRoot(p, MimeType(env.types, p), env.baseDir);
    ContentOfReadError(env, p, StaticRoot(m, env.baseDir));
  }

  /**
   * A missing file `d/name` whose directory d exists but is a regular file
   * (or cannot be read) is not a 404: the diagnostic listing of d raises,
   * and the 25-byte error text is served under status 200.
   */
  lemma MissingUnderFileServed(p: string, m: string, d: string, name: string, req: map<string, string>, env: Env)
    requires StaticType(p, MimeType(env.types, p)) == Some(m)
    requires FilePath(p, StaticRoot(m, env.baseDir)) == d + "/" + name
    requires d != [] && d[|d| - 1] != '/' && forall i :: 0 <= i < |name| ==> name[i] != '/'
    requires EnvValid(env) && d + "/" + name !in env.files && d in env.unlistable
    ensures Build(Snapshot(200, "OK", [], []), Some(p), req, env).0.status == 200
    ensures Build(Snapshot(200, "OK", [], []), Some(p), req, env).0.content == Bytes(READ_ERROR_BODY)
    ensures Build(Snapshot(200, "OK", [], []), Some(p), req, env).1 != NotFoundPage()
  {
    DirnameOfJoin(d, name);
    ReadErrorServed(Snapshot(200, "OK", [], []), p, m, req, env);
    ErrorTextNotFoundPage(Build(Snapshot(200, "OK", [], []), Some(p), req, env).0, req, env.date);
  }

  /** A reply carrying the 25-byte error text is not the 404 page: it ends in `r`, the page in `d`. */
  lemma ErrorTextNotFoundPage(t: Snapshot, req: map<string, string>, date: string)
    requires t.content == Bytes(READ_ERROR_BODY)
    ensures Serialise(t, req, date) != NotFoundPage()
  {
    var out := Serialise(t, req, date);
    NotFoundLength();
    assert out[|out| - 1] == t.content[24] == 'r' as int;
    assert NotFoundPage()[|NotFoundPage()| - 1] == Bytes(NOT_FOUND_BODY)[12] == 'd' as int;
  }

  /** A readable non-empty file is served whole, after its header block. */
  lemma FileServed(s: Snapshot, p: string, m: string, req: map<string, string>, env: Env)
    requires s.status != 401 && s.status != 404 && s.content == []
    requires StaticType(p, MimeType(env.types, p)) == Some(m)
    requires var f := FilePath(p, StaticRoot(m, env.baseDir));
      f in env.files && env.files[f].Readable? && env.files[f].data != []
    ensures var (t, out) := Build(s, Some(p), req, env);
      t.content == env.files[FilePath(p, StaticRoot(m, env.baseDir))].data
      && t.headers == PutAll(s.headers, ContentTypeHeaders(m))
      && out == Serialise(t, req, env.date)
  {
    StaticTypesHaveRoot(p, MimeType(env.types, p), env.baseDir);
    ContentOfFile(env, p, StaticRoot(m, env.baseDir));
  }

  /** An HTML page is looked up under www/ of the project root. */
  lemma HtmlFromWww(p: string, types: map<string, string>, baseDir: string)
    requires EndsWith(p, ".html")
    ensures StaticType(p, MimeType(types, p)) == Some("text/html")
    ensures StaticRoot("text/html", baseDir) == baseDir + "www/"
  {
  }

  // ---------------------------------------------------------------------
  // The response object

  class Response {
    var status: int
    var reason: string
    var headers: Entries<string, string>
    /** `_content`; empty stands for both False (the initial value) and b'' */
    var content: seq<byte>

    constructor()
      ensures status == 200 && reason == "OK" && headers == [] && content == []
    {
      status := 200;
      reason := "OK";
      headers := [];
      content := [];
    }

    /** prepare_content_type: sets the type's headers and answers its directory; None where it raises. */
    method PrepareContentType(mime: string, baseDir: string) returns (root: Option<string>)
      modifies this`headers
      ensures headers == PutAll(old(headers), ContentTypeHeaders(mime))
      ensures root == ContentRoot(mime, baseDir)
    {
      var parts := SplitOnce(mime, "/");
      if parts.None? {
        return None;
      }
      var main, sub := parts.value.0, parts.value.1;
      if main == "text" {
        PutAllOne(headers, ("Content-Type", main + "/" + sub));
        headers := Put(headers, "Content-Type", main + "/" + sub);
        if sub == "css" {
          root := Some(baseDir);
        } else if sub == "html" {
          root := Some(baseDir + "www/");
        } else if sub == "plain" || sub == "csv" || sub == "xml" {
          root := Some(baseDir + "static/");
        } else {
          root := None;
        }
      } else if main == "image" {
        root := Some(baseDir);
        PutAllThree(headers, ("Content-Type", main + "/" + sub), ("Cache-Control", "public, max-age=31536000"), ("Accept-Ranges", "bytes"));
        headers := Put(headers, "Content-Type", main + "/" + sub);
        headers := Put(headers, "Cache-Control", "public, max-age=31536000");
        headers := Put(headers, "Accept-Ranges", "bytes");
      } else if main == "application" {
        root := Some(baseDir + "apps/");
        PutAllOne(headers, ("Content-Type", main + "/" + sub));
        headers := Put(headers, "Content-Type", main + "/" + sub);
      } else if main == "video" {
        root := Some(baseDir + "static/");
        PutAllOne(headers, ("Content-Type", main + "/" + sub));
        headers := Put(headers, "Content-Type", main + "/" + sub);
      } else {
        root := None;
      }
    }

    /** build_response_header: merges the headers into the defaults and writes the block out. */
    method BuildResponseHeader(req: map<string, string>, date: string) returns (out: seq<byte>)
      ensures out == Utf8Encode(HeaderBlock(status, reason, req, headers, |content|, date))
    {
      var defaults := DefaultHeaders(req, headers, |content|, date);
      var sent := MergeHeaders(defaults, headers);
      var text := WriteHeaderBlock(StatusLine(status, reason), sent);
      out := Utf8Encode(text);
    }

    /** build_response: serialises the response, updating it as the source does. */
    method BuildResponse(path: Option<string>, req: map<string, string>, env: Env) returns (out: seq<byte>)
      modifies this`status, this`reason, this`headers, this`content
      ensures (Snapshot(status, reason, headers, content), out) ==
        Build(Snapshot(old(status), old(reason), old(headers), old(content)), path, req, env)
    {
      if status == 401 {
        return UnauthorizedPage();
      }
      if status == 404 {
        return NotFoundPage();
      }
      out := ServeResponse(path, req, env);
    }

    /** The serving part of build_response, once neither fixed page applies. */
    method ServeResponse(path: Option<string>, req: map<string, string>, env: Env) returns (out: seq<byte>)
      modifies this`status, this`reason, this`headers, this`content
      ensures (Snapshot(status, reason, headers, content), out) ==
        Serve(Snapshot(old(status), old(reason), old(headers), old(content)), path, req, env)
    {
      if content != [] {
        if "Content-Type" !in Keys(headers) {
          headers := Put(headers, "Content-Type", DEFAULT_CONTENT_TYPE);
        }
        out := SendResponse(req, env.date);
        return;
      }
      if path.None? {
        return NotFoundPage();
      }
      out := ServeStaticFile(path.value, req, env);
    }

    /** The static branch of build_response. */
    method ServeStaticFile(p: string, req: map<string, string>, env: Env) returns (out: seq<byte>)
      modifies this`status, this`reason, this`headers, this`content
      ensures (Snapshot(status, reason, headers, content), out) ==
        ServeStatic(Snapshot(old(status), old(reason), old(headers), old(content)), p, req, env)
    {
      var kind := StaticType(p, MimeType(env.types, p));
      if kind.None? {
        return NotFoundPage();
      }
      var root := PrepareContentType(kind.value, env.baseDir);
      var dir := match root case Some(d) => d case None => "";
      var c := BuildContent(env, p, dir);
      content := c.1;
      if c.0 == 0 {
        return NotFoundPage();
      }
      out := SendResponse(req, env.date);
    }

    /** Status or 200, reason or OK, then the header block followed by the content. */
    method SendResponse(req: map<string, string>, date: string) returns (out: seq<byte>)
      modifies this`status, this`reason
      ensures (Snapshot(status, reason, headers, content), out) ==
        Send(Snapshot(old(status), old(reason), headers, content), req, date)
    {
      status := StatusOr200(status);
      reason := ReasonOrOK(reason);
      out := BuildResponseHeader(req, date);
      out := out + content;
    }
  }

  /** The merge loop of build_response_header: each own header assigned over the defaults in turn. */
  method MergeHeaders(defaults: Entries<string, string>, own: Entries<string, string>) returns (sent: Entries<string, string>)
    ensures sent == PutAll(defaults, own)
  {
    sent := defaults;
    var i := 0;
    while i < |own|
      invariant 0 <= i <= |own|
      invariant sent == PutAll(defaults, own[..i])
    {
      assert own[..i + 1][..i] == own[..i];
      sent := Put(sent, own[i].0, own[i].1);
      i := i + 1;
    }
    assert own[..i] == own;
  }

  /** The formatting loop of build_response_header: the status line, one line per header, a blank line. */
  method WriteHeaderBlock(statusLine: string, sent: Entries<string, string>) returns (text: string)
    ensures text == statusLine + HeaderLines(sent) + CRLF
  {
    text := statusLine;
    var i := 0;
    while i < |sent|
      invariant 0 <= i <= |sent|
      invariant text == statusLine + HeaderLines(sent[..i])
    {
      assert sent[..i + 1][..i] == sent[..i];
      text := text + sent[i].0 + ": " + sent[i].1 + CRLF;
      i := i + 1;
    }
    assert sent[..i] == sent;
    text := text + CRLF;
  }
}
