/**
 * HttpRequest: the server's view of one incoming HTTP request.
 *
 * A Request is reused: `Prepare` parses a raw message into the method, the
 * path, the headers and the body, and looks the (path, method) pair up in
 * the route table to find the hook that will answer it.  The other
 * operations (`PrepareBody`, `PrepareContentLength`, `PrepareAuth`,
 * `PrepareCookies`, `ParseBody`) update or read the same object.
 *
 * Headers are kept in a map keyed by the lower-cased header name, which is
 * how the case-insensitive header dictionary answers lookups.
 */
module HttpRequest {
  import opened Text
  import opened Assoc
  import opened Forms

  /** path -> method -> hook */
  type Routes<H> = map<string, map<string, H>>

  /** What `self.auth` holds after authentication was prepared. */
  datatype Auth = NoAuth | Basic(credentials: string) | Bearer(token: string)

  /** What `parse_body` returns: a dict of fields, or the text handed to the JSON decoder. */
  datatype ParsedBody = Fields(fields: map<string, string>) | JsonText(text: string)

  const BLANK_LINE: string := "\r\n\r\n"
  const FORM_TYPE: string := "application/x-www-form-urlencoded"
  const JSON_TYPE: string := "application/json"

  // ---------------------------------------------------------------------
  // The request line

  /** Method and path from `lines[0].split()`, when it has at least two words. */
  function Target(lines: seq<string>): Option<(string, string)>
    requires |lines| >= 1
  {
    var w := Words(lines[0]);
    if |w| >= 2 then Some((w[0], w[1])) else None
  }

  /**
   * extract_request_line: the first three space-separated parts of the
   * first line, or nothing when there are fewer than three.
   */
  function ExtractRequestLine(request: string): Option<(string, string, string)> {
    var parts := Split(Split(request, CRLF)[0], " ");
    if |parts| < 3 then None else Some((parts[0], parts[1], parts[2]))
  }

  /**
   * On a well-formed request line (three non-empty words, single spaces)
   * the two request-line parsers agree: both read the method and the path.
   */
  lemma RequestLineParsersAgree(m: string, p: string, v: string, rest: string)
    requires m != [] && NoSpace(m) && p != [] && NoSpace(p) && v != [] && NoSpace(v)
    ensures ExtractRequestLine(m + " " + p + " " + v + CRLF + rest) == Some((m, p, v))
    ensures Target(Split(m + " " + p + " " + v + CRLF + rest, CRLF)) == Some((m, p))
  {
    var line := m + " " + p + " " + v;
    var msg := line + CRLF + rest;
    assert msg == m + " " + p + " " + v + CRLF + rest;
    assert '\r' !in line by {
      forall i | 0 <= i < |line| ensures line[i] != '\r' {
        if i < |m| {
          assert line[i] == m[i];
        } else if i == |m| {
        } else if i < |m| + 1 + |p| {
          assert line[i] == p[i - |m| - 1];
        } else if i == |m| + 1 + |p| {
        } else {
          assert line[i] == v[i - |m| - 2 - |p|];
        }
      }
    }
    SplitCons(line, CRLF, rest);
    assert Split(msg, CRLF)[0] == line;
    assert ' ' !in m by {
      forall i | 0 <= i < |m| ensures m[i] != ' ' { assert !IsSpace(m[i]); }
    }
    assert ' ' !in p by {
      forall i | 0 <= i < |p| ensures p[i] != ' ' { assert !IsSpace(p[i]); }
    }
    assert ' ' !in v by {
      forall i | 0 <= i < |v| ensures v[i] != ' ' { assert !IsSpace(v[i]); }
    }
    var pv := p + " " + v;
    assert line == m + " " + pv;
    SplitCons(m, " ", pv);
    SplitCons(p, " ", v);
    SplitSingle(v, " ");
    ThreeItems(m, p, v);
    WordsOfThree(m, p, v);
  }

  // ---------------------------------------------------------------------
  // Header lines

  /**
   * One header line split on the first `sep`: the name stripped and
   * lower-cased, the value stripped.  A line without `sep` is not a header.
   */
  function HeaderItem(line: string, sep: string): Option<(string, string)>
    requires sep != []
  {
    match SplitOnce(line, sep)
    case None => None
    case Some((k, v)) => Some((ToLower(Strip(k)), Strip(v)))
  }

  function HeaderItems(lines: seq<string>, sep: string): (r: seq<Option<(string, string)>>)
    requires sep != []
    ensures |r| == |lines| && forall i :: 0 <= i < |lines| ==> r[i] == HeaderItem(lines[i], sep)
  {
    seq(|lines|, i requires 0 <= i < |lines| => HeaderItem(lines[i], sep))
  }

  lemma HeaderItemsSnoc(lines: seq<string>, i: nat, sep: string)
    requires sep != [] && 1 <= i < |lines|
    ensures HeaderItems(lines[1..i + 1], sep) == HeaderItems(lines[1..i], sep) + [HeaderItem(lines[i], sep)]
  {
    assert lines[1..i + 1] == lines[1..i] + [lines[i]];
  }

  /** One more line: the headers gain its name and value if it holds sep. */
  lemma HeaderStep(lines: seq<string>, i: nat, sep: string)
    requires sep != [] && 1 <= i < |lines|
    ensures Assign(HeaderItems(lines[1..i + 1], sep)) ==
      if Contains(lines[i], sep)
      then Assign(HeaderItems(lines[1..i], sep))[ToLower(Strip(SplitOnce(lines[i], sep).value.0)) := Strip(SplitOnce(lines[i], sep).value.1)]
      else Assign(HeaderItems(lines[1..i], sep))
  {
    HeaderItemsSnoc(lines, i, sep);
    AssignSnoc(HeaderItems(lines[1..i], sep), HeaderItem(lines[i], sep));
  }

  /** The first empty line at index i or later. */
  function FirstBlank(lines: seq<string>, i: nat): (r: Option<nat>)
    ensures r.Some? ==> i <= r.value < |lines| && lines[r.value] == "" && forall j :: i <= j < r.value ==> lines[j] != ""
    ensures r.None? ==> forall j :: i <= j < |lines| ==> lines[j] != ""
    decreases |lines| - i
  {
    if i >= |lines| then None
    else if lines[i] == "" then Some(i)
    else FirstBlank(lines, i + 1)
  }

  /** Where the header lines end: at the first empty line after the request line, or at the end. */
  function HeaderStop(lines: seq<string>): (n: nat)
    requires |lines| >= 1
    ensures 1 <= n <= |lines|
  {
    match FirstBlank(lines, 1)
    case Some(e) => e
    case None => |lines|
  }

  /** The headers `prepare` collects from the lines of a message. */
  function HeadersOf(lines: seq<string>): map<string, string>
    requires |lines| >= 1
  {
    Assign(HeaderItems(lines[1..HeaderStop(lines)], ":"))
  }

  /** Header names are stored lower-cased, so a lookup by the lower-cased name finds them. */
  lemma HeaderNamesLower(lines: seq<string>, k: string)
    requires |lines| >= 1 && k in HeadersOf(lines)
    ensures ToLower(k) == k
  {
    var items := HeaderItems(lines[1..HeaderStop(lines)], ":");
    AssignFrom(items, k);
    var i :| 0 <= i < |items| && items[i] == Some((k, HeadersOf(lines)[k]));
    var kv := SplitOnce(lines[1..HeaderStop(lines)][i], ":").value;
    LowerIdempotent(Strip(kv.0));
  }

  /**
   * A header line before the blank line is the one that counts for its
   * name when no later header line names it again.
   */
  lemma HeaderLastWins(lines: seq<string>, j: nat, k: string, v: string)
    requires |lines| >= 1 && 1 <= j < HeaderStop(lines) && HeaderItem(lines[j], ":") == Some((k, v))
    requires forall i :: j < i < HeaderStop(lines) ==> HeaderItem(lines[i], ":").None? || HeaderItem(lines[i], ":").value.0 != k
    ensures k in HeadersOf(lines) && HeadersOf(lines)[k] == v
  {
    var ls := lines[1..HeaderStop(lines)];
    var items := HeaderItems(ls, ":");
    assert ls[j - 1] == lines[j];
    forall i | j - 1 < i < |items| ensures items[i].None? || items[i].value.0 != k {
      assert ls[i] == lines[i + 1];
    }
    AssignLatest(items, j - 1);
  }

  /** A name no header line before the blank line carries is absent. */
  lemma HeaderAbsent(lines: seq<string>, k: string)
    requires |lines| >= 1
    requires forall i :: 1 <= i < HeaderStop(lines) ==> HeaderItem(lines[i], ":").None? || HeaderItem(lines[i], ":").value.0 != k
    ensures k !in HeadersOf(lines)
  {
    var ls := lines[1..HeaderStop(lines)];
    var items := HeaderItems(ls, ":");
    forall i | 0 <= i < |items| ensures items[i].None? || items[i].value.0 != k {
      assert ls[i] == lines[i + 1];
    }
    AssignAbsent(items, k);
  }

  /**
   * prepare splits a header line on `:` and prepare_headers on `: `; on a
   * line whose first colon is followed by a space the two read the same
   * name and value.
   */
  lemma HeaderSeparatorsAgree(name: string, value: string)
    requires ':' !in name
    ensures HeaderItem(name + ": " + value, ": ") == HeaderItem(name + ": " + value, ":")
  {
    Regroup(name, ':', ' ', value);
    SplitOnceAt(name, ": ", value);
    SplitOnceAt(name, ":", " " + value);
    StripLeadingSpace(value);
  }

  // ---------------------------------------------------------------------
  // The body

  /** The lines after the first empty line at index i or later, joined back; empty if there are none. */
  function BlankBody(lines: seq<string>, i: nat): string {
    match FirstBlank(lines, i)
    case Some(e) => if |lines| > e + 1 then Join(lines[e + 1..], CRLF) else ""
    case None => ""
  }

  /** The body `prepare` keeps: what follows the first empty line after the request line. */
  function BodyOf(lines: seq<string>): string {
    BlankBody(lines, 1)
  }

  /** The text after the first blank line (`\r\n\r\n`), or nothing without one. */
  function AfterBlank(s: string): string {
    match Find(s, BLANK_LINE)
    case Some(p) => s[p + 4..]
    case None => ""
  }

  /** What follows the first empty line of a text whose first line may itself be the empty one. */
  function Tail(t: string): string {
    if StartsWith(t, CRLF) then t[2..] else AfterBlank(t)
  }

  lemma BlankBodyShift(lines: seq<string>, i: nat)
    requires |lines| > 0
    ensures BlankBody(lines, i + 1) == BlankBody(lines[1..], i)
  {
    var a := FirstBlank(lines, i + 1);
    var b := FirstBlank(lines[1..], i);
    forall j | i <= j < |lines| - 1 ensures lines[1..][j] == lines[j + 1] {
    }
    if a.Some? {
      assert b.Some? && b.value + 1 == a.value;
      assert lines[1..][b.value + 1..] == lines[a.value + 1..];
    } else {
      assert b.None?;
    }
  }

  /** A text without a line break has no blank line. */
  lemma NoBreakNoBlank(s: string)
    requires !Contains(s, CRLF)
    ensures AfterBlank(s) == "" && !StartsWith(s, CRLF)
  {
    FindSpec(s, CRLF);
    FindSpec(s, BLANK_LINE);
    forall j | 0 <= j ensures !At(s, j, BLANK_LINE) {
      AtPrefix(s, j, BLANK_LINE, 2);
      assert BLANK_LINE[..2] == CRLF;
    }
    assert !At(s, 0, CRLF);
  }

  /** Skipping a first line that holds no line break: the blank line is the first empty line of the rest. */
  lemma AfterBlankSkipsLine(a: string, r: string)
    requires !Contains(a, CRLF)
    ensures AfterBlank(a + CRLF + r) == Tail(r)
  {
    NoBlankInFirstLine(a, r);
    if StartsWith(r, CRLF) {
      BlankAfterFirstLine(a, r);
    } else {
      BlankInRest(a, r);
    }
  }

  /** An empty second line: the blank line is the break that ends the first line. */
  lemma BlankAfterFirstLine(a: string, r: string)
    requires StartsWith(r, CRLF)
    requires forall j :: 0 <= j < |a| ==> !At(a + CRLF + r, j, BLANK_LINE)
    ensures AfterBlank(a + CRLF + r) == r[2..]
  {
    var s := a + CRLF + r;
    var n := |a|;
    assert s[n..n + 4] == BLANK_LINE;
    FindIs(s, BLANK_LINE, n);
    assert s[n + 4..] == r[2..];
  }

  /** A non-empty second line: the blank line is looked for in the rest. */
  lemma BlankInRest(a: string, r: string)
    requires !StartsWith(r, CRLF)
    requires forall j :: 0 <= j < |a| ==> !At(a + CRLF + r, j, BLANK_LINE)
    ensures AfterBlank(a + CRLF + r) == AfterBlank(r)
  {
    var s := a + CRLF + r;
    var n := |a|;
    NoBlankAtBreak(a, r);
    FindShift(s, BLANK_LINE, n + 2);
    assert s[n + 2..] == r;
    match Find(r, BLANK_LINE)
    case None =>
    case Some(p) => assert s[p + n + 2 + 4..] == r[p + 4..];
  }

  /** Before a non-empty second line, no blank line starts at the break. */
  lemma NoBlankAtBreak(a: string, r: string)
    requires !StartsWith(r, CRLF)
    ensures !At(a + CRLF + r, |a|, BLANK_LINE) && !At(a + CRLF + r, |a| + 1, BLANK_LINE)
  {
    var s := a + CRLF + r;
    var n := |a|;
    assert s[n] == '\r' && s[n + 1] == '\n';
    assert s[n + 2..] == r;
    if |r| >= 2 {
      assert r[..2] == [r[0], r[1]];
      if r[0] != '\r' {
        NotAtByOffset(s, n, BLANK_LINE, 2);
      } else {
        NotAtByOffset(s, n, BLANK_LINE, 3);
      }
    }
    NotAtByOffset(s, n + 1, BLANK_LINE, 0);
  }

  /** No blank line starts inside a first line that holds no line break. */
  lemma NoBlankInFirstLine(a: string, r: string)
    requires !Contains(a, CRLF)
    ensures forall j :: 0 <= j < |a| ==> !At(a + CRLF + r, j, BLANK_LINE)
  {
    FindSpec(a, CRLF);
    var s := a + CRLF + r;
    var n := |a|;
    assert s[n] == '\r';
    forall j | 0 <= j < n ensures !At(s, j, BLANK_LINE) {
      if j + 1 < n {
        assert !At(a, j, CRLF);
        assert a[j..j + 2] == [a[j], a[j + 1]];
        if a[j] != '\r' {
          NotAtByOffset(s, j, BLANK_LINE, 0);
        } else {
          NotAtByOffset(s, j, BLANK_LINE, 1);
        }
      } else {
        NotAtByOffset(s, j, BLANK_LINE, 1);
      }
    }
  }

  /** When the first line is the empty one, the body is everything after it. */
  lemma BlankBodyLeadingEmpty(lines: seq<string>)
    requires |lines| >= 2 && lines[0] == ""
    ensures BlankBody(lines, 0) == Join(lines[1..], CRLF)
  {
  }

  /** A first line that is not empty is skipped. */
  lemma BlankBodySkipFirst(lines: seq<string>)
    requires |lines| >= 1 && lines[0] != ""
    ensures BlankBody(lines, 0) == BlankBody(lines[1..], 0)
  {
    assert FirstBlank(lines, 0) == FirstBlank(lines, 1);
    BlankBodyShift(lines, 0);
  }

  lemma {:induction false} BlankBodyTail(t: string)
    ensures BlankBody(Split(t, CRLF), 0) == Tail(t)
    decreases |t|
  {
    var lines := Split(t, CRLF);
    match Find(t, CRLF)
    case None =>
      NoBreakNoBlank(t);
    case Some(i) =>
      FindSpec(t, CRLF);
      SplitAtFirst(t, CRLF, i);
      var a := t[..i];
      var r := t[i + 2..];
      if i == 0 {
        assert At(t, 0, CRLF);
        BlankBodyLeadingEmpty(lines);
        JoinSplit(r, CRLF);
      } else {
        assert !At(t, 0, CRLF);
        BlankBodySkipFirst(lines);
        BlankBodyTail(r);
        AfterBlankSkipsLine(a, r);
      }
  }

  /**
   * The body `prepare` keeps is exactly the text after the first blank line
   * of the message (`\r\n\r\n`), and empty when there is none.
   */
  lemma BodyIsAfterBlankLine(msg: string)
    ensures BodyOf(Split(msg, CRLF)) == AfterBlank(msg)
  {
    var lines := Split(msg, CRLF);
    match Find(msg, CRLF)
    case None =>
      NoBreakNoBlank(msg);
    case Some(i) =>
      SplitAtFirst(msg, CRLF, i);
      var r := msg[i + 2..];
      BlankBodyShift(lines, 0);
      BlankBodyTail(r);
      AfterBlankSkipsLine(msg[..i], r);
  }

  // ---------------------------------------------------------------------
  // Hooks

  /** routes[path][method] when both are present. */
  function Route<H>(routes: Routes<H>, path: Option<string>, verb: Option<string>): Option<H> {
    if path.Some? && path.value in routes && verb.Some? && verb.value in routes[path.value]
    then Some(routes[path.value][verb.value])
    else None
  }

  // ---------------------------------------------------------------------
  // Content length and authentication

  /**
   * The texts json.dumps gives for exactly the falsy values it serialises:
   * an empty dict, list or string, zero, False and None.
   */
  predicate FalsyJson(t: string) {
    t == "{}" || t == "[]" || t == "\"\"" || t == "0" || t == "0.0" || t == "-0.0" || t == "false" || t == "null"
  }

  /**
   * The Content-Length value for a body: the number of bytes of its UTF-8
   * encoding, or "0" for a missing or empty body.
   */
  function ContentLengthOf(body: Option<string>): (r: string)
    ensures r != [] && forall i :: 0 <= i < |r| ==> IsDigit(r[i])
    ensures DigitsValue(r) == if body.Some? && body.value != "" then |Utf8Encode(body.value)| else 0
  {
    if body.Some? && body.value != "" then
      DigitsValueOfNat(|Utf8Encode(body.value)|);
      NatToString(|Utf8Encode(body.value)|)
    else "0"
  }

  /** A text that contains a space splits on spaces into at least two parts. */
  lemma SplitAtSpace(s: string, j: nat)
    requires j < |s| && s[j] == ' '
    ensures |Split(s, " ")| >= 2
  {
    assert At(s, j, " ") by {
      assert s[j..j + 1] == [s[j]];
    }
    FindSpec(s, " ");
  }

  /**
   * prepare_auth on the value of an Authorization header: the second
   * space-separated word of a `Basic ` or `Bearer ` value, and nothing for
   * any other scheme.
   */
  function AuthOf(value: string): (r: Auth)
    ensures r.NoAuth? <==> !StartsWith(value, "Basic ") && !StartsWith(value, "Bearer ")
    ensures r.Basic? ==> StartsWith(value, "Basic ") && |Split(value, " ")| >= 2 && r.credentials == Split(value, " ")[1]
    ensures r.Bearer? ==> StartsWith(value, "Bearer ") && |Split(value, " ")| >= 2 && r.token == Split(value, " ")[1]
  {
    if StartsWith(value, "Basic ") then
      SplitAtSpace(value, 5);
      Basic(Split(value, " ")[1])
    else if StartsWith(value, "Bearer ") then
      SplitAtSpace(value, 6);
      Bearer(Split(value, " ")[1])
    else NoAuth
  }

  /** The first space-separated word of `tok rest`, for a space-free tok. */
  lemma FirstWord(tok: string, rest: string)
    requires ' ' !in tok
    requires rest == "" || rest[0] == ' '
    ensures Split(tok + rest, " ")[0] == tok
  {
    if rest == "" {
      assert tok + rest == tok;
      SplitSingle(tok, " ");
    } else {
      assert tok + rest == tok + " " + rest[1..];
      SplitCons(tok, " ", rest[1..]);
    }
  }

  /** The second space-separated word of `scheme tok rest`, for space-free scheme and tok. */
  lemma SecondWord(scheme: string, tok: string, rest: string)
    requires ' ' !in scheme && ' ' !in tok
    requires rest == "" || rest[0] == ' '
    ensures |Split(scheme + " " + (tok + rest), " ")| >= 2 && Split(scheme + " " + (tok + rest), " ")[1] == tok
  {
    SplitCons(scheme, " ", tok + rest);
    FirstWord(tok, rest);
  }

  /** Basic credentials are the word right after the scheme, up to the next space. */
  lemma AuthBasicWord(tok: string, rest: string)
    requires ' ' !in tok
    requires rest == "" || rest[0] == ' '
    ensures AuthOf("Basic " + tok + rest) == Basic(tok)
  {
    var s := "Basic " + tok + rest;
    assert s == "Basic" + " " + (tok + rest);
    SecondWord("Basic", tok, rest);
    assert s[..6] == "Basic ";
  }

  /** A bearer token is the word right after the scheme, up to the next space. */
  lemma AuthBearerWord(tok: string, rest: string)
    requires ' ' !in tok
    requires rest == "" || rest[0] == ' '
    ensures AuthOf("Bearer " + tok + rest) == Bearer(tok)
  {
    var s := "Bearer " + tok + rest;
    assert s == "Bearer" + " " + (tok + rest);
    SecondWord("Bearer", tok, rest);
    assert s[..7] == "Bearer ";
    assert s[..6] != "Basic " by {
      assert s[1] == 'e';
    }
  }

  // ---------------------------------------------------------------------
  // The body's parameters

  /** What parse_body returns for a body under the given headers. */
  function ParsedBodyOf(body: Option<string>, headers: map<string, string>): ParsedBody {
    if body.None? || body.value == "" then Fields(map[])
    else
      var contentType := if "content-type" in headers then headers["content-type"] else "";
      if Contains(contentType, FORM_TYPE) then Fields(Parse(FormPlus, body.value))
      else if Contains(contentType, JSON_TYPE) then JsonText(body.value)
      else Fields(map["raw" := body.value])
  }

  // ---------------------------------------------------------------------
  // The loops of the request object, on values

  /**
   * The header loop of prepare: reads the lines after the request line up
   * to the first empty one, and returns the headers and the index of that
   * empty line (0 when there is none).
   */
  method ReadHeaders(lines: seq<string>) returns (hs: map<string, string>, headerEnd: nat)
    requires |lines| >= 1
    ensures hs == HeadersOf(lines)
    ensures headerEnd == match FirstBlank(lines, 1) case Some(e) => e case None => 0
  {
    hs := map[];
    headerEnd := 0;
    var i := 1;
    while i < |lines|
      invariant 1 <= i <= |lines|
      invariant FirstBlank(lines, 1) == FirstBlank(lines, i)
      invariant hs == Assign(HeaderItems(lines[1..i], ":"))
      invariant headerEnd == 0
    {
      if lines[i] == "" {
        headerEnd := i;
        break;
      }
      HeaderStep(lines, i, ":");
      var kv := SplitOnce(lines[i], ":");
      if kv.Some? {
        hs := hs[ToLower(Strip(kv.value.0)) := Strip(kv.value.1)];
      }
      i := i + 1;
    }
    assert HeaderStop(lines) == i;
  }

  /**
   * The parsing half of prepare: the method and path of the request line,
   * the headers and the body of a message.
   */
  method ReadMessage(msg: string) returns (target: Option<(string, string)>, hs: map<string, string>, b: string)
    ensures target == Target(Split(msg, CRLF))
    ensures hs == HeadersOf(Split(msg, CRLF))
    ensures b == BodyOf(Split(msg, CRLF))
  {
    var lines := Split(msg, CRLF);
    var requestLine := Words(lines[0]);
    target := None;
    if |requestLine| >= 2 {
      target := Some((requestLine[0], requestLine[1]));
    }
    var headerEnd;
    hs, headerEnd := ReadHeaders(lines);
    if headerEnd > 0 && |lines| > headerEnd + 1 {
      b := Join(lines[headerEnd + 1..], CRLF);
    } else {
      b := "";
    }
  }

  /** The route lookup of prepare. */
  method FindHook<H>(routes: Routes<H>, path: Option<string>, verb: Option<string>) returns (hook: Option<H>)
    ensures hook == Route(routes, path, verb)
  {
    hook := None;
    if |routes| > 0 && path.Some? && path.value in routes {
      var route := routes[path.value];
      if verb.Some? && verb.value in route {
        hook := Some(route[verb.value]);
      }
    }
  }

  /** The cookie loop of prepare_cookies: the `;`-separated pairs of a Cookie header. */
  method CookieDict(c: string) returns (d: map<string, string>)
    ensures d == Parse(Cookie, c)
  {
    d := map[];
    if c != "" {
      var items := Split(c, ";");
      var i := 0;
      while i < |items|
        invariant 0 <= i <= |items|
        invariant d == Fold(Cookie, items[..i])
      {
        FoldStep(Cookie, items, i);
        var item := Strip(items[i]);
        var kv := SplitOnce(item, "=");
        if kv.Some? {
          d := d[Strip(kv.value.0) := Strip(kv.value.1)];
        }
        i := i + 1;
      }
      assert items[..|items|] == items;
    } else {
      ParseEmpty(Cookie);
    }
  }

  // ---------------------------------------------------------------------
  // The request object

  class Request<H> {
    /** the HTTP method (`self.method`) */
    var verb: Option<string>
    var url: Option<string>
    var path: Option<string>
    var headers: map<string, string>
    var cookies: map<string, string>
    var body: Option<string>
    var hook: Option<H>
    var auth: Auth

    constructor()
      ensures verb == None && url == None && path == None
      ensures headers == map[] && cookies == map[] && body == None && hook == None && auth == NoAuth
    {
      verb := None;
      url := None;
      path := None;
      headers := map[];
      cookies := map[];
      body := None;
      hook := None;
      auth := NoAuth;
    }

    /**
     * prepare(msg, routes): parse the message and pick its hook.  A request
     * line of fewer than two words leaves method, path and url as they were.
     */
    method Prepare(msg: string, routes: Routes<H>)
      modifies this`verb, this`path, this`url, this`headers, this`cookies, this`body, this`hook
      ensures headers == HeadersOf(Split(msg, CRLF))
      ensures cookies == map[]
      ensures body == Some(BodyOf(Split(msg, CRLF)))
      ensures match Target(Split(msg, CRLF))
              case Some((m, p)) => verb == Some(m) && path == Some(p) && url == Some(p)
              case None => verb == old(verb) && path == old(path) && url == old(url)
      ensures hook == Route(routes, path, verb)
    {
      var target, hs, b := ReadMessage(msg);
      headers := hs;
      cookies := map[];
      if target.Some? {
        verb := Some(target.value.0);
        path := Some(target.value.1);
        url := path;
      }
      body := Some(b);
      hook := FindHook(routes, path, verb);
    }

    /** prepare_headers(request): every line after the first that holds `: `, blank line or not. */
    method PrepareHeaders(request: string) returns (r: map<string, string>)
      ensures r == Assign(HeaderItems(Split(request, CRLF)[1..], ": "))
    {
      var lines := Split(request, CRLF);
      r := map[];
      var i := 1;
      while i < |lines|
        invariant 1 <= i <= |lines|
        invariant r == Assign(HeaderItems(lines[1..i], ": "))
      {
        HeaderStep(lines, i, ": ");
        var kv := SplitOnce(lines[i], ": ");
        if kv.Some? {
          r := r[ToLower(Strip(kv.value.0)) := Strip(kv.value.1)];
        }
        i := i + 1;
      }
      assert lines[1..i] == lines[1..];
    }

    /** prepare_content_length(body): sets Content-Length to the body's size in bytes. */
    method PrepareContentLength(b: Option<string>)
      modifies this`headers
      ensures headers == old(headers)["content-length" := ContentLengthOf(b)]
    {
      if b.Some? && b.value != "" {
        var length := |Utf8Encode(b.value)|;
        headers := headers["content-length" := NatToString(length)];
      } else {
        headers := headers["content-length" := "0"];
      }
    }

    /** prepare_auth(auth, url): the url is not used. */
    method PrepareAuth(value: string, u: Option<string>)
      modifies this`auth
      ensures auth == AuthOf(value)
    {
      if value != "" {
        if StartsWith(value, "Basic ") {
          SplitAtSpace(value, 5);
          var parts := Split(value, " ");
          auth := Basic(parts[1]);
        } else if StartsWith(value, "Bearer ") {
          SplitAtSpace(value, 6);
          var parts := Split(value, " ");
          auth := Bearer(parts[1]);
        } else {
          auth := NoAuth;
        }
      } else {
        auth := NoAuth;
      }
    }

    /**
     * prepare_body(data, files, json): the data if any, else the JSON
     * value serialised, if it is truthy; then the content length and the
     * authentication from the Authorization header.  json is the text
     * json.dumps gives for the value, so a falsy value is recognised by
     * FalsyJson.
     */
    method PrepareBody(data: string, json: Option<string>)
      modifies this`body, this`headers, this`auth
      ensures body == if data != "" then Some(data) else if json.Some? && !FalsyJson(json.value) then json else None
      ensures headers == old(headers)["content-length" := ContentLengthOf(body)]
      ensures auth == if "authorization" in headers then AuthOf(headers["authorization"]) else NoAuth
    {
      if data != "" {
        body := Some(data);
      } else if json.Some? && !FalsyJson(json.value) {
        body := json;
      } else {
        body := None;
      }
      PrepareContentLength(body);
      if |headers| > 0 && "authorization" in headers {
        PrepareAuth(headers["authorization"], url);
      } else {
        auth := NoAuth;
      }
    }

    /** prepare_cookies(cookies): stores the Cookie header and parses its `;`-separated pairs. */
    method PrepareCookies(c: string)
      modifies this`headers, this`cookies
      ensures headers == old(headers)["cookie" := c]
      ensures cookies == Parse(Cookie, c)
    {
      var d := CookieDict(c);
      var h := headers["cookie" := c];
      assert h == old(headers)["cookie" := c];
      headers := h;
      cookies := d;
    }

    /** parse_body(): the body's parameters as its Content-Type says to read them. */
    method ParseBody() returns (r: ParsedBody)
      ensures r == ParsedBodyOf(body, headers)
    {
      if body.None? || body.value == "" {
        return Fields(map[]);
      }
      var contentType := if "content-type" in headers then headers["content-type"] else "";
      if Contains(contentType, FORM_TYPE) {
        var params: map<string, string> := map[];
        var paras := Split(body.value, "&");
        var i := 0;
        while i < |paras|
          invariant 0 <= i <= |paras|
          invariant params == Fold(FormPlus, paras[..i])
        {
          FoldStep(FormPlus, paras, i);
          var kv := SplitOnce(paras[i], "=");
          if kv.Some? {
            params := params[kv.value.0 := Unquote(kv.value.1, true)];
          }
          i := i + 1;
        }
        assert paras[..|paras|] == paras;
        return Fields(params);
      } else if Contains(contentType, JSON_TYPE) {
        return JsonText(body.value);
      }
      return Fields(map["raw" := body.value]);
    }
  }
}
