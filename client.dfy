/**
 * ApiClient: the command-line client that registers a user with the
 * tracker.  call_API writes a raw HTTP/1.1 request by hand (request line,
 * Host, Connection, and Content-Type and Content-Length when there is a
 * body), sends it, and reads the body of the reply: the text after the
 * first blank line, stripped.  The port given on the command line is
 * checked by is_valid_port.
 *
 * The body is the JSON text of the payload, already serialised; an empty
 * payload is the empty text.  The socket exchange itself is left out: the
 * reply is a parameter, absent when the connection or the decoding failed.
 */
module ApiClient {
  import opened Text
  import opened Assoc
  import opened HttpRequest

  // ---------------------------------------------------------------------
  // The request

  /** `name: value`, a header line as call_API writes it. */
  function Field(name: string, value: string): string {
    name + ": " + value
  }

  /** `METHOD PATH HTTP/1.1` */
  function RequestLine(verb: string, path: string): string {
    verb + " " + path + " HTTP/1.1"
  }

  /** The header lines call_API writes after the request line. */
  function HeaderLines(host: string, port: nat, body: string): seq<string> {
    [Field("Host", host + ":" + NatToString(port)), Field("Connection", "close")]
    + (if body != "" then [Field("Content-Type", "application/json"), Field("Content-Length", NatToString(|Utf8Encode(body)|))] else [])
  }

  /** The lines call_API writes before the blank line, request line first. */
  function RequestLines(verb: string, path: string, host: string, port: nat, body: string): seq<string> {
    [RequestLine(verb, path)] + HeaderLines(host, port, body)
  }

  /** The request text: the lines joined by CRLF, a blank line, then the body. */
  function RequestText(verb: string, path: string, host: string, port: nat, body: string): string {
    Join(RequestLines(verb, path, host, port, body), CRLF) + BLANK_LINE + body
  }

  /** Steps 1 and 2 of call_API: the list of lines, the terminator, the join, the body. */
  method BuildRequest(verb: string, path: string, host: string, port: nat, body: string) returns (text: string)
    ensures text == RequestText(verb, path, host, port, body)
  {
    var lines := [verb + " " + path + " HTTP/1.1", "Host: " + host + ":" + NatToString(port), "Connection: close"];
    HostText(host, NatToString(port));
    FixedText();
    ghost var first := [RequestLine(verb, path), Field("Host", host + ":" + NatToString(port)), Field("Connection", "close")];
    assert lines == first;
    if body != "" {
      lines := lines + ["Content-Type: application/json"];
      lines := lines + ["Content-Length: " + NatToString(|Utf8Encode(body)|)];
      LengthText(NatToString(|Utf8Encode(body)|));
      assert lines == first + [Field("Content-Type", "application/json"), Field("Content-Length", NatToString(|Utf8Encode(body)|))];
    }
    assert lines == RequestLines(verb, path, host, port, body);
    var head := lines;
    lines := lines + [CRLF];
    JoinSnoc(head, CRLF, CRLF);
    text := Join(lines, CRLF) + body;
    Blank(Join(head, CRLF), body);
  }

  lemma HostText(host: string, port: string)
    ensures "Host: " + host + ":" + port == Field("Host", host + ":" + port)
  {
  }

  lemma FixedText()
    ensures "Connection: close" == Field("Connection", "close")
    ensures "Content-Type: application/json" == Field("Content-Type", "application/json")
  {
  }

  lemma LengthText(n: string)
    ensures "Content-Length: " + n == Field("Content-Length", n)
  {
  }

  lemma Blank(x: string, body: string)
    ensures x + CRLF + CRLF + body == x + BLANK_LINE + body
  {
  }

  lemma JoinThree(a: string, b: string, c: string, sep: string)
    ensures Join([a, b, c], sep) == a + sep + b + sep + c
  {
    assert [a, b, c][1..] == [b, c];
    assert [b, c][1..] == [c];
    assert Join([c], sep) == c;
    assert Join([b, c], sep) == b + sep + c;
    assert a + sep + (b + sep + c) == a + sep + b + sep + c;
  }

  lemma JoinFive(a: string, b: string, c: string, d: string, e: string, sep: string)
    ensures Join([a, b, c, d, e], sep) == a + sep + b + sep + c + sep + d + sep + e
  {
    assert [a, b, c, d, e][1..] == [b, c, d, e];
    assert [b, c, d, e][1..] == [c, d, e];
    JoinThree(c, d, e, sep);
    assert a + sep + (b + sep + (c + sep + d + sep + e)) == a + sep + b + sep + c + sep + d + sep + e;
  }

  /** The request on the wire, line by line. */
  lemma RequestLayout(verb: string, path: string, host: string, port: nat, body: string)
    ensures body == "" ==> (RequestText(verb, path, host, port, body) ==
      RequestLine(verb, path) + CRLF
      + Field("Host", host + ":" + NatToString(port)) + CRLF
      + Field("Connection", "close")
      + BLANK_LINE + body)
    ensures body != "" ==> (RequestText(verb, path, host, port, body) ==
      RequestLine(verb, path) + CRLF
      + Field("Host", host + ":" + NatToString(port)) + CRLF
      + Field("Connection", "close") + CRLF
      + Field("Content-Type", "application/json") + CRLF
      + Field("Content-Length", NatToString(|Utf8Encode(body)|))
      + BLANK_LINE + body)
  {
    var l0 := RequestLine(verb, path);
    var l1 := Field("Host", host + ":" + NatToString(port));
    var l2 := Field("Connection", "close");
    if body != "" {
      var l3 := Field("Content-Type", "application/json");
      var l4 := Field("Content-Length", NatToString(|Utf8Encode(body)|));
      assert RequestLines(verb, path, host, port, body) == [l0, l1, l2, l3, l4];
      JoinFive(l0, l1, l2, l3, l4, CRLF);
    } else {
      assert RequestLines(verb, path, host, port, body) == [l0, l1, l2];
      JoinThree(l0, l1, l2, CRLF);
    }
  }

  // ---------------------------------------------------------------------
  // Reading a request back with the server's parser

  /**
   * Any message made of non-empty single lines, a blank line and a body is
   * read back by the server's parser line for line: the first line is the
   * request line, the others are the header lines, and the body is exact.
   */
  lemma MessageRoundTrip(ls: seq<string>, body: string)
    requires ls != [] && forall i :: 0 <= i < |ls| ==> ls[i] != "" && '\r' !in ls[i]
    ensures var lines := Split(Join(ls, CRLF) + BLANK_LINE + body, CRLF);
      lines[0] == ls[0] && HeaderStop(lines) == |ls| && lines[1..HeaderStop(lines)] == ls[1..] && BodyOf(lines) == body
  {
    var lines := Split(Join(ls, CRLF) + BLANK_LINE + body, CRLF);
    MessageLines(ls, body);
    assert lines[|ls|] == "";
    assert forall j :: 1 <= j < |ls| ==> lines[j] == ls[j];
    assert FirstBlank(lines, 1) == Some(|ls|);
    assert lines[|ls| + 1..] == Split(body, CRLF);
    JoinSplit(body, CRLF);
  }

  lemma MessageLines(ls: seq<string>, body: string)
    requires ls != [] && forall i :: 0 <= i < |ls| ==> '\r' !in ls[i]
    ensures Split(Join(ls, CRLF) + BLANK_LINE + body, CRLF) == ls + [""] + Split(body, CRLF)
  {
    assert Join(ls, CRLF) + BLANK_LINE + body == Join(ls, CRLF) + CRLF + ("" + CRLF + body);
    SplitJoined(ls, "" + CRLF + body);
    SplitCons("", CRLF, body);
  }

  /**
   * What the round trip needs: a method and a path that are single words,
   * and a host on one line that does not begin with whitespace.
   */
  predicate Sendable(verb: string, path: string, host: string) {
    verb != "" && NoSpace(verb) && path != "" && NoSpace(path)
    && host != "" && !IsSpace(host[0]) && '\r' !in host
  }

  /** The headers the server should read from the request. */
  function RequestHeaders(host: string, port: nat, body: string): map<string, string> {
    var base := map["host" := host + ":" + NatToString(port), "connection" := "close"];
    if body != "" then base["content-type" := "application/json"]["content-length" := NatToString(|Utf8Encode(body)|)]
    else base
  }

  /** A header name as the client writes it: letters, dashes and slashes. */
  predicate Token(s: string) {
    s != [] && forall i :: 0 <= i < |s| ==> ('A' <= s[i] <= 'Z') || ('a' <= s[i] <= 'z') || s[i] == '-' || s[i] == '/'
  }

  lemma Tokens()
    ensures Token("Host") && Token("Connection") && Token("Content-Type") && Token("Content-Length")
    ensures Token("close") && Token("application/json")
  {
  }

  lemma TokenTrimmed(s: string)
    requires Token(s)
    ensures !IsSpace(s[0]) && !IsSpace(s[|s| - 1]) && '\r' !in s && ':' !in s
  {
    assert forall i :: 0 <= i < |s| ==> s[i] != '\r' && s[i] != ':';
  }

  lemma DigitsTrimmed(n: nat)
    ensures var s := NatToString(n); !IsSpace(s[0]) && !IsSpace(s[|s| - 1]) && '\r' !in s
  {
    var s := NatToString(n);
    assert forall i :: 0 <= i < |s| ==> IsDigit(s[i]) && s[i] != '\r';
  }

  lemma WordNoBreak(w: string)
    requires NoSpace(w)
    ensures '\r' !in w
  {
    assert IsSpace('\r');
    assert forall i :: 0 <= i < |w| ==> w[i] != '\r';
  }

  lemma FieldNoBreak(name: string, value: string)
    requires '\r' !in name && '\r' !in value
    ensures '\r' !in Field(name, value) && Field(name, value) != ""
  {
  }

  /** Every line of a sendable request is a single non-empty line. */
  lemma NoBreakInLines(verb: string, path: string, host: string, port: nat, body: string)
    requires Sendable(verb, path, host)
    ensures var ls := RequestLines(verb, path, host, port, body);
      forall i :: 0 <= i < |ls| ==> ls[i] != "" && '\r' !in ls[i]
  {
    WordNoBreak(verb);
    WordNoBreak(path);
    Tokens();
    TokenTrimmed("Host");
    TokenTrimmed("Connection");
    TokenTrimmed("close");
    DigitsTrimmed(port);
    FieldNoBreak("Host", host + ":" + NatToString(port));
    FieldNoBreak("Connection", "close");
    if body != "" {
      TokenTrimmed("Content-Type");
      TokenTrimmed("Content-Length");
      TokenTrimmed("application/json");
      DigitsTrimmed(|Utf8Encode(body)|);
      FieldNoBreak("Content-Type", "application/json");
      FieldNoBreak("Content-Length", NatToString(|Utf8Encode(body)|));
    }
  }

  /** The request splits into its lines, an empty line, and the lines of the body. */
  lemma RequestSplit(verb: string, path: string, host: string, port: nat, body: string)
    requires Sendable(verb, path, host)
    ensures var lines := Split(RequestText(verb, path, host, port, body), CRLF);
      lines[0] == RequestLine(verb, path) && HeaderStop(lines) == 1 + |HeaderLines(host, port, body)|
      && lines[1..HeaderStop(lines)] == HeaderLines(host, port, body) && BodyOf(lines) == body
  {
    NoBreakInLines(verb, path, host, port, body);
    MessageRoundTrip(RequestLines(verb, path, host, port, body), body);
  }

  /** The server reads back the method and the path. */
  lemma TargetRoundTrip(verb: string, path: string, host: string, port: nat, body: string)
    requires Sendable(verb, path, host)
    ensures Target(Split(RequestText(verb, path, host, port, body), CRLF)) == Some((verb, path))
  {
    RequestSplit(verb, path, host, port, body);
    assert RequestLine(verb, path) == verb + " " + path + " " + "HTTP/1.1";
    WordsOfThree(verb, path, "HTTP/1.1");
  }

  /** The server reads back the exact body. */
  lemma BodyRoundTrip(verb: string, path: string, host: string, port: nat, body: string)
    requires Sendable(verb, path, host)
    ensures BodyOf(Split(RequestText(verb, path, host, port, body), CRLF)) == body
  {
    RequestSplit(verb, path, host, port, body);
  }

  /** A trimmed `Name: value` line is read as the lowered name and the value. */
  lemma HeaderLine(name: string, value: string)
    requires Token(name)
    requires value != [] && !IsSpace(value[0]) && !IsSpace(value[|value| - 1])
    ensures HeaderItem(Field(name, value), ":") == Some((ToLower(name), value))
  {
    TokenTrimmed(name);
    assert Field(name, value) == name + ":" + (" " + value);
    SplitOnceAt(name, ":", " " + value);
    StripLeadingSpace(value);
    StripOfTrimmed(value);
    StripOfTrimmed(name);
  }

  lemma LowerHost() ensures ToLower("Host") == "host" { }
  lemma LowerConnection() ensures ToLower("Connection") == "connection" { }
  lemma LowerType() ensures ToLower("Content-Type") == "content-type" { }
  lemma LowerLength() ensures ToLower("Content-Length") == "content-length" { }

  lemma ItemsAppend(a: seq<string>, b: seq<string>)
    ensures HeaderItems(a + b, ":") == HeaderItems(a, ":") + HeaderItems(b, ":")
  {
  }

  lemma FixedItems(host: string, port: nat)
    requires host != "" && !IsSpace(host[0])
    ensures HeaderItems([Field("Host", host + ":" + NatToString(port)), Field("Connection", "close")], ":") ==
      [Some((ToLower("Host"), host + ":" + NatToString(port))), Some((ToLower("Connection"), "close"))]
  {
    Tokens();
    TokenTrimmed("close");
    DigitsTrimmed(port);
    HeaderLine("Host", host + ":" + NatToString(port));
    HeaderLine("Connection", "close");
  }

  lemma ContentItems(n: nat)
    ensures HeaderItems([Field("Content-Type", "application/json"), Field("Content-Length", NatToString(n))], ":") ==
      [Some((ToLower("Content-Type"), "application/json")), Some((ToLower("Content-Length"), NatToString(n)))]
  {
    Tokens();
    TokenTrimmed("application/json");
    DigitsTrimmed(n);
    HeaderLine("Content-Type", "application/json");
    HeaderLine("Content-Length", NatToString(n));
  }

  /** The header items of the request's header lines. */
  lemma RequestItems(host: string, port: nat, body: string)
    requires host != "" && !IsSpace(host[0])
    ensures HeaderItems(HeaderLines(host, port, body), ":") ==
        [Some((ToLower("Host"), host + ":" + NatToString(port))), Some((ToLower("Connection"), "close"))]
        + (if body != "" then [Some((ToLower("Content-Type"), "application/json")), Some((ToLower("Content-Length"), NatToString(|Utf8Encode(body)|)))] else [])
  {
    var fixed := [Field("Host", host + ":" + NatToString(port)), Field("Connection", "close")];
    FixedItems(host, port);
    if body != "" {
      var content := [Field("Content-Type", "application/json"), Field("Content-Length", NatToString(|Utf8Encode(body)|))];
      ContentItems(|Utf8Encode(body)|);
      ItemsAppend(fixed, content);
    } else {
      assert HeaderLines(host, port, body) == fixed;
    }
  }

  /**
   * The server reads back exactly the headers the client sent: Host and
   * Connection always, Content-Type and Content-Length (the UTF-8 length
   * of the body) exactly when there is a body.
   */
  lemma HeadersRoundTrip(verb: string, path: string, host: string, port: nat, body: string)
    requires Sendable(verb, path, host)
    ensures HeadersOf(Split(RequestText(verb, path, host, port, body), CRLF)) == RequestHeaders(host, port, body)
  {
    RequestSplit(verb, path, host, port, body);
    RequestItems(host, port, body);
    LowerHost();
    LowerConnection();
    LowerType();
    LowerLength();
    var items := HeaderItems(HeaderLines(host, port, body), ":");
    var i0 := Some(("host", host + ":" + NatToString(port)));
    var i1 := Some(("connection", "close"));
    AssignSnoc([], i0);
    AssignSnoc([i0], i1);
    assert [] + [i0] == [i0] && [i0] + [i1] == [i0, i1];
    if body != "" {
      var i2 := Some(("content-type", "application/json"));
      var i3 := Some(("content-length", NatToString(|Utf8Encode(body)|)));
      AssignSnoc([i0, i1], i2);
      AssignSnoc([i0, i1, i2], i3);
      assert [i0, i1] + [i2] == [i0, i1, i2] && [i0, i1, i2] + [i3] == items;
    } else {
      assert [i0, i1] == items;
    }
  }

  /** The Content-Length the server reads back is the number of body bytes. */
  lemma ContentLengthRoundTrip(verb: string, path: string, host: string, port: nat, body: string)
    requires Sendable(verb, path, host) && body != ""
    ensures var hs := HeadersOf(Split(RequestText(verb, path, host, port, body), CRLF));
      "content-length" in hs && (forall i :: 0 <= i < |hs["content-length"]| ==> IsDigit(hs["content-length"][i]))
      && DigitsValue(hs["content-length"]) == |Utf8Encode(body)|
  {
    HeadersRoundTrip(verb, path, host, port, body);
    DigitsValueOfNat(|Utf8Encode(body)|);
  }

  // ---------------------------------------------------------------------
  // The reply

  /** Step 5 of call_API: the text after the first blank line, stripped, if that is not empty. */
  function ResponseBody(response: string): Option<string> {
    match SplitOnce(response, BLANK_LINE)
    case None => None
    case Some((_, rest)) => if Strip(rest) == "" then None else Some(Strip(rest))
  }

  /** What call_API hands to the JSON decoder: nothing without a reply, for an empty one, or without a body. */
  function ReplyBody(reply: Option<string>): Option<string> {
    if reply.None? || reply.value == "" then None else ResponseBody(reply.value)
  }

  /**
   * A reply whose head holds no blank line and does not end in a line break
   * has its body read from right after the blank line that ends the head.
   */
  lemma ResponseBodyAfterHead(head: string, body: string)
    requires !Contains(head, BLANK_LINE) && !EndsWith(head, CRLF)
    ensures ResponseBody(head + BLANK_LINE + body) == if Strip(body) == "" then None else Some(Strip(body))
  {
    var s := head + BLANK_LINE + body;
    var h := |head|;
    assert s[h..h + 4] == BLANK_LINE;
    forall j | 0 <= j < h ensures !At(s, j, BLANK_LINE) {
      NoBlankBefore(head, body, j);
    }
    FindIs(s, BLANK_LINE, h);
    assert s[..h] == head && s[h + 4..] == body;
  }

  /** The blank line cannot start inside such a head. */
  lemma NoBlankBefore(head: string, body: string, j: nat)
    requires !Contains(head, BLANK_LINE) && !EndsWith(head, CRLF) && j < |head|
    ensures !At(head + BLANK_LINE + body, j, BLANK_LINE)
  {
    var s := head + BLANK_LINE + body;
    var h := |head|;
    if j + 4 <= h {
      FindSpec(head, BLANK_LINE);
      assert s[j..j + 4] == head[j..j + 4];
      assert !At(head, j, BLANK_LINE);
    } else if j == h - 3 {
      assert s[j + 3] == '\r';
      NotAtByOffset(s, j, BLANK_LINE, 3);
    } else if j == h - 1 {
      assert s[j + 1] == '\r';
      NotAtByOffset(s, j, BLANK_LINE, 1);
    } else {
      assert s[j..j + 2] == head[h - 2..] != CRLF;
      AtPrefix(s, j, BLANK_LINE, 2);
      assert BLANK_LINE[..2] == CRLF;
    }
  }

  /** A reply with no blank line carries no body. */
  lemma NoBlankNoBody(response: string)
    requires !Contains(response, BLANK_LINE)
    ensures ReplyBody(Some(response)) == None
  {
  }

  // ---------------------------------------------------------------------
  // The port argument

  /** A base-10 literal as int() reads it: digits, with single `_` separators between two digits. */
  predicate Grouped(s: string) {
    s != "" && IsDigit(s[0]) && IsDigit(s[|s| - 1])
    && (forall i :: 0 <= i < |s| ==> IsDigit(s[i]) || s[i] == '_')
    && (forall i :: 0 <= i < |s| - 1 ==> s[i] == '_' ==> s[i + 1] != '_')
  }

  /** The digits of a literal, its `_` separators removed. */
  function Ungroup(s: string): (r: string)
    requires forall i :: 0 <= i < |s| ==> IsDigit(s[i]) || s[i] == '_'
    ensures forall i :: 0 <= i < |r| ==> IsDigit(r[i])
  {
    if s == [] then [] else (if s[0] == '_' then [] else [s[0]]) + Ungroup(s[1..])
  }

  function ParseUnsigned(s: string): Option<nat> {
    if Grouped(s) then Some(DigitsValue(Ungroup(s))) else None
  }

  /**
   * int(s): surrounding whitespace, an optional sign, then a base-10
   * literal; anything else raises ValueError (None).
   */
  function ParseInt(s: string): Option<int> {
    var t := Strip(s);
    if t != "" && (t[0] == '+' || t[0] == '-') then
      match ParseUnsigned(t[1..])
      case None => None
      case Some(n) => var v: int := n; Some(if t[0] == '-' then -v else v)
    else
      match ParseUnsigned(t)
      case None => None
      case Some(n) => Some(n)
  }

  /** is_valid_port: parses, and lies in 1..65535. */
  function IsValidPort(s: string): bool {
    match ParseInt(s)
    case None => false
    case Some(p) => 1 <= p <= 65535
  }

  lemma {:induction false} UngroupDigits(s: string)
    requires forall i :: 0 <= i < |s| ==> IsDigit(s[i])
    ensures Ungroup(s) == s
    decreases |s|
  {
    if s != [] {
      UngroupDigits(s[1..]);
    }
  }

  /** A string of digits reads as its decimal value. */
  lemma DigitsParse(d: string)
    requires d != [] && forall i :: 0 <= i < |d| ==> IsDigit(d[i])
    ensures Strip(d) == d && Grouped(d) && ParseUnsigned(d) == Some(DigitsValue(d))
  {
    assert !IsSpace(d[0]) && !IsSpace(d[|d| - 1]);
    StripOfTrimmed(d);
    assert forall i :: 0 <= i < |d| - 1 ==> d[i] != '_';
    assert Grouped(d);
    UngroupDigits(d);
  }

  /** A printed number is a valid port exactly when it lies in 1..65535. */
  lemma PrintedPort(n: nat)
    ensures IsValidPort(NatToString(n)) <==> 1 <= n <= 65535
  {
    DigitsParse(NatToString(n));
    DigitsValueOfNat(n);
  }

  /** A plus sign is accepted, and a minus sign never gives a valid port. */
  lemma SignedPort(n: nat)
    ensures IsValidPort("+" + NatToString(n)) <==> 1 <= n <= 65535
    ensures !IsValidPort("-" + NatToString(n))
  {
    var d := NatToString(n);
    DigitsParse(d);
    DigitsValueOfNat(n);
    assert ("+" + d)[1..] == d && ("-" + d)[1..] == d;
    StripOfTrimmed("+" + d);
    StripOfTrimmed("-" + d);
  }

  /** One `_` between two runs of digits is skipped: `8_0` reads as 80. */
  lemma SeparatedPort(a: string, b: string)
    requires a != [] && forall i :: 0 <= i < |a| ==> IsDigit(a[i])
    requires b != [] && forall i :: 0 <= i < |b| ==> IsDigit(b[i])
    ensures forall i :: 0 <= i < |a + b| ==> IsDigit((a + b)[i])
    ensures IsValidPort(a + "_" + b) <==> 1 <= DigitsValue(a + b) <= 65535
  {
    var s := a + "_" + b;
    StripOfTrimmed(s);
    UngroupSeparated(a, b);
    assert Grouped(s) by {
      forall i | 0 <= i < |s| - 1 && s[i] == '_' ensures s[i + 1] != '_' {
        assert i == |a|;
      }
    }
  }

  lemma {:induction false} UngroupSeparated(a: string, b: string)
    requires forall i :: 0 <= i < |a| ==> IsDigit(a[i])
    requires forall i :: 0 <= i < |b| ==> IsDigit(b[i])
    ensures Ungroup(a + "_" + b) == a + b
    decreases |a|
  {
    if a == [] {
      assert ("_" + b)[1..] == b;
      UngroupDigits(b);
    } else {
      assert (a + "_" + b)[1..] == a[1..] + "_" + b;
      UngroupSeparated(a[1..], b);
    }
  }

  /** Whitespace around the text does not change whether it is a valid port. */
  lemma PaddedPort(w: string, s: string, v: string)
    requires forall i :: 0 <= i < |w| ==> IsSpace(w[i])
    requires forall i :: 0 <= i < |v| ==> IsSpace(v[i])
    ensures IsValidPort(w + s + v) == IsValidPort(s)
  {
    assert w + s + v == w + (s + v);
    LStripPadded(w, s + v);
    LStripThrough(s, v);
    if LStrip(s) == [] {
      LStripSpec(s);
      LStripPadded(s, v);
      LStripPadded(v, []);
      assert v + [] == v;
    } else {
      RStripPadded(LStrip(s), v);
    }
  }

  lemma {:induction false} LStripPadded(w: string, s: string)
    requires forall i :: 0 <= i < |w| ==> IsSpace(w[i])
    ensures LStrip(w + s) == LStrip(s)
    decreases |w|
  {
    if w != [] {
      assert (w + s)[0] == w[0];
      assert (w + s)[1..] == w[1..] + s;
      LStripPadded(w[1..], s);
    } else {
      assert w + s == s;
    }
  }

  lemma {:induction false} RStripPadded(s: string, v: string)
    requires forall i :: 0 <= i < |v| ==> IsSpace(v[i])
    ensures RStrip(s + v) == RStrip(s)
    decreases |v|
  {
    if v != [] {
      assert (s + v)[..|s + v| - 1] == s + v[..|v| - 1];
      RStripPadded(s, v[..|v| - 1]);
    } else {
      assert s + v == s;
    }
  }

  /** lstrip stops inside s when s has a non-space character. */
  lemma {:induction false} LStripThrough(s: string, v: string)
    ensures LStrip(s + v) == LStrip(s) + v || (LStrip(s) == [] && LStrip(s + v) == LStrip(v))
    decreases |s|
  {
    if s != [] {
      assert (s + v)[1..] == s[1..] + v;
      LStripThrough(s[1..], v);
    } else {
      assert s + v == v;
    }
  }

  /** A character other than a digit, `_`, a sign or whitespace makes the text invalid. */
  lemma StrayCharPort(s: string, i: nat)
    requires i < |s| && !IsDigit(s[i]) && s[i] != '_' && s[i] != '+' && s[i] != '-' && !IsSpace(s[i])
    ensures !IsValidPort(s)
  {
    var l := LStrip(s);
    LStripSpec(s);
    RStripSpec(l);
    var t := Strip(s);
    var k := i - (|s| - |l|);
    assert 0 <= k < |t| && t[k] == s[i] by {
      assert l[i - (|s| - |l|)] == s[i];
    }
    if t != "" && (t[0] == '+' || t[0] == '-') {
      assert k >= 1;
      assert t[1..][k - 1] == s[i];
      assert !Grouped(t[1..]);
    } else {
      assert !Grouped(t);
    }
  }
}
