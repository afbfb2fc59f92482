# A verified model of a small HTTP engine and its applications

This project models, in Dafny, the core of a teaching repository for computer networking. It has three parts.

**The engine.**
- A request object parses one raw HTTP/1.1 message into method, path, headers and body. It then picks the handler ("hook") that a route table gives for that path and method.
- A response object serialises a reply. It tries, in a fixed order, the fixed 401 page, the fixed 404 page, content set by the handler, and a file served from disk according to the path's MIME type.
- An adapter handles one client connection. It reads a message, runs the hook, merges the dict the hook returned into the response, sends the result and closes the connection on every path.

**Two applications on top of the engine.**
- A peer tracker: users, online peers and chat channels, changed in place by nine handlers.
- A cookie-login site: a login form, a redirect that sets an auth cookie, and an index page served only to holders of that cookie.

**A command-line client.** It builds a raw request by hand, reads the body of the reply, and checks the port it is given.

Modules:

| module | file | models |
|---|---|---|
| `Text` | text.dfy | string helpers: split, join, strip, ASCII lower-case, decimal digits, UTF-8 length |
| `Assoc` | assoc.dfy | an insertion-ordered dictionary (Python `dict` assignment semantics) |
| `Forms` | forms.dfy | `key=value` item lists split on `;` or `&`, and percent-decoding |
| `HttpRequest` | request.dfy | `daemon/request.py`, the class `Request` |
| `HttpResponse` | response.dfy | `daemon/response.py`, the class `Response` |
| `HttpAdapter` | adapter.dfy | `daemon/httpadapter.py`, the classes `Adapter` and `Connection` |
| `SampleApp` | sampleapp.dfy | `start_sampleapp.py`, the class `Tracker` over the three tables |
| `Backend` | backend.dfy | `start_backend.py`, the handlers and the route table |
| `ApiClient` | client.dfy | `register_user.py`: `call_API` and `is_valid_port` |

**What the model abstracts.**
- The environment is a value:
  - the file system is a map from path to file contents or a read error, and the set of existing paths that cannot be listed as directories;
  - the clock is the text of the `Date` header;
  - the MIME table is a map from file extension to type.
- The bytes a connection receives are a parameter, already decoded as text, or a failure to receive or decode them.
- A hook is a Dafny function from the request headers and body to what the handler returned.

**Behaviour of the code worth noting:**
- A file that exists but cannot be read is not a 404. `build_content` returns the 25-byte text `500 Internal Server Error`, and this is served under the normal status (`HttpResponse.ReadErrorServed`).
- A missing file is not always a 404 either. Before returning the not-found result, `build_content` lists the file's parent directory for a diagnostic message, inside the same `try`. When that parent exists but is a regular file or cannot be read, the listing raises, and the 25-byte error text is served with status 200. `GET /index.html/x.html` with `www/index.html` present is such a request (`HttpResponse.MissingUnderFileServed`).
- When no path was ever parsed (the request line has fewer than two words on a fresh request object), `get_mime_type` still falls back to `application/octet-stream`, but `path.endswith('.html')` then raises inside `build_response` (daemon/response.py:393), whose exception handler sends the fixed 404 page (`HttpResponse.NoPathNotFound`, `HttpAdapter.UnparsedTargetNotFound`).
- The reason phrase stays `OK` for any status the handler sets other than 401 and 404, for instance `HTTP/1.1 302 OK` and `HTTP/1.1 500 OK`. See `HttpResponse.StatusLineReason`, `HttpAdapter.HookErrorReply` and `Backend.RedirectResponse`.

## Model

| member | source | states |
|---|---|---|
| HttpRequest.Request.constructor | daemon/request.py:51-67 | a new request has no method, URL, path, body or hook, and empty headers and cookies |
| HttpRequest.Request.Prepare | daemon/request.py:92-159 | builds the headers and body from the message. Method, path and URL are set together only when the first line has two words, and otherwise keep their old values. The hook is the route-table lookup. The body is never None. Cookies are reset. |
| HttpRequest.ReadMessage | daemon/request.py:100-128 | the request target, headers and body of a message are those of the line-based reference definitions `Target`, `HeadersOf` and `BodyOf` |
| HttpRequest.ReadHeaders | daemon/request.py:114-122 | the header loop yields `HeadersOf`, and stops at the first empty line after the request line (0 when there is none) |
| HttpRequest.FirstBlank | daemon/request.py:116-119 | the index found is an empty line with no empty line before it; None means no line from there on is empty |
| HttpRequest.HeaderStep | daemon/request.py:120-122 | one header line with a colon assigns its stripped, lower-cased name to its stripped value; a line without a colon changes nothing |
| HttpRequest.HeaderLastWins | daemon/request.py:116-122 | a header line before the blank line gives the stored value when no later line before the blank line has the same name |
| HttpRequest.HeaderAbsent | daemon/request.py:116-122 | a name that no header line before the blank line has is not among the headers |
| HttpRequest.HeaderNamesLower | daemon/request.py:122 | every stored header name is lower-case |
| HttpRequest.HeaderSeparatorsAgree | daemon/request.py:82-90 | on a `name: value` line whose name has no colon, splitting on `": "` (prepare_headers) and on `":"` (prepare) give the same header |
| HttpRequest.Request.PrepareHeaders | daemon/request.py:82-90 | prepare_headers yields the assignment of every later line that has `": "`, with no stop at a blank line |
| HttpRequest.BodyIsAfterBlankLine | daemon/request.py:124-128 | the body is exactly the text after the first `CRLF CRLF` of the message, or empty when there is none |
| HttpRequest.RequestLineParsersAgree | daemon/request.py:69-80 | for a first line of three space-free words, extract_request_line returns those words, and the request-line parse of prepare gives the same method and path |
| HttpRequest.FindHook | daemon/request.py:133-147 | the hook is `routes[path][method]` exactly when both keys are present, and None otherwise |
| HttpRequest.ContentLengthOf | daemon/request.py:181-191 | the value is a decimal numeral whose value is the UTF-8 byte length of a non-empty body, and 0 otherwise |
| HttpRequest.Request.PrepareContentLength | daemon/request.py:181-196 | sets only the `content-length` header, to `ContentLengthOf(body)` |
| HttpRequest.AuthOf | daemon/request.py:204-221 | no authentication iff the value starts with neither `Basic ` nor `Bearer `. Otherwise the result is the scheme with the second space-separated word. |
| HttpRequest.AuthBasicWord | daemon/request.py:205-208 | `Basic X rest` gives `('Basic', X)` |
| HttpRequest.AuthBearerWord | daemon/request.py:213-215 | `Bearer T rest` gives the token `T` |
| HttpRequest.Request.PrepareAuth | daemon/request.py:199-223 | the request's authentication becomes `AuthOf(value)` |
| HttpRequest.Request.PrepareBody | daemon/request.py:161-178 | the body is the data when non-empty, else the serialised JSON when the JSON value is truthy, else None; a falsy value (`{}`, `[]`, `""`, `0`, `0.0`, `False`, `None`, recognised by its serialised text in `FalsyJson`) gives no body and Content-Length `0`. The content length follows the body. Authentication is prepared only when an `authorization` header is present. |
| HttpRequest.CookieDict | daemon/request.py:229-237 | the cookie loop yields `Parse(Cookie, c)` |
| HttpRequest.Request.PrepareCookies | daemon/request.py:225-238 | stores the raw Cookie header and the parsed cookies |
| HttpRequest.Request.ParseBody | daemon/request.py:240-262 | an empty or missing body gives `{}`. A form type gives the `&`-separated pairs, with the values plus-decoded. A JSON type hands the text to the decoder. Any other type gives `{'raw': body}`. |
| Forms.FoldStep | daemon/request.py:231-235 | one item of the loop: an item with `=` assigns its key; one without changes nothing |
| Forms.FoldLatest | daemon/request.py:231-235 | the value kept for a key is that of its last item carrying that key |
| Forms.FoldAbsent | daemon/request.py:231-235 | a key no item carries is absent |
| Forms.FoldFrom | daemon/request.py:231-235 | every key kept comes, with its value, from some item |
| Forms.ItemNeedsEquals | daemon/request.py:233 | an item without `=` is skipped |
| Forms.ParseEmpty | daemon/request.py:241-242 | an empty text parses to the empty dict |
| Forms.UnquotePlain | start_backend.py:131 | text without `%` (and, for plus-decoding, without `+`) is unchanged by decoding |
| Forms.UnquotePlusSign | daemon/request.py:251-252 | `+` decodes to a space under plus-decoding, and is kept under plain decoding |
| Forms.UnquoteEscape | start_backend.py:131 | `%XX` with an ASCII value decodes to that one character |
| Assoc.PutGet | daemon/response.py:293-294 | after `d[k] = v`, `k` gives `v` and every other key gives what it gave before |
| Assoc.PutKeys | daemon/response.py:293-294 | assigning a present key keeps the key order; a new key is appended last |
| Assoc.PutAllGet | daemon/response.py:293-294 | after merging, a key present in the update gives its last update value, and any other key gives its old value |
| Assoc.PutAllKeepsOrder | daemon/response.py:293-294 | merging keeps the existing keys first and in their order |
| Assoc.AssignLatest | daemon/request.py:116-122 | in a sequence of assignments, the last assignment of a key decides its value |
| HttpResponse.Response.constructor | daemon/response.py:87-131 | a new response has status 200, reason OK, no headers and no content |
| HttpResponse.Extension | daemon/response.py:144 | the extension is empty or a suffix of the path starting with its only `.`, and contains no `/` |
| HttpResponse.MimeType | daemon/response.py:134-147 | the type the extension table gives, or `application/octet-stream` when it has none |
| HttpResponse.MimeParts | daemon/response.py:165 | a type is split at its first `/` into main type and subtype |
| HttpResponse.ContentTypeIsMime | daemon/response.py:167-191 | for the four main types, the first header set is `Content-Type` with the full type |
| HttpResponse.ContentTypeNeedsSlash | daemon/response.py:165 | a type without `/` sets no header and has no directory, because the split raises |
| HttpResponse.TextRoot | daemon/response.py:167-173 | `text/html` is read under `www/` and `text/css` under the root |
| HttpResponse.BinaryRoot | daemon/response.py:180-188 | `image/png`, `image/jpeg` and `image/gif` are read under the root; `application/json`, `application/xml` and `application/zip` under `apps/` |
| HttpResponse.StaticTypesHaveRoot | daemon/response.py:393-401 | every type build_response serves from disk has a directory, so prepare_content_type does not raise for it |
| HttpResponse.HtmlFromWww | daemon/response.py:393-394 | a path ending in `.html` is served as `text/html` from `www/`, whatever the MIME table says |
| HttpResponse.Response.PrepareContentType | daemon/response.py:150-207 | the headers set for the type are merged in. The directory is returned, or None where the source raises ValueError. |
| HttpResponse.RelPathOf | daemon/response.py:219-226 | for any path, written as a run of slashes followed by a rest that does not start with `/`: the relative path is `index.html` when the rest is empty, the rest without one leading `www/`, or the rest itself |
| HttpResponse.RootIsIndex | daemon/response.py:219-229 | the root path `/` is read from `index.html` in the content root |
| HttpResponse.BuildContent | daemon/response.py:210-263 | length 0 exactly for an empty file or a missing one whose parent directory listing succeeds. An unreadable file, or a missing one whose existing parent cannot be listed, gives the 25-byte error text. Otherwise the length is that of the bytes returned. |
| HttpResponse.DirnameOfJoin | daemon/response.py:248 | `os.path.dirname` of `d/name` is d, for a name without `/` and a d that does not end in `/` |
| HttpResponse.ContentOfFile | daemon/response.py:252-263 | a readable non-empty file gives its bytes with a non-zero length |
| HttpResponse.ContentOfReadError | daemon/response.py:244-263 | a read error, or a missing file whose parent exists but cannot be listed, gives the 25 bytes of `500 Internal Server Error` |
| HttpResponse.SentHeaderValue | daemon/response.py:280-294 | a header the response set overrides the default of the same name; any other name keeps its default |
| HttpResponse.SentHeaderOrder | daemon/response.py:280-294 | the nine default headers come first, in their fixed order, and no name is sent twice |
| HttpResponse.DefaultsUnique | daemon/response.py:280-290 | the defaults are exactly the nine fixed names, in order |
| HttpResponse.SentContentType | daemon/response.py:278-294 | the Content-Type sent is the response's own, or `text/html; charset=utf-8` |
| HttpResponse.StatusLineReason | daemon/response.py:296-299 | with no reason set, the status line is `HTTP/1.1 <status or 200> OK` |
| HttpResponse.MergeHeaders | daemon/response.py:293-294 | the merge loop yields the defaults with the response's own headers assigned over them in order |
| HttpResponse.WriteHeaderBlock | daemon/response.py:296-303 | the block is the status line, one `name: value` line per header in order, then a blank line |
| HttpResponse.Response.BuildResponseHeader | daemon/response.py:265-305 | the bytes are the UTF-8 encoding of that header block for the response's status, reason, headers and content length |
| HttpResponse.NotFoundLength | daemon/response.py:308-324 | the fixed 404 page ends with its 13-byte body `404 Not Found`, as its Content-Length says |
| HttpResponse.UnauthorizedLength | daemon/response.py:326-349 | the Content-Length of the fixed 401 page is the byte length of its HTML, and the page ends with that HTML |
| HttpResponse.UnauthorizedFirst | daemon/response.py:361-362 | status 401 always gives the fixed 401 page, ignoring the handler's headers and content |
| HttpResponse.NotFoundSecond | daemon/response.py:364-365 | status 404 always gives the fixed 404 page |
| HttpResponse.HandlerContent | daemon/response.py:368-381 | handler content is sent after the header block, with no file lookup. Content-Type defaults to HTML only when the handler set none. |
| HttpResponse.UnservedTypeNotFound | daemon/response.py:393-404 | a type not served from disk gives the fixed 404 page and changes nothing |
| HttpResponse.MissingFileNotFound | daemon/response.py:407-413 | an empty file, or a missing file whose parent listing succeeds, gives the fixed 404 page, never an empty 200 |
| HttpResponse.ReadErrorServed | daemon/response.py:407-418 | an unreadable file, or a missing file whose parent cannot be listed, is sent with status 200 (or the status already set) and the 25-byte error text |
| HttpResponse.MissingUnderFileServed | daemon/response.py:244-263 | a missing `d/name` whose directory d is a regular file or unreadable is answered with status 200 and the 25-byte error text, not with the 404 page |
| HttpResponse.FileServed | daemon/response.py:387-422 | a readable non-empty file is sent whole, after the header block, with its type's headers set |
| HttpResponse.NoPathNotFound | daemon/response.py:384-428 | with no fixed status, no content and no path, `path.endswith` raises at line 393 and the exception handler returns the fixed 404 page, leaving the state as it was |
| HttpResponse.Response.BuildResponse | daemon/response.py:351-428 | the new status, reason, headers and content, and the result, are those of the reference function `Build` on the old state |
| HttpResponse.Response.ServeResponse | daemon/response.py:367-428 | past the fixed pages: handler content if any, otherwise the fixed 404 page for a missing path, otherwise the static file |
| HttpResponse.Response.ServeStaticFile | daemon/response.py:387-422 | the static branch is the reference function `ServeStatic` on the old state |
| HttpResponse.Response.SendResponse | daemon/response.py:415-422 | sets status-or-200 and reason-or-OK, then returns the header block followed by the content |
| HttpAdapter.ApplyResult | daemon/httpadapter.py:114-148 | the result dict is merged in this order: status, headers, set_cookie, body, path. An exception sets status 500 and the error text. A non-dict result changes nothing. |
| HttpAdapter.SetCookieWins | daemon/httpadapter.py:121-129 | `set_cookie` overrides any `Set-Cookie` given in the headers |
| HttpAdapter.HookHeaderSet | daemon/httpadapter.py:121-124 | each header the hook returns is set on the response, unless `set_cookie` replaces it |
| HttpAdapter.HookTextBody | daemon/httpadapter.py:132-136 | a text body is stored as its UTF-8 encoding |
| HttpAdapter.HookRedirectsPath | daemon/httpadapter.py:139-141 | a `path` key replaces the request path |
| HttpAdapter.NotADictChangesNothing | daemon/httpadapter.py:114 | a non-dict result leaves response and path unchanged. A raising hook sets status 500 and the 21-byte body. |
| HttpAdapter.HookErrorReply | daemon/httpadapter.py:143-148 | a raising hook is still answered through build_response, as `500 OK` with body `Internal Server Error` |
| HttpAdapter.HookUnauthorized | daemon/httpadapter.py:116-118 | a hook status of 401 sends exactly the fixed 401 page |
| HttpAdapter.NoHookServesStatic | daemon/httpadapter.py:149-156 | a message with no hook is answered by static serving on a fresh response |
| HttpAdapter.UnparsedTargetNotFound | daemon/httpadapter.py:149-156 | a non-empty message whose first line has fewer than two words, on a request that never had a path, is answered with the fixed 404 page |
| HttpAdapter.Connection.SendAll | daemon/httpadapter.py:156 | the data is appended to what was sent |
| HttpAdapter.Connection.Close | daemon/httpadapter.py:167-171 | the connection is closed |
| HttpAdapter.Adapter.constructor | daemon/httpadapter.py:57-81 | the adapter keeps the connection and routes, with a fresh request and response |
| HttpAdapter.Dispatch | daemon/httpadapter.py:100-148 | after prepare and the hook, the request holds what prepare parsed with the path the hook's result may have replaced (`Prepared`), and the response is `Handled` of the parsed request |
| HttpAdapter.Answer | daemon/httpadapter.py:100-156 | on a fresh response, prepare, the hook and build_response send exactly `Exchange(msg, ...)`. The request is left as prepare parsed it (method, URL, headers, body, hook; cookies empty; authentication untouched) with the path a hook's result may have replaced, and the response state is that of `Outcome` (`Prepared` and `Answered`) |
| HttpAdapter.Adapter.HandleClient | daemon/httpadapter.py:83-171 | sends `Reply(received, ...)`: nothing for an empty message, the fixed 500 reply when receiving fails, the exchange otherwise. The connection is closed on every path. For a non-empty message the request and the new response are those `Answered` states; otherwise the request is unchanged and the response is fresh. |
| SampleApp.Tracker.constructor | start_sampleapp.py:40-50 | no users, no online peers, and one empty channel `general` |
| SampleApp.Tracker.Register | start_sampleapp.py:83-108 | 400 for a missing or empty field and for an existing name, in both cases with the users unchanged. Otherwise the user is added and 200 is returned. A decoding error gives 400. |
| SampleApp.Tracker.Login | start_sampleapp.py:115-131 | 200 iff the user is registered with exactly that password, 401 otherwise; no table changes |
| SampleApp.Tracker.BlankNeverAuthenticates | start_sampleapp.py:91-105 | on tables that keep the invariant register establishes (non-empty names and passwords), a missing or empty username or password never authenticates, so login answers 401 |
| SampleApp.RegisteredUserLogsIn | start_sampleapp.py:91-128 | right after registration the user authenticates, and other users' passwords are unchanged |
| SampleApp.Tracker.SubmitInfo | start_sampleapp.py:138-157 | 400 unless username, ip and port are all given. Otherwise the peer's address is stored and the user joins `general` only if that channel still exists. |
| SampleApp.OnlineIn | start_sampleapp.py:169-170 | exactly the channel's members that are online, each with its address |
| SampleApp.Tracker.GetList | start_sampleapp.py:164-173 | the online members of `general` |
| SampleApp.OnlineMembers | start_sampleapp.py:196-199 | the list holds each online member of the set exactly once |
| SampleApp.Tracker.GetChannels | start_sampleapp.py:180-209 | every channel, and only those, is mapped to a list of its online members |
| SampleApp.Tracker.JoinChannel | start_sampleapp.py:215-232 | the channel is created if absent and the user added; the reply is `Joined <channel>` |
| SampleApp.JoinIdempotent | start_sampleapp.py:225-230 | joining twice is the same as joining once |
| SampleApp.JoinOnlyTouchesChannel | start_sampleapp.py:225-230 | joining leaves every other channel as it was, and the user is a member afterwards |
| SampleApp.Tracker.GetChannelPeers | start_sampleapp.py:239-276 | 400 for missing fields, 404 for an unknown channel, 403 for a non-member, else exactly the channel's online members. A decoding error gives 500. |
| SampleApp.Tracker.LeaveChannel | start_sampleapp.py:283-310 | a member is removed from the channel, and the channel is deleted when it empties. A non-member or unknown channel gives 404 with no change. |
| SampleApp.LeaveDeletesEmptied | start_sampleapp.py:296-307 | the channel survives iff another member remains; the leaver is gone; other channels are untouched |
| SampleApp.Tracker.Logout | start_sampleapp.py:317-343 | the user goes offline and is removed from every channel; no channel is deleted |
| SampleApp.LogoutRemovesEverywhere | start_sampleapp.py:329-340 | every channel remains, without the user, and every other member stays |
| Backend.ContentTypeFor | start_backend.py:95-103 | `.html` gives text/html, else `.css` gives text/css, else `.js` gives application/javascript, else text/plain |
| Backend.MissingPageNotFound | start_backend.py:87-89 | a missing file gives status 404, which the engine sends as the fixed 404 page |
| Backend.PageServed | start_backend.py:92-110 | a readable file gives status 200, its suffix's Content-Type and its text |
| Backend.PageReadError | start_backend.py:112-114 | a read error gives status 500 and the error after `Internal Server Error: ` |
| Backend.HandleLoginPost | start_backend.py:121-154 | the form loop and the credential comparison give the reference function `LoginPostResult(body)` |
| Backend.FormField | start_backend.py:129-131 | a `key=value` pair is split at its first `=` and its value is decoded |
| Backend.FormFields | start_backend.py:128-131 | a later pair is assigned after the earlier ones |
| Backend.TwoFields | start_backend.py:126-131 | a body of two pairs parses to both decoded values, the second one winning a shared key |
| Backend.LoginForm | start_backend.py:121-154 | a `username=u&password=p` body redirects iff u and p decode to `admin` and `password`; otherwise it is the 401 result |
| Backend.RedirectResponse | start_backend.py:138-148 | the redirect sent is status 302 reason OK, with `Location: /index.html` and the auth cookie |
| Backend.HandleIndex | start_backend.py:156-185 | the cookie loop and the auth comparison give the reference function `IndexResult(headers, www)` |
| Backend.AuthCookieServesIndex | start_backend.py:162-179 | a Cookie header whose last `auth` pair is `auth=true` is served the index page |
| Backend.NoCookieDenied | start_backend.py:162-185 | without a Cookie header the result is 401 with the denial HTML |
| Backend.DenialsSendFixedPage | start_backend.py:151-154 | any 401 result the handlers return is sent as the engine's fixed 401 page, not the handler's body |
| Backend.RoutesResolve | start_backend.py:188-199 | exactly `/` GET, `/index.html` GET, `/login` GET and `/login` POST resolve, each to its handler |
| Backend.AppRoutes | start_backend.py:188-199 | the table the engine takes resolves exactly those routes, and each resolved hook returns its handler's result: `handle_index` for `/` and `/index.html`, `handle_login_post` for `/login` POST |
| ApiClient.BuildRequest | register_user.py:16-36 | the request text built line by line equals the reference `RequestText` |
| ApiClient.RequestLayout | register_user.py:19-36 | request line, Host, Connection, then Content-Type and Content-Length exactly when the body is non-empty, a blank line, the body |
| ApiClient.MessageRoundTrip | register_user.py:24-36 | a message of non-empty lines joined by CRLF, a blank line and a body parses back into those lines and that body |
| ApiClient.RequestSplit | register_user.py:24-36 | the server parser splits the request back into its request line, its header lines and its body |
| ApiClient.TargetRoundTrip | register_user.py:24-25 | the server parses back the method and path sent |
| ApiClient.BodyRoundTrip | register_user.py:35-36 | the server parses back exactly the body sent |
| ApiClient.HeaderLine | register_user.py:26-33 | each header line parses back to its lower-cased name and its value |
| ApiClient.HeadersRoundTrip | register_user.py:26-33 | the server's headers are exactly host and connection, plus content-type and content-length iff the body is non-empty |
| ApiClient.ContentLengthRoundTrip | register_user.py:31-33 | the content-length parsed back is a numeral whose value is the UTF-8 byte length of the body |
| ApiClient.ResponseBodyAfterHead | register_user.py:70-75 | the body read back is the stripped text after the first blank line, or None when that is empty |
| ApiClient.NoBlankNoBody | register_user.py:82-83 | a reply without a blank line has no body |
| ApiClient.PrintedPort | register_user.py:122-128 | a decimal numeral is a valid port iff its value is in 1..65535 |
| ApiClient.SignedPort | register_user.py:124-128 | `int()` accepts a leading `+`, so `+n` is valid iff n is in 1..65535; `-n` is never valid |
| ApiClient.SeparatedPort | register_user.py:124-128 | one `_` between two runs of digits is skipped, so `a_b` is valid iff the number `ab` is in 1..65535 |
| ApiClient.PaddedPort | register_user.py:124-128 | whitespace before and after the text does not change whether it is a valid port |
| ApiClient.StrayCharPort | register_user.py:124-128 | a character other than an ASCII digit, `_`, a sign or whitespace makes `int()` raise, so the text is not a valid port |

## Left out

- Sockets: receiving, sending and closing are the `Connection` object and the `Received` parameter. The client's connect-and-read loop is left out; its reply is a parameter (`ApiClient.ReplyBody`).
- `recv(1024)` truncation and UTF-8 decoding errors are folded into `Received.Failed`, or into a message that is already whatever text arrived.
- Threads and locks (`db_lock`): the model is sequential.
- HttpRequest.Request.PrepareBody: the JSON value is given as its `json.dumps` text, and its falsiness is read from that text (`FalsyJson`); values whose `__bool__` is custom, or serialised through a `default=` hook, are not modelled.
- JSON: handlers of the tracker take the decoded body (an object of string fields, or the decoder's error message). SampleApp.Tracker.SubmitInfo therefore does not model the falsiness of a numeric `port` of 0, which the source refuses with 400 while the model's text `"0"` is accepted. The client's payload is its serialised text. `json.loads` on replies is not modelled.
- SampleApp: the route decorator and the wrapping of tracker replies into HTTP responses belong to daemon/weaprous.py, which is not part of this model.
- `mimetypes.guess_type` is an extension-to-type table; its own rules for extensions are not modelled.
- Forms.UnquoteEscape: decodes `%XX` to a single character only for ASCII values; multi-byte UTF-8 escapes are not modelled.
- ApiClient.IsValidPort and ApiClient.StrayCharPort: `int()` is modelled with surrounding whitespace, a sign and `_` separators, but with ASCII digits only; non-ASCII decimal digits such as fullwidth `８０`, which `int()` also reads, are refused by the model.
- The `Date` header is a parameter (`Env.date`); the clock is not modelled.
- `print`, `traceback` and all logging are left out.
- HttpResponse.NotFoundPage and HttpResponse.UnauthorizedPage: the fixed pages are written as the byte values of their text; the model proves their lengths and bodies, not that every header character is ASCII.
- HttpAdapter.ApplyResult: a hook that raises only after part of its dict was applied is not modelled; a hook either returns a whole result or raises before any effect.
- Hook results with values of other types than those in `HookResult` (a non-string path, a non-dict `headers`) are not modelled.
- `daemon/dictionary.py` (`CaseInsensitiveDict`) is not part of this model; request headers are a map keyed by the lower-cased name.
- HttpRequest.Request.PrepareContentLength and HttpRequest.Request.PrepareCookies: when the headers are empty, the source rebinds them to a plain dict and stores the case-sensitive keys `Content-Length` and `Cookie` (daemon/request.py:182-183, 226-227); the model writes the lower-cased keys into the same map in every case.
- Text.ToLower: lowers ASCII letters only, while Python's `str.lower()` also lowers non-ASCII letters; HttpRequest.HeaderStep and HttpRequest.HeaderNamesLower are therefore stated for that ASCII lowering of header names.
- `register_user()` and `main()` of register_user.py, and every `argparse`/`__main__` block, are entry points and are left out.
- chat_client.py is not part of this model; its `call_API` is the same as the one modelled.
- `HttpAdapter.extract_cookies`, `build_response`, `add_headers` and `build_proxy_headers` are unused or uncallable and are left out.
