# Request handling of the webproxy-lab proxy and Tiny server, in Dafny

This project models how the two HTTP/1.0 programs of webproxy-lab handle the
text of a request. Each program reads the client's request line with the
CS:APP robust reader and splits it with `sscanf("%s %s %s")`.

- **The proxy** (`webproxy-lab/proxy.c`):
  - returns when the first read gives nothing;
  - strips one leading `/` off the request-target in place with `memmove`;
  - drops any method other than `GET` (compared ignoring case);
  - splits an absolute-form target `http://host[:port][/path]` into hostname, port (default `"80"`) and path (default `"/"`) (`parse_uri`);
  - builds the HTTP/1.0 request it sends to the origin server (`build_http_header`).
- **The Tiny server** (`webproxy-lab/.proxy/tiny.c`):
  - answers any method other than `GET` with a 501 error page (`clienterror`);
  - skips the request headers up to the blank line (`read_requesthdrs`);
  - maps the target to a static file or to a CGI program with its query arguments (`parse_uri`);
  - picks a MIME type from the file name (`get_filetype`);
  - writes the response head that comes before a static file (`serve_static`).

Modules, one file each:

- `Wrappers`: `Option`.
- `CStrings`: the C library calls used, over `string`. These are `isspace`, `tolower`, `strcasecmp`, `strncasecmp`, `strchr` and `strstr`. It also defines the C string held in a NUL-terminated buffer.
- `Lines`: text as a sequence of lines, each ending in `'\n'`.
- `Decimal`: `printf`'s `%d` and reading such a field back as a number.
- `RequestLine`: `sscanf(buf, "%s %s %s", method, uri, version)`.
- `Http`: the receiving side of a message head. It covers where a reader that consumes lines up to `"\r\n"` stops, looking a header field up by name, and `Content-length` as a number. The proofs use it to say what the programs' output means to whoever reads it.
- `Rio`: the state of a connection read line by line (`rio_t` and `Rio_readlineb`), as a class.
- `Proxy`: `proxy.c`.
- `Tiny`: `tiny.c`.

The code is modelled in the form it has:

- The proxy's `memmove` works in place on an `array<char>`.
- Tiny's `parse_uri` writes a NUL into its `uri` array.
- The `sprintf`/`strcat` builders are methods. They append step by step and are proved against functions that give the lines of the output.
- `read_requesthdrs` is a `while` loop over a `Rio.LineReader`.
- `parse_uri`, `get_filetype` and the request-line split are functions.

The proxy is simpler than a full caching proxy:

- There is no object cache; `MAX_CACHE_SIZE` and `MAX_OBJECT_SIZE` are defined but unused.
- There are no threads.
- The proxy forwards no client headers. `Host` is always the parsed hostname.
- The port stays a string.
- The leading `/` is stripped before parsing.

## Model

| member | source | states |
|---|---|---|
| CStrings.IndexOf | webproxy-lab/proxy.c:87 | `strchr`: no result exactly when the character is absent; otherwise the index of its first occurrence |
| CStrings.Occurs | webproxy-lab/.proxy/tiny.c:179 | `strstr(s, p) != NULL` exactly when `p` occurs at some index of `s` |
| CStrings.EqualsIgnoreCase | webproxy-lab/proxy.c:53 | `strcasecmp(a, b) == 0` exactly when `a` and `b` are the same string once every letter of both is lower-cased |
| CStrings.HasPrefixIgnoreCase | webproxy-lab/proxy.c:83 | `strncasecmp(s, p, strlen(p)) == 0` exactly when `s` is at least as long as `p` and its first `|p|` characters, lower-cased, are `p` lower-cased |
| CStrings.CStr | webproxy-lab/proxy.c:48-49 | the C string in a buffer is everything before its first NUL, and holds no NUL |
| Lines.SplitLinesConcat | webproxy-lab/.proxy/tiny.c:159-167 | complete lines written one after another are read back by a line reader as the same lines |
| Lines.ConcatSplitLines | webproxy-lab/.proxy/tiny.c:159-167 | splitting text into lines and writing them out again gives the text back |
| Decimal.NatToDecimal | webproxy-lab/.proxy/tiny.c:143 | `%d` of a non-negative number is a non-empty string of digits without a leading zero |
| Decimal.IntToDecimal | webproxy-lab/.proxy/tiny.c:234 | `%d` starts with `-` exactly for a negative number, and the rest is one or more digits |
| Decimal.NatToDecimalRoundTrip | webproxy-lab/.proxy/tiny.c:143 | reading back the digits `%d` prints for `n` gives `n` |
| Decimal.IntToDecimalRoundTrip | webproxy-lab/.proxy/tiny.c:234 | every integer printed with `%d` (a sign for negatives) reads back as itself |
| RequestLine.Words | webproxy-lab/proxy.c:45 | the `%s` fields of a line are non-empty, hold no white space, and consist of the line's own characters; there are none exactly when the line is all white space |
| RequestLine.WordsSpaced | webproxy-lab/proxy.c:45 | white space, then a word ending at white space or at the end of the line: that word is the first field, and the fields of the rest follow it |
| RequestLine.ParseRequestLine | webproxy-lab/proxy.c:45 | method, uri and version hold no white space and only characters of the line; the uri is empty exactly when the line has fewer than two words |
| RequestLine.ParseRequestLineOf | webproxy-lab/.proxy/tiny.c:73 | a line made of optional white space, `m`, white space, `u`, white space, `v` and anything that starts with white space splits into exactly `m`, `u` and `v`, for any single-word `m`, `u` and `v` |
| RequestLine.ParseSimpleRequestLine | webproxy-lab/.proxy/tiny.c:73 | the line `m u v\r\n` with single-word parts splits into exactly `m`, `u` and `v` |
| Http.HeaderEnd | webproxy-lab/.proxy/tiny.c:159-167 | where a reader consuming lines up to `"\r\n"` stops: just past the first blank line at or after `p`, or at the end when there is none; no blank line lies before it |
| Http.HeaderValue | webproxy-lab/.proxy/tiny.c:143 | no value exactly when no line of the head has the form `name: v\r\n`; otherwise the value of the first such line |
| Rio.LineReader.ReadLineb | webproxy-lab/.proxy/tiny.c:159-165 | `Rio_readlineb`: the next line and its length; at end of stream it returns 0 and leaves the buffer as it was |
| Proxy.StripLeadingSlash | webproxy-lab/proxy.c:48-49 | `memmove` in place: the C string in the buffer afterwards is the old one with one leading `/` removed, if it had one, and is otherwise unchanged |
| Proxy.DropLeadingSlash | webproxy-lab/proxy.c:48-49 | the result is the target with exactly one character removed from its front when that character is `/`, and with none removed otherwise |
| Proxy.HostSpec | webproxy-lab/proxy.c:96-103 | the host-spec holds no `/` |
| Proxy.PathOf | webproxy-lab/proxy.c:86-93 | the path always starts with `/` |
| Proxy.SplitHostSpec | webproxy-lab/proxy.c:105-113 | the hostname holds no `:`; a host-spec without `/` gives hostname and port without `/` |
| Proxy.ParseUri | webproxy-lab/proxy.c:80-116 | failure (-1) exactly when the uri does not start with `http://` in any case; otherwise the hostname holds no `:` or `/`, the port no `/`, and the path starts with `/` |
| Proxy.SplitHostSpecReassembles | webproxy-lab/proxy.c:105-113 | hostname, plus `":" + port` when there is a `:`, gives the host-spec back; without a `:` the port is `"80"` |
| Proxy.HostSpecThenPath | webproxy-lab/proxy.c:86-103 | after the scheme comes the host-spec, then the path when the uri has a `/` |
| Proxy.ParseUriReassembles | webproxy-lab/proxy.c:86-113 | round trip: hostname, `":" + port` when the host-spec has a port, and the path when there is a `/`, give back the uri without its first 7 characters; the defaults are `"80"` and `"/"` |
| Proxy.ParseUriOfParts | webproxy-lab/proxy.c:80-116 | the converse round trip: a scheme in any case, a hostname, an optional port and an optional path parse into exactly those parts, defaults filled in; an empty hostname or a non-numeric port is accepted |
| Proxy.ParseUriNoSpace | webproxy-lab/proxy.c:86-113 | parts cut from a uri without white space have none either |
| Proxy.ConcatOutbound | webproxy-lab/proxy.c:121-126 | the request lines written out are exactly `GET path HTTP/1.0\r\n`, `Host: hostname\r\n`, the User-Agent line, `Connection: close\r\n`, `Proxy-Connection: close\r\n\r\n` |
| Proxy.BuildHttpHeader | webproxy-lab/proxy.c:118-127 | the appended request equals those lines; it starts with `GET ` and ends with a blank line |
| Proxy.UserAgentIsLine | webproxy-lab/proxy.c:6-8 | the fixed User-Agent header is one complete line |
| Proxy.OutboundAllLines | webproxy-lab/proxy.c:121-126 | every line of the built request is one complete line |
| Proxy.OutboundHeaderEnd | webproxy-lab/proxy.c:121-126 | a reader starting after the request line stops exactly at the end of the request |
| Proxy.OutboundReadsBack | webproxy-lab/proxy.c:118-127 | the origin reads the request back as the same lines; the first is the request line `GET path HTTP/1.0`, and the head ends at the final blank line |
| Proxy.HandleRequestLine | webproxy-lab/proxy.c:44-63 | dropped for an empty read exactly when nothing was read; dropped as unsupported exactly when the method is not `GET` in any case; forwarded exactly for a `GET` whose target, after one `/` is stripped, starts with `http://` |
| Proxy.ForwardedRequestReadsBack | webproxy-lab/proxy.c:45-63 | whatever is forwarded carries the target `parse_uri` gave and is read back by the origin as a `GET` for that path with a well-ended head |
| Proxy.Doit | webproxy-lab/proxy.c:43-63 | reads one line (none at end of stream), strips the target in its buffer, checks the method, parses, and builds the request as `HandleRequestLine` says |
| Tiny.ParseUri | webproxy-lab/.proxy/tiny.c:170-215 | static exactly when the uri does not contain `cgi-bin`; the filename starts with `.`; static: no arguments, filename `.` + uri, then `home.html` exactly when the uri ends in `/`; dynamic: the filename holds no `?`; with a `?` in the uri, filename then `"?" + cgiargs` gives `"." + uri` back; without one, the filename is `"." + uri` and there are no arguments |
| Tiny.ParseUriOfQuery | webproxy-lab/.proxy/tiny.c:190-207 | a CGI target `program?args` with no `?` in the program parses into the filename `"." + program` and the arguments `args` |
| Tiny.ParseUriOfProgram | webproxy-lab/.proxy/tiny.c:190-205 | a CGI target without `?` parses into the filename `"." + program` and no arguments |
| Tiny.StaticKeepsQuery | webproxy-lab/.proxy/tiny.c:179-189 | a static target keeps its `?` in the file name and has no arguments (`/a?b` gives `./a?b`) |
| Tiny.DirectoryServesHtml | webproxy-lab/.proxy/tiny.c:186-187 | a static target ending in `/` is served `home.html` in it, which gets the type `text/html` |
| Tiny.ParseUriInPlace | webproxy-lab/.proxy/tiny.c:170-215 | results as `ParseUri` gives them for the C string in the buffer; in the dynamic case with a `?`, exactly that first `?` is overwritten with NUL, and the buffer then holds the filename without its `.`; otherwise the buffer is unchanged |
| Tiny.GetFiletype | webproxy-lab/.proxy/tiny.c:265-283 | `text/html` exactly when the name holds `.html`; `text/plain` exactly when it holds none of `.html`, `.gif`, `.mpg`, `.mp4`, `.png`, `.jpg` |
| Tiny.FirstMatch | webproxy-lab/.proxy/tiny.c:269-282 | an ordered table lookup: the value of an entry whose key occurs, with no earlier key occurring, or the default when no key occurs |
| Tiny.GetFiletypeIsFirstMatch | webproxy-lab/.proxy/tiny.c:265-283 | `get_filetype` is the first match in the ordered table `.html`, `.gif`, `.mpg`, `.mp4`, `.png`, `.jpg`, else `text/plain` |
| Tiny.FiletypeBySubstring | webproxy-lab/.proxy/tiny.c:269-270 | a fragment is matched anywhere in the name, not only as a suffix (`./index.html.bak` is `text/html`) |
| Tiny.ClientError | webproxy-lab/.proxy/tiny.c:119-148 | the bytes written are the head for the page, then the page built by the `sprintf` calls |
| Tiny.ClientErrorFraming | webproxy-lab/.proxy/tiny.c:129-146 | a client reads the error response as complete header lines up to the blank line; `Content-type` is `text/html` and `Content-length` is the length of the page |
| Tiny.ServeStaticHeaders | webproxy-lab/.proxy/tiny.c:228-235 | the header block equals the lines `HTTP/1.0 200 OK`, `Server`, `Connection`, `Content-length`, `Content-type` with the type of the file, and the blank line |
| Tiny.ServeStaticFraming | webproxy-lab/.proxy/tiny.c:231-235 | a client reads the header block as complete lines ending at the blank line; `Content-length` reads back as the file size and `Content-type` as the type `get_filetype` chose |
| Tiny.BufferAfter | webproxy-lab/.proxy/tiny.c:159-167 | the reader's position and buffer after `k` reads of the loop as written; the position never passes the end of the stream |
| Tiny.BufferAfterIs | webproxy-lab/.proxy/tiny.c:159-167 | after `k` reads from position `p`, the reader is `k` lines on and holds the last line read; at end of stream it stays at the end with the buffer unchanged |
| Tiny.ReadRequestHdrsAsWrittenStops | webproxy-lab/.proxy/tiny.c:159-167 | when a blank line follows, the loop as written stops right after it and not before |
| Tiny.ReadRequestHdrsAsWrittenNeverStops | webproxy-lab/.proxy/tiny.c:159-167 | when the client closes before any blank line, the buffer the loop as written tests is never `"\r\n"`, however many reads it makes |
| Tiny.ReadRequestHdrsAsWrittenHangs | webproxy-lab/.proxy/tiny.c:159-167 | a client that sends one header line and closes keeps the loop as written reading forever |
| Tiny.ReadRequestHdrs | webproxy-lab/.proxy/tiny.c:149-169 | the reader ends just past the first blank line, or at the end of the stream when there is none |
| Tiny.Dispatch | webproxy-lab/.proxy/tiny.c:73-86 | the 501 page, with the method as its cause, exactly when the method is not `GET` in any case; no file exactly for a `GET` without a target; otherwise the target is what `parse_uri` makes of the uri |
| Tiny.DispatchOfGet | webproxy-lab/.proxy/tiny.c:73-86 | the line `GET uri HTTP/1.0` is served as `parse_uri` takes the uri apart |
| Tiny.NotImplementedFraming | webproxy-lab/.proxy/tiny.c:76-80 | the 501 response carries a `Content-length` equal to the length of its page |
| Tiny.Doit | webproxy-lab/.proxy/tiny.c:65-86 | reads the request line; on the 501 path it returns without reading further; otherwise it reads the headers up to the blank line, or to the end of the stream (the corrected loop under "## Findings"; the loop as written does not stop there), and parses the target in its buffer, as `Dispatch` says |

## Left out

- Sockets, `Open_listenfd`, `Accept`, `Open_clientfd` and the `main` accept loops of both programs. These are I/O plumbing.
- The proxy's connection to the origin server, `Open_clientfd` and its failure return (webproxy-lab/proxy.c:64-68), and the writing of the built request (webproxy-lab/proxy.c:70-71). These are socket plumbing.
- The proxy's relay loop (webproxy-lab/proxy.c:73-77). It copies bytes between sockets without any logic of its own.
- Tiny's `stat` checks and the 404 and 403 pages (webproxy-lab/.proxy/tiny.c:91-113). They depend on the file system.
- `serve_static`'s file reading and its `malloc` failure page (webproxy-lab/.proxy/tiny.c:241-263).
- `serve_dynamic`. It only runs processes.
- `printf` logging.
- The echo programs under `webproxy-lab/echo`. They are socket plumbing only.
- A cache and its eviction. None is implemented; the size constants at webproxy-lab/proxy.c:3-4 are never used.
- The CS:APP library (`csapp.c`) is not part of this model. `Rio.LineReader` states what its callers rely on:
  - `Rio_readlineb` returns one line at a time.
  - At end of stream it returns 0 and does not touch the caller's buffer.
  - Lines longer than `MAXLINE` would be split across calls; that is not modelled.
- Buffer sizes are not modelled. `MAXLINE`, `MAXBUF` and the proxy's 10-byte `port` buffer can overflow on long input; the model's strings are unbounded.
- NUL bytes inside a received line are not modelled. Every line is assumed free of them, so the C string functions see the whole line.
- `sscanf` leaves a field's buffer uninitialised when the line has fewer words. The model reads a missing field as `""`. Two cases depend on this:
  - At end of stream, Tiny's first read leaves `buf` uninitialised. The model gives it the method `""`, which gets the 501 page.
  - A `GET` without a target would make Tiny's `parse_uri` read uninitialised memory. `Tiny.Dispatch` answers `MissingUri` there instead of naming a file.
- Tiny.ParseUri requires a non-empty uri. For `""` the C code reads `uri[-1]`.
- `clienterror` runs `sprintf(body, "%s...", body, ...)` with the target as a source argument. The C standard leaves that undefined. The model takes the usual outcome, an append.
- Tiny.ServeStaticHeaders: the `int filesize` is an unbounded integer, so the truncation of a file size of 2^31 bytes or more to `int` is not modelled.

## Findings

| source | as written | input that shows it | evidently intended | confidence | as-written member | corrected member |
|---|---|---|---|---|---|---|
| webproxy-lab/.proxy/tiny.c:159-167 | `read_requesthdrs` loops while the buffer is not `"\r\n"`. At end of stream `Rio_readlineb` returns 0 and leaves the buffer as it was. | A client sends `GET / HTTP/1.0\r\n`, then `Host: x\r\n`, and closes the connection. The buffer keeps `Host: x\r\n` forever and the server never returns to `accept`. | Stop at the blank line or at end of stream, whichever comes first. | not executed | Tiny.ReadRequestHdrsAsWrittenHangs | Tiny.ReadRequestHdrs |
