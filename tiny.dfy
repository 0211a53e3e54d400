/**
 * The request side of the Tiny web server (webproxy-lab/.proxy/tiny.c):
 * refuse anything but GET with a 501 page, skip the request headers, map
 * the target to a static file or a CGI program with its arguments, pick a
 * MIME type by file name, and write the response head that precedes a
 * static file.
 */
module Tiny {
  import opened Wrappers
  import opened CStrings
  import opened Decimal
  import opened Lines
  import opened RequestLine
  import opened Http
  import Rio

  // ---------------------------------------------------------------------
  // parse_uri
  // ---------------------------------------------------------------------

  /** A target naming this substring anywhere is served by a CGI program. */
  const CgiBin := "cgi-bin"
  /** The page served for a target that names a directory. */
  const HomePage := "home.html"

  /** What parse_uri hands back: static or not, the file to use, the CGI arguments. */
  datatype UriTarget = UriTarget(isStatic: bool, filename: string, cgiargs: string)

  /**
   * parse_uri on a non-empty target (it reads the target's last character).
   * Static: the file is "." + uri, plus home.html for a directory, and no
   * arguments.  Dynamic: the target splits at its first '?' into the
   * program (after a ".") and the arguments.
   */
  function ParseUri(uri: string): (r: UriTarget)
    requires uri != []
    ensures r.isStatic <==> !Occurs(uri, CgiBin)
    ensures |r.filename| > 0 && r.filename[0] == '.'
    ensures r.isStatic ==>
      && r.cgiargs == []
      && |r.filename| > |uri|
      && r.filename[..|uri| + 1] == "." + uri
      && r.filename[|uri| + 1..] == (if uri[|uri| - 1] == '/' then HomePage else [])
    ensures !r.isStatic ==>
      && '?' !in r.filename
      && "." + uri == r.filename + (if '?' in uri then "?" + r.cgiargs else [])
      && ('?' !in uri ==> r.cgiargs == [])
  {
    if !Occurs(uri, CgiBin) then StaticTarget(uri) else CgiTarget(uri)
  }

  /** The static branch of parse_uri. */
  function StaticTarget(uri: string): (r: UriTarget)
    requires uri != []
    ensures r.isStatic && r.cgiargs == [] && |r.filename| > |uri|
    ensures r.filename[..|uri| + 1] == "." + uri
    ensures r.filename[|uri| + 1..] == (if uri[|uri| - 1] == '/' then HomePage else [])
  {
    var filename := "." + uri;
    if uri[|uri| - 1] == '/' then
      assert (filename + HomePage)[..|uri| + 1] == filename;
      UriTarget(true, filename + HomePage, "")
    else
      UriTarget(true, filename, "")
  }

  /** The CGI branch of parse_uri. */
  function CgiTarget(uri: string): (r: UriTarget)
    ensures !r.isStatic && |r.filename| > 0 && r.filename[0] == '.' && '?' !in r.filename
    ensures "." + uri == r.filename + (if '?' in uri then "?" + r.cgiargs else [])
    ensures '?' !in uri ==> r.cgiargs == []
  {
    match IndexOf(uri, '?')
    case Some(k) =>
      CgiSplit(uri, k);
      UriTarget(false, "." + uri[..k], uri[k + 1..])
    case None =>
      UriTarget(false, "." + uri, "")
  }

  lemma CgiSplit(uri: string, k: nat)
    requires k < |uri| && uri[k] == '?'
    ensures "." + uri == "." + uri[..k] + "?" + uri[k + 1..]
  {
    assert uri == uri[..k] + "?" + uri[k + 1..];
  }

  /** A CGI target with a query reads back as its program and its arguments. */
  lemma ParseUriOfQuery(program: string, args: string)
    requires Occurs(program, CgiBin) && '?' !in program
    ensures ParseUri(program + "?" + args) == UriTarget(false, "." + program, args)
  {
    var uri := program + "?" + args;
    var i :| OccursAt(program, CgiBin, i);
    assert uri[i..i + |CgiBin|] == program[i..i + |CgiBin|];
    assert OccursAt(uri, CgiBin, i);
    assert uri[..|program|] == program;
    IndexOfIs(uri, '?', |program|);
    assert uri[|program| + 1..] == args;
  }

  /** A CGI target without a query names the program after a "." and has no arguments. */
  lemma ParseUriOfProgram(program: string)
    requires Occurs(program, CgiBin) && '?' !in program
    ensures ParseUri(program) == UriTarget(false, "." + program, "")
  {
    var i :| OccursAt(program, CgiBin, i);
    assert program != [];
  }

  /** A static target keeps any '?' in the file name: only CGI targets have arguments. */
  lemma StaticKeepsQuery()
    ensures ParseUri("/a?b") == UriTarget(true, "./a?b", "")
  {
  }

  /** A name ending in p holds p. */
  lemma OccursAsSuffix(a: string, b: string, p: string)
    requires |p| <= |b| && b[|b| - |p|..] == p
    ensures Occurs(a + b, p)
  {
    var s := a + b;
    assert s[|s| - |p|..|s|] == b[|b| - |p|..];
    assert OccursAt(s, p, |s| - |p|);
  }

  lemma DirectoryFilename(uri: string)
    requires uri != [] && !Occurs(uri, CgiBin) && uri[|uri| - 1] == '/'
    ensures ParseUri(uri).filename == "." + uri + HomePage
  {
    var f := ParseUri(uri).filename;
    assert f == f[..|uri| + 1] + f[|uri| + 1..];
  }

  /** A directory target is served its home page, which is sent as HTML. */
  lemma DirectoryServesHtml(uri: string)
    requires uri != [] && !Occurs(uri, CgiBin) && uri[|uri| - 1] == '/'
    ensures ParseUri(uri).filename == "." + uri + HomePage
    ensures GetFiletype(ParseUri(uri).filename) == "text/html"
  {
    DirectoryFilename(uri);
    HomePageIsHtml();
    OccursAsSuffix("." + uri, HomePage, ".html");
    HtmlType("." + uri + HomePage);
  }

  lemma HomePageIsHtml()
    ensures |HomePage| >= 5 && HomePage[|HomePage| - 5..] == ".html"
  {
  }

  lemma HtmlType(f: string)
    requires Occurs(f, ".html")
    ensures GetFiletype(f) == "text/html"
  {
  }

  /**
   * parse_uri as the C code runs it on the target buffer: in the dynamic
   * case with a '?', it writes a NUL over that '?', so that the buffer then
   * holds the program name alone.
   */
  method ParseUriInPlace(uri: array<char>) returns (isStatic: bool, filename: string, cgiargs: string)
    requires '\0' in uri[..] && CStr(uri[..]) != []
    modifies uri
    ensures UriTarget(isStatic, filename, cgiargs) == ParseUri(old(CStr(uri[..])))
    ensures isStatic || '?' !in old(CStr(uri[..])) ==> uri[..] == old(uri[..])
    ensures !isStatic && '?' in old(CStr(uri[..])) ==>
      uri[..] == old(uri[..])[IndexOf(old(CStr(uri[..])), '?').value := '\0']
    ensures '\0' in uri[..] && (!isStatic ==> filename == "." + CStr(uri[..]))
  {
    var u := CStr(uri[..]);
    if !Occurs(u, CgiBin) {
      cgiargs := "";
      filename := ".";
      filename := filename + u;
      if u[|u| - 1] == '/' {
        filename := filename + HomePage;
      }
      isStatic := true;
    } else {
      var q := IndexOf(u, '?');
      if q.Some? {
        cgiargs := u[q.value + 1..];
        uri[q.value] := '\0';
        assert uri[..][..q.value] == u[..q.value];
        IndexOfIs(uri[..], '\0', q.value);
      } else {
        cgiargs := "";
      }
      filename := ".";
      filename := filename + CStr(uri[..]);
      isStatic := false;
    }
  }

  // ---------------------------------------------------------------------
  // get_filetype
  // ---------------------------------------------------------------------

  /** The name fragments get_filetype looks for, in the order it tries them, and their types. */
  const MimeTable: seq<(string, string)> := [
    (".html", "text/html"),
    (".gif", "image/gif"),
    (".mpg", "video/mpeg"),
    (".mp4", "video/mp4"),
    (".png", "image/png"),
    (".jpg", "image/jpeg") ]

  /** The type of a file whose name holds none of the fragments. */
  const DefaultType := "text/plain"

  /** get_filetype: the type of the first fragment found anywhere in the name. */
  function GetFiletype(filename: string): (t: string)
    ensures t == "text/html" <==> Occurs(filename, ".html")
    ensures t == DefaultType <==>
      && !Occurs(filename, ".html") && !Occurs(filename, ".gif") && !Occurs(filename, ".mpg")
      && !Occurs(filename, ".mp4") && !Occurs(filename, ".png") && !Occurs(filename, ".jpg")
  {
    if Occurs(filename, ".html") then "text/html"
    else if Occurs(filename, ".gif") then "image/gif"
    else if Occurs(filename, ".mpg") then "video/mpeg"
    else if Occurs(filename, ".mp4") then "video/mp4"
    else if Occurs(filename, ".png") then "image/png"
    else if Occurs(filename, ".jpg") then "image/jpeg"
    else DefaultType
  }

  /** The value of the first entry of table whose key occurs in s, or otherwise. */
  function FirstMatch(table: seq<(string, string)>, s: string, otherwise: string): (t: string)
    ensures
      || (exists i :: 0 <= i < |table| && Occurs(s, table[i].0) && t == table[i].1
            && forall j :: 0 <= j < i ==> !Occurs(s, table[j].0))
      || (t == otherwise && forall j :: 0 <= j < |table| ==> !Occurs(s, table[j].0))
  {
    if table == [] then otherwise
    else if Occurs(s, table[0].0) then
      assert Occurs(s, table[0].0) && table[0].1 == table[0].1;
      table[0].1
    else
      var t := FirstMatch(table[1..], s, otherwise);
      if exists i :: 0 <= i < |table[1..]| && Occurs(s, table[1..][i].0) && t == table[1..][i].1
                       && forall j :: 0 <= j < i ==> !Occurs(s, table[1..][j].0) then
        var i :| 0 <= i < |table[1..]| && Occurs(s, table[1..][i].0) && t == table[1..][i].1
                 && forall j :: 0 <= j < i ==> !Occurs(s, table[1..][j].0);
        assert forall j :: 0 <= j < i + 1 ==> !Occurs(s, table[j].0) by {
          forall j | 0 <= j < i + 1 ensures !Occurs(s, table[j].0) {
            if j > 0 {
              assert table[j] == table[1..][j - 1];
            }
          }
        }
        assert table[i + 1] == table[1..][i];
        t
      else
        assert forall j :: 0 <= j < |table| ==> !Occurs(s, table[j].0) by {
          forall j | 0 <= j < |table| ensures !Occurs(s, table[j].0) {
            if j > 0 {
              assert table[j] == table[1..][j - 1];
            }
          }
        }
        t
  }

  lemma FirstMatchCons(e: (string, string), rest: seq<(string, string)>, s: string, otherwise: string)
    ensures FirstMatch([e] + rest, s, otherwise)
         == if Occurs(s, e.0) then e.1 else FirstMatch(rest, s, otherwise)
  {
    assert ([e] + rest)[0] == e && ([e] + rest)[1..] == rest;
  }

  /** The if-chain of get_filetype is the ordered table lookup. */
  lemma GetFiletypeIsFirstMatch(filename: string)
    ensures GetFiletype(filename) == FirstMatch(MimeTable, filename, DefaultType)
  {
    var t := MimeTable;
    assert t == [t[0]] + t[1..] && t[1..] == [t[1]] + t[2..] && t[2..] == [t[2]] + t[3..];
    assert t[3..] == [t[3]] + t[4..] && t[4..] == [t[4]] + t[5..] && t[5..] == [t[5]] + [];
    FirstMatchCons(t[0], t[1..], filename, DefaultType);
    FirstMatchCons(t[1], t[2..], filename, DefaultType);
    FirstMatchCons(t[2], t[3..], filename, DefaultType);
    FirstMatchCons(t[3], t[4..], filename, DefaultType);
    FirstMatchCons(t[4], t[5..], filename, DefaultType);
    FirstMatchCons(t[5], [], filename, DefaultType);
  }

  /** The fragment is looked for anywhere in the name, not only at its end. */
  lemma FiletypeBySubstring()
    ensures GetFiletype("./index.html.bak") == "text/html"
  {
    var f := "./index.html.bak";
    assert f[7..12] == ".html";
    assert OccursAt(f, ".html", 7);
  }

  /** Every type get_filetype hands out fits on one header line. */
  lemma FiletypeNoNewline(filename: string)
    ensures '\n' !in GetFiletype(filename)
  {
  }

  // ---------------------------------------------------------------------
  // clienterror
  // ---------------------------------------------------------------------

  /** The HTML page clienterror sends. */
  function ErrorBody(cause: string, errnum: string, shortmsg: string, longmsg: string): string {
    "<html><title>Tiny Error</title>" + "<body bgcolor=\"ffffff\">\r\n"
      + errnum + ": " + shortmsg + "\r\n"
      + "<p>" + longmsg + ": " + cause + "\r\n"
      + "<hr><em>The Tiny Web server</em>\r\n"
  }

  /** The head clienterror sends before a page of the given length. */
  function ErrorHead(errnum: string, shortmsg: string, length: int): seq<string> {
    [ "HTTP/1.0 " + errnum + " " + shortmsg + CRLF,
      Field("Content-type", "text/html"),
      Field("Content-length", IntToDecimal(length)),
      CRLF ]
  }

  /** Everything clienterror writes to the client. */
  function ErrorResponse(cause: string, errnum: string, shortmsg: string, longmsg: string): string {
    var body := ErrorBody(cause, errnum, shortmsg, longmsg);
    Concat(ErrorHead(errnum, shortmsg, |body|)) + body
  }

  /**
   * clienterror: the page is built up one sprintf at a time, then the
   * status line, the content type and the content length are written,
   * and the page after them.
   */
  method ClientError(cause: string, errnum: string, shortmsg: string, longmsg: string) returns (response: string)
    ensures response == ErrorResponse(cause, errnum, shortmsg, longmsg)
  {
    var body := "<html><title>Tiny Error</title>";
    body := body + "<body bgcolor=\"ffffff\">\r\n";
    body := body + errnum + ": " + shortmsg + "\r\n";
    body := body + "<p>" + longmsg + ": " + cause + "\r\n";
    body := body + "<hr><em>The Tiny Web server</em>\r\n";
    var buf := "HTTP/1.0 " + errnum + " " + shortmsg + CRLF;
    response := buf;
    buf := Field("Content-type", "text/html");
    response := response + buf;
    buf := Field("Content-length", IntToDecimal(|body|)) + CRLF;
    response := response + buf;
    response := response + body;
    ErrorResponseIs(cause, errnum, shortmsg, longmsg);
  }

  /** The response as the four writes of clienterror put it together. */
  lemma ErrorResponseIs(cause: string, errnum: string, shortmsg: string, longmsg: string)
    ensures var body := ErrorBody(cause, errnum, shortmsg, longmsg);
      ErrorResponse(cause, errnum, shortmsg, longmsg)
      == ("HTTP/1.0 " + errnum + " " + shortmsg + CRLF) + Field("Content-type", "text/html")
         + (Field("Content-length", IntToDecimal(|body|)) + CRLF) + body
  {
    var body := ErrorBody(cause, errnum, shortmsg, longmsg);
    var a, b, c := "HTTP/1.0 " + errnum + " " + shortmsg + CRLF, Field("Content-type", "text/html"),
      Field("Content-length", IntToDecimal(|body|));
    ConcatFour(a, b, c, CRLF);
    assert ErrorHead(errnum, shortmsg, |body|) == [a, b, c, CRLF];
    assert a + b + c + CRLF + body == a + b + (c + CRLF) + body;
  }

  lemma ErrorHeadAllLines(errnum: string, shortmsg: string, length: int)
    requires '\n' !in errnum && '\n' !in shortmsg
    ensures AllLines(ErrorHead(errnum, shortmsg, length))
  {
    var s := "HTTP/1.0 " + errnum + " " + shortmsg + "\r";
    LineOf(s);
    assert s + "\n" == "HTTP/1.0 " + errnum + " " + shortmsg + CRLF;
    FieldIsLine("Content-type", "text/html");
    IntToDecimalNoNewline(length);
    FieldIsLine("Content-length", IntToDecimal(length));
    LineOf("\r");
  }

  lemma ErrorHeadFields(errnum: string, shortmsg: string, length: int)
    ensures var ls := ErrorHead(errnum, shortmsg, length);
      && HeaderValue(ls, "Content-type") == Some("text/html")
      && HeaderValue(ls, "Content-length") == Some(IntToDecimal(length))
  {
    var ls := ErrorHead(errnum, shortmsg, length);
    assert ls[0][0] == 'H' && ("Content-type" + ": ")[0] == 'C' && ("Content-length" + ": ")[0] == 'C';
    HeaderValueSkip(ls, "Content-type", 0);
    HeaderValueSkip(ls, "Content-length", 0);
    ErrorHeadTail(length);
  }

  /** After the status line: the type, then the length. */
  lemma ErrorHeadTail(length: int)
    ensures var rest := [Field("Content-type", "text/html"), Field("Content-length", IntToDecimal(length)), CRLF];
      && HeaderValue(rest, "Content-type") == Some("text/html")
      && HeaderValue(rest, "Content-length") == Some(IntToDecimal(length))
  {
    var rest := [Field("Content-type", "text/html"), Field("Content-length", IntToDecimal(length)), CRLF];
    HeaderValueFirst(rest, "Content-type", "text/html");
    assert rest[0][8] == 't' && ("Content-length" + ": ")[8] == 'l';
    HeaderValueSkip(rest, "Content-length", 8);
    assert rest[1..] == [Field("Content-length", IntToDecimal(length)), CRLF];
    HeaderValueFirst(rest[1..], "Content-length", IntToDecimal(length));
  }

  lemma ErrorHeadEnd(errnum: string, shortmsg: string, length: int)
    ensures HeaderEnd(ErrorHead(errnum, shortmsg, length), 1) == 4
  {
    var ls := ErrorHead(errnum, shortmsg, length);
    assert ls[1][0] == 'C' && ls[2][0] == 'C';
  }

  /**
   * A client reads clienterror's response back: complete header lines up
   * to the blank line, a text/html type, and a Content-length that is the
   * length of the page that follows.
   */
  lemma ClientErrorFraming(cause: string, errnum: string, shortmsg: string, longmsg: string)
    requires '\n' !in errnum && '\n' !in shortmsg
    ensures var body := ErrorBody(cause, errnum, shortmsg, longmsg);
      var ls := ErrorHead(errnum, shortmsg, |body|);
      && SplitLines(Concat(ls)) == ls
      && HeaderEnd(ls, 1) == |ls|
      && HeaderValue(ls, "Content-type") == Some("text/html")
      && ContentLength(ls) == Some(|body|)
  {
    var body := ErrorBody(cause, errnum, shortmsg, longmsg);
    var ls := ErrorHead(errnum, shortmsg, |body|);
    ErrorHeadAllLines(errnum, shortmsg, |body|);
    SplitLinesConcat(ls);
    ErrorHeadFields(errnum, shortmsg, |body|);
    ErrorHeadEnd(errnum, shortmsg, |body|);
    IntToDecimalRoundTrip(|body|);
  }

  // ---------------------------------------------------------------------
  // serve_static, the response head
  // ---------------------------------------------------------------------

  /** The head serve_static sends before a file of the given size and type. */
  function StaticHead(filesize: int, filetype: string): seq<string> {
    [ "HTTP/1.0 200 OK\r\n",
      "Server: Tiny Web Server\r\n",
      "Connection: close\r\n",
      Field("Content-length", IntToDecimal(filesize)),
      Field("Content-type", filetype),
      CRLF ]
  }

  /** The head of serve_static, each sprintf appending to what is in the buffer. */
  method ServeStaticHeaders(filename: string, filesize: int) returns (buf: string)
    ensures buf == Concat(StaticHead(filesize, GetFiletype(filename)))
  {
    var filetype := GetFiletype(filename);
    buf := "HTTP/1.0 200 OK\r\n";
    buf := buf + "Server: Tiny Web Server\r\n";
    buf := buf + "Connection: close\r\n";
    buf := buf + Field("Content-length", IntToDecimal(filesize));
    buf := buf + Field("Content-type", filetype) + CRLF;
    ConcatSix("HTTP/1.0 200 OK\r\n", "Server: Tiny Web Server\r\n", "Connection: close\r\n",
      Field("Content-length", IntToDecimal(filesize)), Field("Content-type", filetype), CRLF);
  }

  lemma StaticHeadAllLines(filesize: int, filetype: string)
    requires '\n' !in filetype
    ensures AllLines(StaticHead(filesize, filetype))
  {
    StaticStatusLines();
    ConnectionLines();
    IntToDecimalNoNewline(filesize);
    FieldIsLine("Content-length", IntToDecimal(filesize));
    FieldIsLine("Content-type", filetype);
  }

  lemma StaticStatusLines()
    ensures IsLine("HTTP/1.0 200 OK\r\n") && IsLine("Server: Tiny Web Server\r\n")
  {
    StatusNoNewline();
    LineOf("HTTP/1.0 200 OK\r");
    LineOf("Server: Tiny Web Server\r");
  }

  lemma StatusNoNewline()
    ensures '\n' !in "HTTP/1.0 200 OK\r" && '\n' !in "Server: Tiny Web Server\r"
  {
  }

  lemma ConnectionLines()
    ensures IsLine("Connection: close\r\n") && IsLine(CRLF)
  {
    ConnectionNoNewline();
    LineOf("Connection: close\r");
    LineOf("\r");
  }

  lemma ConnectionNoNewline()
    ensures '\n' !in "Connection: close\r" && '\n' !in "\r"
  {
  }

  lemma StaticHeadFields(filesize: int, filetype: string)
    ensures var ls := StaticHead(filesize, filetype);
      && HeaderValue(ls, "Content-length") == Some(IntToDecimal(filesize))
      && HeaderValue(ls, "Content-type") == Some(filetype)
  {
    StaticHeadPrefix(filesize, filetype);
    StaticHeadTail(filesize, filetype);
  }

  lemma StaticHeadTail(filesize: int, filetype: string)
    ensures var rest := StaticHead(filesize, filetype)[3..];
      && HeaderValue(rest, "Content-length") == Some(IntToDecimal(filesize))
      && HeaderValue(rest, "Content-type") == Some(filetype)
  {
    var rest := StaticHead(filesize, filetype)[3..];
    assert rest == [Field("Content-length", IntToDecimal(filesize)), Field("Content-type", filetype), CRLF];
    StaticHeadLastFields(filesize, filetype);
  }

  lemma StaticHeadLastFields(filesize: int, filetype: string)
    ensures var rest := [Field("Content-length", IntToDecimal(filesize)), Field("Content-type", filetype), CRLF];
      && HeaderValue(rest, "Content-length") == Some(IntToDecimal(filesize))
      && HeaderValue(rest, "Content-type") == Some(filetype)
  {
    var rest := [Field("Content-length", IntToDecimal(filesize)), Field("Content-type", filetype), CRLF];
    HeaderValueFirst(rest, "Content-length", IntToDecimal(filesize));
    assert rest[0][8] == 'l' && ("Content-type" + ": ")[8] == 't';
    HeaderValueSkip(rest, "Content-type", 8);
    assert rest[1..] == [Field("Content-type", filetype), CRLF];
    HeaderValueFirst(rest[1..], "Content-type", filetype);
  }

  /** The three fixed lines in front are not the fields looked for. */
  lemma StaticHeadPrefix(filesize: int, filetype: string)
    ensures var ls := StaticHead(filesize, filetype);
      && HeaderValue(ls, "Content-length") == HeaderValue(ls[3..], "Content-length")
      && HeaderValue(ls, "Content-type") == HeaderValue(ls[3..], "Content-type")
  {
    var ls := StaticHead(filesize, filetype);
    var cl := "Content-length" + ": ";
    var ct := "Content-type" + ": ";
    assert ls[0][0] == 'H' && ls[1][0] == 'S' && ls[2][3] == 'n';
    assert cl[0] == 'C' && ct[0] == 'C' && cl[3] == 't' && ct[3] == 't';
    assert ls[1..][0] == ls[1] && ls[1..][1..] == ls[2..] && ls[2..][0] == ls[2] && ls[2..][1..] == ls[3..];
    HeaderValueSkip(ls, "Content-length", 0);
    HeaderValueSkip(ls, "Content-type", 0);
    HeaderValueSkip(ls[1..], "Content-length", 0);
    HeaderValueSkip(ls[1..], "Content-type", 0);
    HeaderValueSkip(ls[2..], "Content-length", 3);
    HeaderValueSkip(ls[2..], "Content-type", 3);
  }

  lemma StaticHeadEnd(filesize: int, filetype: string)
    ensures HeaderEnd(StaticHead(filesize, filetype), 1) == |StaticHead(filesize, filetype)|
  {
    var ls := StaticHead(filesize, filetype);
    assert ls[1][0] == 'S' && ls[2][0] == 'C' && ls[3][0] == 'C' && ls[4][0] == 'C';
  }

  /**
   * A client reads serve_static's head back: complete lines up to the
   * blank line, a Content-length that is the file size and the type
   * get_filetype chose.
   */
  lemma ServeStaticFraming(filename: string, filesize: int)
    ensures var ls := StaticHead(filesize, GetFiletype(filename));
      && SplitLines(Concat(ls)) == ls
      && HeaderEnd(ls, 1) == |ls|
      && ContentLength(ls) == Some(filesize)
      && HeaderValue(ls, "Content-type") == Some(GetFiletype(filename))
  {
    var filetype := GetFiletype(filename);
    var ls := StaticHead(filesize, filetype);
    FiletypeNoNewline(filename);
    StaticHeadAllLines(filesize, filetype);
    SplitLinesConcat(ls);
    StaticHeadEnd(filesize, filetype);
    StaticHeadFields(filesize, filetype);
    IntToDecimalRoundTrip(filesize);
  }

  // ---------------------------------------------------------------------
  // read_requesthdrs
  // ---------------------------------------------------------------------

  /**
   * The position and buffer of read_requesthdrs as written, after k calls
   * of Rio_readlineb from position p with buf in the buffer: at the end of
   * the stream a call leaves both as they are.
   */
  function BufferAfter(ls: seq<string>, p: nat, buf: string, k: nat): (r: (nat, string))
    requires p <= |ls|
    ensures p <= r.0 <= |ls|
  {
    if k == 0 then (p, buf)
    else
      var prev := BufferAfter(ls, p, buf, k - 1);
      if prev.0 < |ls| then (prev.0 + 1, ls[prev.0]) else prev
  }

  /** Where the reader is after k reads: k lines on, or at the end still holding the last line. */
  lemma {:induction false} BufferAfterIs(ls: seq<string>, p: nat, buf: string, k: nat)
    requires p <= |ls|
    ensures BufferAfter(ls, p, buf, k) ==
      if p + k <= |ls| then (p + k, if k == 0 then buf else ls[p + k - 1])
      else (|ls|, if p == |ls| then buf else ls[|ls| - 1])
  {
    if k > 0 {
      BufferAfterIs(ls, p, buf, k - 1);
    }
  }

  /**
   * read_requesthdrs as written stops at the first blank line when there
   * is one: after HeaderEnd - p reads the buffer holds "\r\n" and never
   * did before.
   */
  lemma ReadRequestHdrsAsWrittenStops(ls: seq<string>, p: nat, buf: string)
    requires p <= |ls| && exists i :: p <= i < |ls| && ls[i] == CRLF
    ensures var k := HeaderEnd(ls, p) - p;
      && k >= 1
      && BufferAfter(ls, p, buf, k) == (HeaderEnd(ls, p), CRLF)
      && forall j :: 1 <= j < k ==> BufferAfter(ls, p, buf, j).1 != CRLF
  {
    var k := HeaderEnd(ls, p) - p;
    BufferAfterIs(ls, p, buf, k);
    forall j | 1 <= j < k ensures BufferAfter(ls, p, buf, j).1 != CRLF {
      BufferAfterIs(ls, p, buf, j);
    }
  }

  /**
   * read_requesthdrs as written never stops when the client closes the
   * connection before the blank line: from the first read on, the buffer
   * keeps the last line received (or what it held), never "\r\n".
   */
  lemma ReadRequestHdrsAsWrittenNeverStops(ls: seq<string>, p: nat, buf: string)
    requires p <= |ls| && buf != CRLF
    requires forall i :: p <= i < |ls| ==> ls[i] != CRLF
    ensures forall k :: BufferAfter(ls, p, buf, k).1 != CRLF
  {
    forall k ensures BufferAfter(ls, p, buf, k).1 != CRLF {
      BufferAfterIs(ls, p, buf, k);
    }
  }

  /** A client that sends one header and closes keeps read_requesthdrs as written reading forever. */
  lemma ReadRequestHdrsAsWrittenHangs()
    ensures forall k :: BufferAfter(["Host: x\r\n"], 0, "", k).1 != CRLF
  {
    ReadRequestHdrsAsWrittenNeverStops(["Host: x\r\n"], 0, "");
  }

  lemma HeaderEndStep(ls: seq<string>, q: nat)
    requires q < |ls| && ls[q] != CRLF
    ensures HeaderEnd(ls, q) == HeaderEnd(ls, q + 1)
  {
  }

  /**
   * read_requesthdrs, reading lines until the blank line that ends the
   * request head and, unlike the code as written, also stopping when the
   * client closes the connection first.
   */
  method ReadRequestHdrs(rio: Rio.LineReader)
    requires rio.Valid()
    modifies rio
    ensures rio.Valid() && rio.lines == old(rio.lines)
    ensures rio.pos == HeaderEnd(rio.lines, old(rio.pos))
  {
    ghost var p0 := rio.pos;
    var n, buf := rio.ReadLineb("");
    while n > 0 && buf != CRLF
      invariant rio.Valid() && rio.lines == old(rio.lines) && p0 <= rio.pos
      invariant n > 0 ==>
        && p0 < rio.pos && buf == rio.lines[rio.pos - 1]
        && HeaderEnd(rio.lines, p0) == HeaderEnd(rio.lines, rio.pos - 1)
      invariant n == 0 ==> rio.pos == |rio.lines| && HeaderEnd(rio.lines, p0) == |rio.lines|
      decreases |rio.lines| - rio.pos + (if n > 0 then 1 else 0)
    {
      HeaderEndStep(rio.lines, rio.pos - 1);
      n, buf := rio.ReadLineb(buf);
    }
  }

  // ---------------------------------------------------------------------
  // doit, up to the stat of the file
  // ---------------------------------------------------------------------

  /** How doit goes on after reading the request: the 501 page, or the parsed target. */
  datatype Reply =
    | NotImplemented(response: string)
    | MissingUri
    | Serve(target: UriTarget)

  /**
   * doit on the request line ("" when the read returned nothing): any
   * method but GET, in any case, gets the 501 page with the method as its
   * cause; a GET names a target that parse_uri takes apart.  A GET with no
   * target leaves uri unset in the C code, so no file is named.
   */
  function Dispatch(line: string): (r: Reply)
    ensures r.NotImplemented? <==> !EqualsIgnoreCase(ParseRequestLine(line).methodName, "GET")
    ensures r.NotImplemented? ==> r.response == ErrorResponse(ParseRequestLine(line).methodName,
      "501", "Not inplemented", "Tiny does not implement this method")
    ensures r.MissingUri? <==>
      EqualsIgnoreCase(ParseRequestLine(line).methodName, "GET") && ParseRequestLine(line).uri == []
    ensures r.Serve? ==> ParseRequestLine(line).uri != [] && r.target == ParseUri(ParseRequestLine(line).uri)
  {
    var req := ParseRequestLine(line);
    if !EqualsIgnoreCase(req.methodName, "GET") then
      NotImplemented(ErrorResponse(req.methodName, "501", "Not inplemented", "Tiny does not implement this method"))
    else if req.uri == [] then MissingUri
    else Serve(ParseUri(req.uri))
  }

  /** The request line "GET uri HTTP/1.0" is served as parse_uri takes uri apart. */
  lemma DispatchOfGet(uri: string)
    requires uri != [] && NoSpace(uri)
    ensures Dispatch("GET" + " " + uri + " " + "HTTP/1.0" + "\r\n") == Serve(ParseUri(uri))
  {
    WordsOfRequestLine();
    ParseSimpleRequestLine("GET", uri, "HTTP/1.0");
  }

  /** The 501 page is framed so that the client reads exactly the page. */
  lemma NotImplementedFraming(line: string)
    requires Dispatch(line).NotImplemented?
    ensures var m := ParseRequestLine(line).methodName;
      var body := ErrorBody(m, "501", "Not inplemented", "Tiny does not implement this method");
      && Dispatch(line).response == Concat(ErrorHead("501", "Not inplemented", |body|)) + body
      && ContentLength(ErrorHead("501", "Not inplemented", |body|)) == Some(|body|)
  {
    var m := ParseRequestLine(line).methodName;
    NotImplementedNoNewline();
    ClientErrorFraming(m, "501", "Not inplemented", "Tiny does not implement this method");
  }

  lemma NotImplementedNoNewline()
    ensures '\n' !in "501" && '\n' !in "Not inplemented"
  {
  }

  /**
   * doit up to the stat of the file: read the request line, answer 501 to
   * anything but GET without reading further, otherwise skip the request
   * headers and take the target apart in its buffer.
   */
  method Doit(rio: Rio.LineReader) returns (reply: Reply)
    requires rio.Valid()
    modifies rio
    ensures rio.Valid() && rio.lines == old(rio.lines)
    ensures var first := old(rio.pos) < |rio.lines|;
      var after := if first then old(rio.pos) + 1 else old(rio.pos);
      && reply == Dispatch(if first then rio.lines[old(rio.pos)] else "")
      && rio.pos == if reply.NotImplemented? then after else HeaderEnd(rio.lines, after)
  {
    var n, buf := rio.ReadLineb("");
    var req := ParseRequestLine(buf);
    if !EqualsIgnoreCase(req.methodName, "GET") {
      var response := ClientError(req.methodName, "501", "Not inplemented", "Tiny does not implement this method");
      return NotImplemented(response);
    }
    ReadRequestHdrs(rio);
    if req.uri == [] {
      return MissingUri;
    }
    assert '\0' !in req.uri by {
      assert forall c :: c in req.uri ==> c in req.methodName + req.uri + req.version;
    }
    var uri := new char[|req.uri| + 1](i requires 0 <= i <= |req.uri| => if i < |req.uri| then req.uri[i] else '\0');
    assert uri[..|req.uri|] == req.uri;
    IndexOfIs(uri[..], '\0', |req.uri|);
    var isStatic, filename, cgiargs := ParseUriInPlace(uri);
    reply := Serve(UriTarget(isStatic, filename, cgiargs));
  }
}
