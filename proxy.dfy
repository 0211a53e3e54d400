/**
 * The request side of the iterative HTTP/1.0 proxy (webproxy-lab/proxy.c):
 * take the client's request line apart, keep only GET, split the
 * absolute-form target http://host[:port][/path] into host, port and path,
 * and build the HTTP/1.0 request sent to the origin server.
 */
module Proxy {
  import opened Wrappers
  import opened CStrings
  import opened Lines
  import opened RequestLine
  import opened Http
  import Rio

  /** The fixed User-Agent line, one string in the C source, cut here into short pieces. */
  const UserAgentHdr :=
    "User-Agent: Mozilla/5.0 (X11; " + "Linux x86_64; rv:10.0.3) " + "Gecko/20120305 " + "Firefox/10.0.3\r" + "\n"
  const Scheme := "http://"
  const DefaultPort := "80"
  const DefaultPath := "/"

  /** Where a request goes: the three buffers parse_uri fills. */
  datatype Target = Target(hostname: string, port: string, path: string)

  // ---------------------------------------------------------------------
  // doit's first step: one leading '/' off the request-target
  // ---------------------------------------------------------------------

  /** The request-target with one leading '/' removed, if it has one. */
  function DropLeadingSlash(uri: string): (r: string)
    ensures |uri| - |r| == if uri != [] && uri[0] == '/' then 1 else 0
    ensures r == uri[|uri| - |r|..]
  {
    if |uri| > 0 && uri[0] == '/' then uri[1..] else uri
  }

  /**
   * memmove(uri, uri + 1, strlen(uri)) when uri[0] is '/': every character
   * after the '/', its terminating NUL included, moves down one place.
   */
  method StripLeadingSlash(uri: array<char>)
    requires '\0' in uri[..]
    modifies uri
    ensures '\0' in uri[..]
    ensures CStr(uri[..]) == DropLeadingSlash(old(CStr(uri[..])))
  {
    if uri[0] == '/' {
      ghost var before := uri[..];
      var len := IndexOf(uri[..], '\0').value;
      var k := 0;
      while k < len
        invariant 0 <= k <= len
        invariant forall j :: 0 <= j < k ==> uri[j] == before[j + 1]
        invariant forall j :: k <= j < uri.Length ==> uri[j] == before[j]
      {
        uri[k] := uri[k + 1];
        k := k + 1;
      }
      ShiftedCStr(before, uri[..], len);
    }
  }

  /**
   * A buffer whose first len characters were moved down one place holds
   * the old C string without its first character.
   */
  lemma ShiftedCStr(before: seq<char>, after: seq<char>, len: nat)
    requires '\0' in before && IndexOf(before, '\0') == Some(len) && 0 < len
    requires |after| == |before|
    requires forall j :: 0 <= j < len ==> after[j] == before[j + 1]
    requires forall j :: len <= j < |after| ==> after[j] == before[j]
    ensures '\0' in after && CStr(after) == CStr(before)[1..]
  {
    assert after[..len - 1] == before[1..len];
    assert after[len - 1] == '\0';
    IndexOfIs(after, '\0', len - 1);
  }

  // ---------------------------------------------------------------------
  // parse_uri
  // ---------------------------------------------------------------------

  /** The characters between the scheme and the first '/' after it, or the end. */
  function HostSpec(uri: string): (h: string)
    requires |uri| >= |Scheme|
    ensures '/' !in h
  {
    var rest := uri[|Scheme|..];
    match IndexOf(rest, '/')
    case Some(i) => rest[..i]
    case None => rest
  }

  /** The tail of the uri from the first '/' after the scheme, or "/" if there is none. */
  function PathOf(uri: string): (p: string)
    requires |uri| >= |Scheme|
    ensures |p| > 0 && p[0] == '/'
  {
    var rest := uri[|Scheme|..];
    match IndexOf(rest, '/')
    case Some(i) => rest[i..]
    case None => DefaultPath
  }

  /** The host-spec cut at its first ':' into hostname and port, "80" without a ':'. */
  function SplitHostSpec(h: string): (r: (string, string))
    ensures ':' !in r.0
    ensures '/' !in h ==> '/' !in r.0 && '/' !in r.1
  {
    match IndexOf(h, ':')
    case Some(j) =>
      assert forall c :: c in h[j + 1..] ==> c in h;
      (h[..j], h[j + 1..])
    case None => (h, DefaultPort)
  }

  /**
   * parse_uri: None (-1) unless the uri starts with "http://" in any case;
   * otherwise the hostname and port SplitHostSpec makes of the host-spec,
   * and the path as PathOf gives it.  Nothing else is checked: the
   * hostname may be empty and the port anything.
   */
  function ParseUri(uri: string): (r: Option<Target>)
    ensures r.None? <==> !HasPrefixIgnoreCase(uri, Scheme)
    ensures r.Some? ==> ':' !in r.value.hostname && '/' !in r.value.hostname && '/' !in r.value.port
    ensures r.Some? ==> |r.value.path| > 0 && r.value.path[0] == '/'
  {
    if !HasPrefixIgnoreCase(uri, Scheme) then None
    else
      var hostspec := HostSpec(uri);
      var (hostname, port) := SplitHostSpec(hostspec);
      Some(Target(hostname, port, PathOf(uri)))
  }

  /** A string is what comes before the first c, then c, then the rest. */
  lemma SplitAtFirst(s: string, c: char)
    requires c in s
    ensures var i := IndexOf(s, c).value; s == s[..i] + [c] + s[i + 1..]
  {
  }

  /** The hostname, ":" and the port when the host-spec has a ':', give the host-spec back. */
  lemma SplitHostSpecReassembles(h: string)
    ensures var (hostname, port) := SplitHostSpec(h);
      && ':' !in hostname
      && h == hostname + (if ':' in h then ":" + port else "")
      && (':' !in h ==> port == DefaultPort)
  {
    if ':' in h {
      SplitAtFirst(h, ':');
    }
  }

  /** The host-spec names a port. */
  predicate HasPort(uri: string)
    requires |uri| >= |Scheme|
  {
    ':' in HostSpec(uri)
  }

  /** After the scheme come the host-spec and, when there is one, the path. */
  lemma HostSpecThenPath(uri: string)
    requires |uri| >= |Scheme|
    ensures var rest := uri[|Scheme|..];
      rest == HostSpec(uri) + (if '/' in rest then PathOf(uri) else "")
  {
    var rest := uri[|Scheme|..];
    if '/' in rest {
      SplitAtFirst(rest, '/');
    }
  }

  /**
   * What parse_uri returns puts the uri back together: after the scheme
   * come the hostname, ":" and the port when the host-spec has a ':', and
   * the path when the uri has one.
   */
  lemma ParseUriReassembles(uri: string)
    requires ParseUri(uri).Some?
    ensures var t := ParseUri(uri).value; var rest := uri[|Scheme|..];
      && rest == t.hostname + (if HasPort(uri) then ":" + t.port else "") + (if '/' in rest then t.path else "")
      && (!HasPort(uri) ==> t.port == DefaultPort)
      && ('/' !in rest ==> t.path == DefaultPath)
  {
    HostSpecThenPath(uri);
    SplitHostSpecReassembles(HostSpec(uri));
  }

  /**
   * The converse: a uri made of a scheme spelt in any case, a hostname
   * without ':' or '/', an optional ":port" and an optional path is taken
   * apart into exactly those pieces, with the defaults filled in.
   */
  lemma ParseUriOfParts(scheme: string, host: string, port: Option<string>, path: Option<string>)
    requires EqualsIgnoreCase(scheme, Scheme)
    requires ':' !in host && '/' !in host
    requires port.Some? ==> '/' !in port.value
    requires path.Some? ==> |path.value| > 0 && path.value[0] == '/'
    ensures ParseUri(scheme + host + (if port.Some? then ":" + port.value else "") + (if path.Some? then path.value else ""))
         == Some(Target(host, port.GetOr(DefaultPort), path.GetOr(DefaultPath)))
  {
    var hp := host + (if port.Some? then ":" + port.value else "");
    var pp := if path.Some? then path.value else "";
    var uri := scheme + host + (if port.Some? then ":" + port.value else "") + pp;
    assert uri == scheme + (hp + pp);
    assert uri[..|Scheme|] == scheme;
    assert uri[|Scheme|..] == hp + pp;
    assert HasPrefixIgnoreCase(uri, Scheme);
    HostSpecOfParts(hp, pp);
    assert HostSpec(uri) == hp;
    assert PathOf(uri) == path.GetOr(DefaultPath);
    SplitHostSpecOfParts(host, port);
    var t := Target(host, port.GetOr(DefaultPort), path.GetOr(DefaultPath));
    assert ParseUri(uri) == Some(t);
  }

  lemma HostSpecOfParts(hp: string, pp: string)
    requires '/' !in hp
    requires pp == [] || pp[0] == '/'
    ensures IndexOf(hp + pp, '/') == if pp == [] then None else Some(|hp|)
  {
    if pp != [] {
      assert (hp + pp)[..|hp|] == hp;
      IndexOfIs(hp + pp, '/', |hp|);
    } else {
      assert hp + pp == hp;
    }
  }

  lemma SplitHostSpecOfParts(host: string, port: Option<string>)
    requires ':' !in host
    ensures SplitHostSpec(host + (if port.Some? then ":" + port.value else "")) == (host, port.GetOr(DefaultPort))
  {
    var hp := host + (if port.Some? then ":" + port.value else "");
    if port.Some? {
      assert hp[..|host|] == host;
      IndexOfIs(hp, ':', |host|);
      assert hp[|host| + 1..] == port.value;
    } else {
      assert hp == host;
    }
  }

  /** The pieces of a uri without white space have none either. */
  lemma ParseUriNoSpace(uri: string)
    requires ParseUri(uri).Some? && NoSpace(uri)
    ensures var t := ParseUri(uri).value;
      NoSpace(t.hostname) && NoSpace(t.port) && NoSpace(t.path)
  {
    var t := ParseUri(uri).value;
    var rest := uri[|Scheme|..];
    assert NoSpace(rest) by {
      assert uri == uri[..|Scheme|] + rest;
      NoSpaceConcat(uri[..|Scheme|], rest);
    }
    var portPart := if HasPort(uri) then ":" + t.port else "";
    var pathPart := if '/' in rest then t.path else "";
    ParseUriReassembles(uri);
    assert rest == t.hostname + portPart + pathPart;
    NoSpaceConcat(t.hostname + portPart, pathPart);
    NoSpaceConcat(t.hostname, portPart);
    assert NoSpace(t.port) by {
      if HasPort(uri) {
        NoSpaceConcat(":", t.port);
      } else {
        DefaultsNoSpace();
      }
    }
    assert NoSpace(t.path) by {
      if '/' !in rest {
        DefaultsNoSpace();
      }
    }
  }

  lemma DefaultsNoSpace()
    ensures NoSpace(DefaultPort) && NoSpace(DefaultPath)
  {
    assert DefaultPort[0] == '8' && DefaultPort[1] == '0' && DefaultPath[0] == '/';
  }

  // ---------------------------------------------------------------------
  // build_http_header
  // ---------------------------------------------------------------------

  /** The lines of the request sent to the origin server, the blank line last. */
  function OutboundLines(hostname: string, path: string): seq<string> {
    [ "GET " + path + " HTTP/1.0\r\n",
      "Host: " + hostname + "\r\n",
      UserAgentHdr,
      "Connection: close\r\n",
      "Proxy-Connection: close\r\n",
      "\r\n" ]
  }

  lemma ConcatOutbound(hostname: string, path: string)
    ensures Concat(OutboundLines(hostname, path))
         == "GET " + path + " HTTP/1.0\r\n" + ("Host: " + hostname + "\r\n") + UserAgentHdr
            + "Connection: close\r\n" + "Proxy-Connection: close\r\n\r\n"
  {
    var a, b := "GET " + path + " HTTP/1.0\r\n", "Host: " + hostname + "\r\n";
    ConcatSix(a, b, UserAgentHdr, "Connection: close\r\n", "Proxy-Connection: close\r\n", "\r\n");
    assert "Proxy-Connection: close\r\n\r\n" == "Proxy-Connection: close\r\n" + "\r\n";
  }

  /**
   * build_http_header: the request line for the path, Host for the
   * hostname, the fixed User-Agent, and Connection and Proxy-Connection
   * both "close", ended by a blank line.
   */
  method BuildHttpHeader(hostname: string, path: string) returns (header: string)
    ensures header == Concat(OutboundLines(hostname, path))
    ensures header[..4] == "GET " && header[|header| - 4..] == "\r\n\r\n"
  {
    header := "GET " + path + " HTTP/1.0\r\n";
    var buf := "Host: " + hostname + "\r\n";
    header := header + buf;
    header := header + UserAgentHdr;
    header := header + "Connection: close\r\n";
    header := header + "Proxy-Connection: close\r\n\r\n";
    ConcatOutbound(hostname, path);
  }

  lemma RequestLineGrouping(path: string)
    ensures "GET " + path + " HTTP/1.0\r\n" == "GET" + " " + path + " " + "HTTP/1.0" + "\r\n"
  {
    assert "GET " == "GET" + " ";
    assert " HTTP/1.0\r\n" == " " + "HTTP/1.0" + "\r\n";
    Reassociate("GET", " ", path, " ", "HTTP/1.0", "\r\n");
  }

  lemma Reassociate<T>(a1: seq<T>, a2: seq<T>, p: seq<T>, b1: seq<T>, b2: seq<T>, b3: seq<T>)
    ensures (a1 + a2) + p + (b1 + b2 + b3) == a1 + a2 + p + b1 + b2 + b3
  {
  }

  lemma RequestLineIsLine(path: string)
    requires '\n' !in path
    ensures IsLine("GET " + path + " HTTP/1.0\r\n")
  {
    var l := "GET " + path + " HTTP/1.0\r";
    LineOf(l);
    assert l + "\n" == "GET " + path + " HTTP/1.0\r\n";
  }

  lemma HostLineIsLine(hostname: string)
    requires '\n' !in hostname
    ensures IsLine("Host: " + hostname + "\r\n")
  {
    var l := "Host: " + hostname + "\r";
    LineOf(l);
    assert l + "\n" == "Host: " + hostname + "\r\n";
  }

  lemma UserAgentIsLine()
    ensures IsLine(UserAgentHdr)
  {
    var ua := "User-Agent: Mozilla/5.0 (X11; " + "Linux x86_64; rv:10.0.3) " + "Gecko/20120305 " + "Firefox/10.0.3\r";
    UserAgentHead();
    UserAgentTail();
    LineOf(ua);
  }

  lemma UserAgentHead()
    ensures '\n' !in "User-Agent: Mozilla/5.0 (X11; " && '\n' !in "Linux x86_64; rv:10.0.3) "
  {
  }

  lemma UserAgentTail()
    ensures '\n' !in "Gecko/20120305 " && '\n' !in "Firefox/10.0.3\r"
  {
  }

  lemma FixedLinesAreLines()
    ensures IsLine("Connection: close\r\n")
    ensures IsLine("Proxy-Connection: close\r\n")
    ensures IsLine("\r\n")
  {
    LineOf("Connection: close\r");
    LineOf("Proxy-Connection: close\r");
    LineOf("\r");
  }

  /** Every element of the header block is one complete line. */
  lemma OutboundAllLines(hostname: string, path: string)
    requires '\n' !in hostname && '\n' !in path
    ensures AllLines(OutboundLines(hostname, path))
  {
    RequestLineIsLine(path);
    HostLineIsLine(hostname);
    UserAgentIsLine();
    FixedLinesAreLines();
  }

  /** A reader that starts after the request line stops exactly at the end of the block. */
  lemma OutboundHeaderEnd(hostname: string, path: string)
    ensures HeaderEnd(OutboundLines(hostname, path), 1) == |OutboundLines(hostname, path)|
  {
    var ls := OutboundLines(hostname, path);
    assert ls[1][..4] == "Host";
    assert ls[2][..4] == "User";
    assert ls[1] != CRLF && ls[2] != CRLF && ls[3] != CRLF && ls[4] != CRLF;
    assert ls[5] == CRLF;
  }

  /**
   * The origin server reads the header block back as the same lines: the
   * request line "GET path HTTP/1.0", then header lines up to the blank
   * line that ends the block.
   */
  lemma OutboundReadsBack(hostname: string, path: string)
    requires '\n' !in hostname && path != [] && NoSpace(path)
    ensures var ls := OutboundLines(hostname, path);
      && SplitLines(Concat(ls)) == ls
      && ParseRequestLine(ls[0]) == Request("GET", path, "HTTP/1.0")
      && HeaderEnd(ls, 1) == |ls|
  {
    var ls := OutboundLines(hostname, path);
    assert '\n' !in path by {
      assert forall i :: 0 <= i < |path| ==> path[i] != '\n';
    }
    OutboundAllLines(hostname, path);
    SplitLinesConcat(ls);
    RequestLineGrouping(path);
    WordsOfRequestLine();
    ParseSimpleRequestLine("GET", path, "HTTP/1.0");
    OutboundHeaderEnd(hostname, path);
  }

  // ---------------------------------------------------------------------
  // doit, up to the connection to the origin server
  // ---------------------------------------------------------------------

  /** Why doit returns without contacting an origin server. */
  datatype Drop = EmptyRead | UnsupportedMethod | MalformedUri

  /** The end of doit's request handling: dropped, or the target and the request for it. */
  datatype Outcome = Dropped(reason: Drop) | Forward(target: Target, request: string)

  /**
   * doit on the first line read from the client ("" when the read returned
   * nothing): strip one '/' off the target, drop anything but GET (in any
   * case), drop a target parse_uri refuses, and otherwise build the request.
   */
  function HandleRequestLine(line: string): (r: Outcome)
    ensures r == Dropped(EmptyRead) <==> line == []
    ensures r == Dropped(UnsupportedMethod) <==>
      line != [] && !EqualsIgnoreCase(ParseRequestLine(line).methodName, "GET")
    ensures r.Forward? <==>
      && line != []
      && EqualsIgnoreCase(ParseRequestLine(line).methodName, "GET")
      && HasPrefixIgnoreCase(DropLeadingSlash(ParseRequestLine(line).uri), Scheme)
  {
    if line == [] then Dropped(EmptyRead)
    else
      var req := ParseRequestLine(line);
      var uri := DropLeadingSlash(req.uri);
      if !EqualsIgnoreCase(req.methodName, "GET") then Dropped(UnsupportedMethod)
      else
        match ParseUri(uri)
        case None => Dropped(MalformedUri)
        case Some(t) => Forward(t, Concat(OutboundLines(t.hostname, t.path)))
  }

  /**
   * Whatever the proxy forwards is a well-formed HTTP/1.0 GET for the
   * parsed path: the origin reads it back line by line as the request line
   * "GET path HTTP/1.0" followed by a header block that ends at its blank line.
   */
  lemma ForwardedRequestReadsBack(line: string)
    requires HandleRequestLine(line).Forward?
    ensures var o := HandleRequestLine(line); var ls := SplitLines(o.request);
      && Some(o.target) == ParseUri(DropLeadingSlash(ParseRequestLine(line).uri))
      && ls == OutboundLines(o.target.hostname, o.target.path)
      && ParseRequestLine(ls[0]) == Request("GET", o.target.path, "HTTP/1.0")
      && HeaderEnd(ls, 1) == |ls|
  {
    var req := ParseRequestLine(line);
    var uri := DropLeadingSlash(req.uri);
    var t := ParseUri(uri).value;
    assert NoSpace(uri) by {
      if |req.uri| > 0 && req.uri[0] == '/' {
        NoSpaceConcat([req.uri[0]], req.uri[1..]);
        assert req.uri == [req.uri[0]] + req.uri[1..];
      }
    }
    ParseUriNoSpace(uri);
    OutboundReadsBack(t.hostname, t.path);
  }

  /**
   * doit reading its request line from the client: the one line read is
   * handled as HandleRequestLine says, with the leading '/' removed in
   * place by StripLeadingSlash and the request built by BuildHttpHeader.
   */
  method Doit(rio: Rio.LineReader) returns (outcome: Outcome)
    requires rio.Valid()
    modifies rio
    ensures rio.Valid() && rio.lines == old(rio.lines)
    ensures rio.pos == if old(rio.pos) < |rio.lines| then old(rio.pos) + 1 else old(rio.pos)
    ensures outcome == HandleRequestLine(if old(rio.pos) < |rio.lines| then rio.lines[old(rio.pos)] else "")
  {
    var n, buf := rio.ReadLineb("");
    if n == 0 {
      return Dropped(EmptyRead);
    }
    var req := ParseRequestLine(buf);
    assert '\0' !in req.uri by {
      assert forall c :: c in req.uri ==> c in req.methodName + req.uri + req.version;
    }
    var uri := new char[|req.uri| + 1](i requires 0 <= i <= |req.uri| => if i < |req.uri| then req.uri[i] else '\0');
    assert uri[..|req.uri|] == req.uri;
    IndexOfIs(uri[..], '\0', |req.uri|);
    StripLeadingSlash(uri);
    var u := CStr(uri[..]);
    if !EqualsIgnoreCase(req.methodName, "GET") {
      return Dropped(UnsupportedMethod);
    }
    var target := ParseUri(u);
    if target.None? {
      return Dropped(MalformedUri);
    }
    var t := target.value;
    var header := BuildHttpHeader(t.hostname, t.path);
    outcome := Forward(t, header);
  }
}
