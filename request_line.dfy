/**
 * The request line "method uri version" as both servers take it apart with
 * sscanf(buf, "%s %s %s", method, uri, version): each "%s" skips white space
 * and reads the run of non-space characters that follows.
 */
module RequestLine {
  import opened CStrings

  /** Length of the run of non-space characters that s starts with. */
  function WordLength(s: string): (n: nat)
    ensures n <= |s| && NoSpace(s[..n])
    ensures n < |s| ==> IsSpace(s[n])
  {
    if s == [] || IsSpace(s[0]) then 0
    else
      var n := 1 + WordLength(s[1..]);
      assert s[..n] == [s[0]] + s[1..][..n - 1];
      n
  }

  /** The white-space separated words of s, in order. */
  function Words(s: string): (ws: seq<string>)
    ensures forall i :: 0 <= i < |ws| ==> ws[i] != [] && NoSpace(ws[i])
    ensures forall i, j :: 0 <= i < |ws| && 0 <= j < |ws[i]| ==> ws[i][j] in s
    ensures ws == [] <==> AllSpace(s)
    decreases |s|
  {
    if s == [] then []
    else if IsSpace(s[0]) then
      var ws := Words(s[1..]);
      assert forall c :: c in s[1..] ==> c in s;
      assert AllSpace(s[1..]) ==> AllSpace(s) by {
        if AllSpace(s[1..]) {
          forall i | 0 < i < |s| ensures IsSpace(s[i]) {
            assert s[i] == s[1..][i - 1];
          }
        }
      }
      ws
    else
      var n := WordLength(s);
      var ws := [s[..n]] + Words(s[n..]);
      assert forall c :: c in s[n..] ==> c in s;
      assert forall c :: c in s[..n] ==> c in s;
      ws
  }

  datatype Request = Request(methodName: string, uri: string, version: string)

  /** The i-th word, or "" where the line has no such word. */
  function WordAt(ws: seq<string>, i: nat): string {
    if i < |ws| then ws[i] else ""
  }

  /** sscanf(buf, "%s %s %s", method, uri, version) on one request line. */
  function ParseRequestLine(line: string): (r: Request)
    ensures NoSpace(r.methodName) && NoSpace(r.uri) && NoSpace(r.version)
    ensures r.uri != [] <==> |Words(line)| >= 2
    ensures forall c :: c in r.methodName + r.uri + r.version ==> c in line
  {
    var ws := Words(line);
    var r := Request(WordAt(ws, 0), WordAt(ws, 1), WordAt(ws, 2));
    assert forall c :: c in r.methodName + r.uri + r.version ==> c in line by {
      forall c | c in r.methodName + r.uri + r.version ensures c in line {
        if c in r.methodName {
          var j :| 0 <= j < |r.methodName| && r.methodName[j] == c;
        } else if c in r.uri {
          var j :| 0 <= j < |r.uri| && r.uri[j] == c;
        } else {
          var j :| 0 <= j < |r.version| && r.version[j] == c;
        }
      }
    }
    r
  }

  /** A word followed by white space is read as that word, and reading goes on after it. */
  lemma {:induction false} WordLengthOfWord(w: string, rest: string)
    requires NoSpace(w) && (rest == [] || IsSpace(rest[0]))
    ensures WordLength(w + rest) == |w|
  {
    if w != [] {
      assert (w + rest)[1..] == w[1..] + rest;
      WordLengthOfWord(w[1..], rest);
    } else {
      assert w + rest == rest;
    }
  }

  lemma WordsCons(w: string, rest: string)
    requires w != [] && NoSpace(w) && (rest == [] || IsSpace(rest[0]))
    ensures Words(w + rest) == [w] + Words(rest)
  {
    WordLengthOfWord(w, rest);
    assert (w + rest)[..|w|] == w && (w + rest)[|w|..] == rest;
  }

  /** White space, then a word ending at white space or at the end: that word is read first. */
  lemma {:induction false} WordsSpaced(g: string, w: string, rest: string)
    requires AllSpace(g) && w != [] && NoSpace(w) && (rest == [] || IsSpace(rest[0]))
    ensures Words(g + (w + rest)) == [w] + Words(rest)
    decreases |g|
  {
    if g == [] {
      assert g + (w + rest) == w + rest;
      WordsCons(w, rest);
    } else {
      assert (g + (w + rest))[1..] == g[1..] + (w + rest);
      WordsSpaced(g[1..], w, rest);
    }
  }

  /**
   * A request line laid out with any white space before and between its
   * three words, and anything after them that starts with white space,
   * reads back as exactly those three words.
   */
  lemma ParseRequestLineOf(s0: string, m: string, s1: string, u: string, s2: string, v: string, rest: string)
    requires AllSpace(s0) && AllSpace(s1) && s1 != [] && AllSpace(s2) && s2 != []
    requires m != [] && NoSpace(m) && u != [] && NoSpace(u) && v != [] && NoSpace(v)
    requires rest == [] || IsSpace(rest[0])
    ensures ParseRequestLine(s0 + m + s1 + u + s2 + v + rest) == Request(m, u, v)
  {
    WordsOfFields(s0, m, s1, u, s2, v, rest);
    Regroup(s0, m, s1, u, s2, v, rest);
  }

  lemma WordsOfFields(s0: string, m: string, s1: string, u: string, s2: string, v: string, rest: string)
    requires AllSpace(s0) && AllSpace(s1) && s1 != [] && AllSpace(s2) && s2 != []
    requires m != [] && NoSpace(m) && u != [] && NoSpace(u) && v != [] && NoSpace(v)
    requires rest == [] || IsSpace(rest[0])
    ensures var ws := Words(s0 + (m + (s1 + (u + (s2 + (v + rest))))));
      |ws| >= 3 && ws[0] == m && ws[1] == u && ws[2] == v
  {
    var a := s2 + (v + rest);
    WordsSpaced(s2, v, rest);
    assert a[0] == s2[0];
    var b := s1 + (u + a);
    WordsSpaced(s1, u, a);
    assert b[0] == s1[0];
    WordsSpaced(s0, m, b);
    ThreeHeads(m, u, v, Words(rest));
  }

  lemma ThreeHeads<T>(x: T, y: T, z: T, r: seq<T>)
    ensures var s := [x] + ([y] + ([z] + r)); |s| >= 3 && s[0] == x && s[1] == y && s[2] == z
  {
  }

  lemma Regroup<T>(a: seq<T>, b: seq<T>, c: seq<T>, d: seq<T>, e: seq<T>, f: seq<T>, g: seq<T>)
    ensures a + b + c + d + e + f + g == a + (b + (c + (d + (e + (f + g)))))
  {
  }

  /** The line "m u v" followed by its CRLF reads back as method m, uri u and version v. */
  lemma ParseSimpleRequestLine(m: string, u: string, v: string)
    requires m != [] && NoSpace(m) && u != [] && NoSpace(u) && v != [] && NoSpace(v)
    ensures ParseRequestLine(m + " " + u + " " + v + "\r\n") == Request(m, u, v)
  {
    var crlf := "\r\n";
    assert crlf[0] == '\r';
    assert "" + m == m;
    ParseRequestLineOf("", m, " ", u, " ", v, crlf);
  }

  /** The method and version of an HTTP/1.0 GET are single words. */
  lemma WordsOfRequestLine()
    ensures NoSpace("GET") && NoSpace("HTTP/1.0")
  {
    var v := "HTTP/1.0";
    assert v[0] == 'H' && v[1] == 'T' && v[2] == 'T' && v[3] == 'P';
    assert v[4] == '/' && v[5] == '1' && v[6] == '.' && v[7] == '0';
  }
}
