/**
 * Character and string helpers with the meaning of the C library calls made
 * by proxy.c and tiny.c, in the "C" locale.  A C string is a `string` that
 * holds no NUL; a character buffer holds one up to its first NUL.
 */
module CStrings {
  import opened Wrappers

  /** isspace(c) */
  predicate IsSpace(c: char) {
    c == ' ' || c == '\t' || c == '\n' || c == '\U{000B}' || c == '\U{000C}' || c == '\r'
  }

  /** No character of s is white space (an sscanf "%s" field). */
  predicate NoSpace(s: string) {
    forall i :: 0 <= i < |s| ==> !IsSpace(s[i])
  }

  /** Every character of s is white space (what "%s" skips). */
  predicate AllSpace(s: string) {
    forall i :: 0 <= i < |s| ==> IsSpace(s[i])
  }

  /** tolower(c) */
  function ToLower(c: char): char {
    if 'A' <= c <= 'Z' then (c as int + 32) as char else c
  }

  /** s with every letter lower-cased. */
  function Lower(s: string): (t: string)
    ensures |t| == |s| && forall i :: 0 <= i < |s| ==> t[i] == ToLower(s[i])
  {
    seq(|s|, i requires 0 <= i < |s| => ToLower(s[i]))
  }

  /** strcasecmp(a, b) == 0: the same string once both are lower-cased. */
  predicate EqualsIgnoreCase(a: string, b: string)
    ensures EqualsIgnoreCase(a, b) <==> Lower(a) == Lower(b)
  {
    var r := |a| == |b| && forall i :: 0 <= i < |a| ==> ToLower(a[i]) == ToLower(b[i]);
    assert Lower(a) == Lower(b) ==> r by {
      if Lower(a) == Lower(b) {
        forall i | 0 <= i < |a| ensures ToLower(a[i]) == ToLower(b[i]) {
          assert Lower(a)[i] == Lower(b)[i];
        }
      }
    }
    r
  }

  /**
   * strncasecmp(s, p, strlen(p)) == 0: s starts with p in any case.  A
   * string shorter than p differs from it at its NUL.
   */
  predicate HasPrefixIgnoreCase(s: string, p: string)
    ensures HasPrefixIgnoreCase(s, p) <==> |p| <= |s| && Lower(s)[..|p|] == Lower(p)
  {
    var r := |p| <= |s| && EqualsIgnoreCase(s[..|p|], p);
    assert |p| <= |s| ==> Lower(s[..|p|]) == Lower(s)[..|p|];
    r
  }

  /** strchr(s, c): the index of the first c in s, or None for NULL. */
  function IndexOf(s: string, c: char): (r: Option<nat>)
    ensures r.None? <==> c !in s
    ensures r.Some? ==> r.value < |s| && s[r.value] == c && c !in s[..r.value]
  {
    if s == [] then None
    else if s[0] == c then Some(0)
    else
      var r := IndexOf(s[1..], c);
      if r.None? then None
      else
        assert s[..r.value + 1] == [s[0]] + s[1..][..r.value];
        Some(r.value + 1)
  }

  /** A position holding c with no c before it is the one strchr finds. */
  lemma IndexOfIs(s: string, c: char, i: nat)
    requires i < |s| && s[i] == c && c !in s[..i]
    ensures IndexOf(s, c) == Some(i)
  {
    assert s[i] in s;
  }

  /** p occurs in s starting at index i. */
  ghost predicate OccursAt(s: string, p: string, i: int) {
    0 <= i && i + |p| <= |s| && s[i..i + |p|] == p
  }

  /** strstr(s, p) != NULL */
  function Occurs(s: string, p: string): (r: bool)
    ensures r <==> exists i :: OccursAt(s, p, i)
    decreases |s|
  {
    if |s| < |p| then
      assert forall i :: !OccursAt(s, p, i);
      false
    else if s[..|p|] == p then
      assert OccursAt(s, p, 0);
      true
    else
      OccursShift(s, p);
      Occurs(s[1..], p)
  }

  /** Away from index 0, occurrences in s are those in s[1..], one place later. */
  lemma OccursShift(s: string, p: string)
    requires |s| >= |p| && s[..|p|] != p
    ensures (exists i :: OccursAt(s, p, i)) <==> (exists i :: OccursAt(s[1..], p, i))
  {
    if exists i :: OccursAt(s, p, i) {
      var i :| OccursAt(s, p, i);
      assert i != 0;
      assert s[1..][i - 1..i - 1 + |p|] == s[i..i + |p|];
      assert OccursAt(s[1..], p, i - 1);
    }
    if exists i :: OccursAt(s[1..], p, i) {
      var i :| OccursAt(s[1..], p, i);
      assert s[1..][i..i + |p|] == s[i + 1..i + 1 + |p|];
      assert OccursAt(s, p, i + 1);
    }
  }

  /** The C string held in a buffer: its characters before the first NUL. */
  function CStr(buf: seq<char>): (s: string)
    requires '\0' in buf
    ensures |s| < |buf| && buf[|s|] == '\0' && '\0' !in s && buf[..|s|] == s
  {
    buf[..IndexOf(buf, '\0').value]
  }

  /** A concatenation has no white space exactly when neither part has. */
  lemma NoSpaceConcat(a: string, b: string)
    ensures NoSpace(a + b) <==> NoSpace(a) && NoSpace(b)
  {
    forall i | 0 <= i < |a| ensures (a + b)[i] == a[i] { }
    forall i | 0 <= i < |b| ensures (a + b)[|a| + i] == b[i] { }
    if NoSpace(a + b) {
      assert NoSpace(a);
      assert NoSpace(b) by {
        forall i | 0 <= i < |b| ensures !IsSpace(b[i]) {
          assert (a + b)[|a| + i] == b[i];
        }
      }
    }
    if NoSpace(a) && NoSpace(b) {
      forall k | 0 <= k < |a + b| ensures !IsSpace((a + b)[k]) {
        if k >= |a| {
          assert (a + b)[k] == b[k - |a|];
        }
      }
    }
  }
}
