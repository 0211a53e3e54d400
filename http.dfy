/**
 * The receiving side of an HTTP/1.0 message head, used to state what the
 * servers' outputs mean to whoever reads them: header lines up to the first
 * blank line, a header field looked up by name, and Content-length read
 * back as a number.
 */
module Http {
  import opened Wrappers
  import opened Decimal
  import opened Lines

  const CRLF := "\r\n"

  /** A header line "name: value" with its CRLF. */
  function Field(name: string, value: string): string {
    name + ": " + value + CRLF
  }

  /** A field whose name and value hold no '\n' is one complete line. */
  lemma FieldIsLine(name: string, value: string)
    requires '\n' !in name && '\n' !in value
    ensures IsLine(Field(name, value))
  {
    LineOf(name + ": " + value + "\r");
    assert name + ": " + value + "\r" + "\n" == Field(name, value);
  }

  /**
   * The position just past the first blank line at or after p: where a
   * reader that consumes lines until "\r\n" stops.  Without a blank line it
   * is the end of ls.
   */
  function HeaderEnd(ls: seq<string>, p: nat): (r: nat)
    requires p <= |ls|
    ensures p <= r <= |ls|
    ensures (exists i :: p <= i < |ls| && ls[i] == CRLF) <==> (p < r && ls[r - 1] == CRLF)
    ensures r < |ls| ==> p < r && ls[r - 1] == CRLF
    ensures forall i :: p <= i < r - 1 ==> ls[i] != CRLF
    decreases |ls| - p
  {
    if p == |ls| then p
    else if ls[p] == CRLF then p + 1
    else HeaderEnd(ls, p + 1)
  }

  /** l is a field line for name, with some value. */
  ghost predicate IsFieldFor(l: string, name: string) {
    exists v :: l == Field(name, v)
  }

  /** The test a reader makes on one line: "name: " in front and CRLF at the end. */
  predicate LooksLikeField(l: string, key: string) {
    |l| >= |key| + 2 && l[..|key|] == key && l[|l| - 2..] == CRLF
  }

  lemma LooksLikeFieldIff(l: string, name: string)
    ensures LooksLikeField(l, name + ": ") <==> IsFieldFor(l, name)
  {
    var key := name + ": ";
    if LooksLikeField(l, key) {
      assert l == Field(name, l[|key|..|l| - 2]);
    }
    if IsFieldFor(l, name) {
      var v :| l == Field(name, v);
      assert l == key + v + CRLF;
      assert l[..|key|] == key;
      assert l[|l| - 2..] == CRLF;
    }
  }

  /** r is the value of the first field line for name in ls, or None when there is none. */
  ghost predicate FirstFieldValue(ls: seq<string>, name: string, r: Option<string>) {
    && (r.None? <==> forall i :: 0 <= i < |ls| ==> !IsFieldFor(ls[i], name))
    && (r.Some? ==> exists i :: 0 <= i < |ls| && ls[i] == Field(name, r.value)
                      && forall j :: 0 <= j < i ==> !IsFieldFor(ls[j], name))
  }

  /**
   * The value of the first line of ls of the form "name: value\r\n", or
   * None when no line has that form.
   */
  function HeaderValue(ls: seq<string>, name: string): (r: Option<string>)
    ensures r.None? <==> forall i :: 0 <= i < |ls| ==> !IsFieldFor(ls[i], name)
    ensures r.Some? ==> (exists i :: 0 <= i < |ls| && ls[i] == Field(name, r.value)
                           && forall j :: 0 <= j < i ==> !IsFieldFor(ls[j], name))
  {
    if ls == [] then None
    else
      var l := ls[0];
      var key := name + ": ";
      LooksLikeFieldIff(l, name);
      if LooksLikeField(l, key) then
        assert l == Field(name, l[|key|..|l| - 2]);
        Some(l[|key|..|l| - 2])
      else
        var r := HeaderValue(ls[1..], name);
        FirstFieldValueSkip(ls, name, r);
        r
  }

  /** A line in front that is no field line for name leaves the first field value as it was. */
  lemma FirstFieldValueSkip(ls: seq<string>, name: string, r: Option<string>)
    requires ls != [] && !IsFieldFor(ls[0], name) && FirstFieldValue(ls[1..], name, r)
    ensures FirstFieldValue(ls, name, r)
  {
    if r.Some? {
      var i :| 0 <= i < |ls[1..]| && ls[1..][i] == Field(name, r.value)
        && forall j :: 0 <= j < i ==> !IsFieldFor(ls[1..][j], name);
      assert ls[i + 1] == ls[1..][i];
      forall j | 0 < j < i + 1 ensures !IsFieldFor(ls[j], name) {
        assert ls[j] == ls[1..][j - 1];
      }
    } else {
      forall j | 0 < j < |ls| ensures !IsFieldFor(ls[j], name) {
        assert ls[j] == ls[1..][j - 1];
      }
    }
  }

  /** A field line for name in front gives its value. */
  lemma HeaderValueFirst(ls: seq<string>, name: string, value: string)
    requires ls != [] && ls[0] == Field(name, value)
    ensures HeaderValue(ls, name) == Some(value)
  {
    var l := ls[0];
    var key := name + ": ";
    assert l[..|key|] == key && l[|l| - 2..] == CRLF && l[|key|..|l| - 2] == value;
  }

  /** A line in front that differs from "name: " at some index k is passed over. */
  lemma HeaderValueSkip(ls: seq<string>, name: string, k: nat)
    requires ls != [] && k < |name| + 2 && k < |ls[0]| && ls[0][k] != (name + ": ")[k]
    ensures HeaderValue(ls, name) == HeaderValue(ls[1..], name)
  {
    if |ls[0]| >= |name| + 2 {
      assert ls[0][..|name| + 2][k] == ls[0][k];
    }
  }

  /** The Content-length field read back as a number. */
  function ContentLength(ls: seq<string>): Option<int> {
    match HeaderValue(ls, "Content-length")
    case Some(v) => ParseInt(v)
    case None => None
  }
}
