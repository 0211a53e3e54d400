/**
 * Text as a sequence of lines, the unit in which the robust reader of both
 * servers delivers a connection: each line runs through its '\n', and a
 * last piece without one is delivered as it is.
 */
module Lines {
  import opened Wrappers
  import opened CStrings

  /** A complete line: non-empty, ending in its only '\n'. */
  predicate IsLine(l: string) {
    |l| > 0 && l[|l| - 1] == '\n' && '\n' !in l[..|l| - 1]
  }

  predicate AllLines(ls: seq<string>) {
    forall i :: 0 <= i < |ls| ==> IsLine(ls[i])
  }

  /** The lines written one after the other. */
  function Concat(ls: seq<string>): string {
    if ls == [] then [] else ls[0] + Concat(ls[1..])
  }

  /** Length of the first line of s: through its first '\n', or all of s. */
  function FirstLineLength(s: string): (n: nat)
    requires s != []
    ensures 0 < n <= |s|
    ensures '\n' !in s[..n - 1]
    ensures n < |s| ==> s[n - 1] == '\n'
  {
    match IndexOf(s, '\n')
    case Some(i) => i + 1
    case None => |s|
  }

  /** s cut into the lines a line reader hands over, in order. */
  function SplitLines(s: string): seq<string>
    decreases |s|
  {
    if s == [] then [] else
      var n := FirstLineLength(s);
      [s[..n]] + SplitLines(s[n..])
  }

  /** Splitting loses nothing: the lines put back together are the text. */
  lemma {:induction false} ConcatSplitLines(s: string)
    ensures Concat(SplitLines(s)) == s
    decreases |s|
  {
    if s != [] {
      var n := FirstLineLength(s);
      ConcatSplitLines(s[n..]);
      ConsParts(s[..n], SplitLines(s[n..]));
      assert s == s[..n] + s[n..];
    }
  }

  /** A complete line in front of t is split off as one line. */
  lemma SplitLinesCons(l: string, t: string)
    requires IsLine(l)
    ensures SplitLines(l + t) == [l] + SplitLines(t)
  {
    var s := l + t;
    assert s[..|l| - 1] == l[..|l| - 1];
    IndexOfIs(s, '\n', |l| - 1);
    assert FirstLineLength(s) == |l|;
    assert s[..|l|] == l && s[|l|..] == t;
  }

  lemma AllLinesTail(ls: seq<string>)
    requires ls != [] && AllLines(ls)
    ensures IsLine(ls[0]) && AllLines(ls[1..])
  {
    forall i | 0 <= i < |ls| - 1 ensures IsLine(ls[1..][i]) {
      assert ls[1..][i] == ls[i + 1];
    }
  }

  lemma ConsParts<T>(x: T, r: seq<T>)
    ensures ([x] + r)[0] == x && ([x] + r)[1..] == r
  {
  }

  lemma HeadTail<T>(xs: seq<T>)
    requires xs != []
    ensures [xs[0]] + xs[1..] == xs
  {
  }

  /** Complete lines written out are read back as the same lines. */
  lemma {:induction false} SplitLinesConcat(ls: seq<string>)
    requires AllLines(ls)
    ensures SplitLines(Concat(ls)) == ls
  {
    if ls != [] {
      AllLinesTail(ls);
      SplitLinesConcat(ls[1..]);
      SplitLinesCons(ls[0], Concat(ls[1..]));
      HeadTail(ls);
    }
  }

  /** Any text without '\n', with one added, is a complete line. */
  lemma LineOf(s: string)
    requires '\n' !in s
    ensures IsLine(s + "\n")
  {
    assert (s + "\n")[..|s|] == s;
  }

  lemma ConcatFour(a: string, b: string, c: string, d: string)
    ensures Concat([a, b, c, d]) == a + b + c + d
  {
    assert [d][1..] == [];
    assert Concat([d]) == d;
    assert [c, d][1..] == [d];
    assert Concat([c, d]) == c + d;
    assert [b, c, d][1..] == [c, d];
    assert Concat([b, c, d]) == b + (c + d);
    assert [a, b, c, d][1..] == [b, c, d];
    assert Concat([a, b, c, d]) == a + (b + (c + d));
  }

  lemma ConcatSix(a: string, b: string, c: string, d: string, e: string, f: string)
    ensures Concat([a, b, c, d, e, f]) == a + b + c + d + e + f
  {
    ConcatFour(c, d, e, f);
    assert [b, c, d, e, f][1..] == [c, d, e, f];
    assert Concat([b, c, d, e, f]) == b + (c + d + e + f);
    assert [a, b, c, d, e, f][1..] == [b, c, d, e, f];
    assert Concat([a, b, c, d, e, f]) == a + (b + (c + d + e + f));
  }
}
