/**
 * The robust line reader both servers read a connection with (rio_t and
 * Rio_readlineb of the CS:APP support library).  The library itself
 * (csapp.c) is not part of this model; LineReader states what its callers
 * rely on.
 */
module Rio {
  /**
   * A connection being read line by line: `lines` are the lines the peer
   * sends before it closes, each as one Rio_readlineb call returns it, and
   * `pos` is how many have been read.
   */
  class LineReader {
    var lines: seq<string>
    var pos: nat

    ghost predicate Valid()
      reads this
    {
      && pos <= |lines|
      && forall i :: 0 <= i < |lines| ==> lines[i] != [] && '\0' !in lines[i]
    }

    constructor (lines: seq<string>)
      requires forall i :: 0 <= i < |lines| ==> lines[i] != [] && '\0' !in lines[i]
      ensures Valid() && this.lines == lines && pos == 0
    {
      this.lines := lines;
      pos := 0;
    }

    /**
     * Rio_readlineb(rp, buf, MAXLINE): the next line and its length; at the
     * end of the stream it returns 0 and leaves the caller's buffer as it was.
     */
    method ReadLineb(buf: string) returns (n: nat, line: string)
      requires Valid()
      modifies this
      ensures Valid() && lines == old(lines)
      ensures old(pos) < |lines| ==> n == |lines[old(pos)]| > 0 && line == lines[old(pos)] && pos == old(pos) + 1
      ensures old(pos) == |lines| ==> n == 0 && line == buf && pos == old(pos)
    {
      if pos < |lines| {
        line := lines[pos];
        n := |line|;
        pos := pos + 1;
      } else {
        n, line := 0, buf;
      }
    }
  }
}
