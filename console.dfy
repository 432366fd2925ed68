/** What the walkers write to standard output: one line per entry, with its
    indentation (in units of four spaces), its text and whether it was
    coloured as a directory or as a file. */
module Console {

  datatype Tag = DirTag | FileTag

  datatype Line = Line(indent: nat, text: string, tag: Tag)

  /** The number of units indent_with_t(c) prints. */
  function Units(c: int): nat {
    if c > 0 then c else 0
  }

  /** The macro indent_with_t(c): "    " printed once per turn of a loop
      counting from 0 up to c. The result is four spaces per unit, and
      nothing for c <= 0. */
  method IndentWithT(c: int) returns (s: string)
    ensures |s| == 4 * Units(c) && forall k :: 0 <= k < |s| ==> s[k] == ' '
  {
    s := [];
    var i := 0;
    while i < c
      invariant 0 <= i <= Units(c)
      invariant |s| == 4 * i && forall k :: 0 <= k < |s| ==> s[k] == ' '
    {
      s := s + "    ";
      i := i + 1;
    }
  }

  /** The colour of every line, in order. */
  function Tags(ls: seq<Line>): (ts: seq<Tag>)
    ensures |ts| == |ls|
  {
    seq(|ls|, k requires 0 <= k < |ls| => ls[k].tag)
  }

  /** Lines of one colour. */
  function CountTag(ls: seq<Line>, t: Tag): nat {
    multiset(Tags(ls))[t]
  }
}
