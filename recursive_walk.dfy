/** recursive_dirwalk (moderncpp/filesystem.cpp and boost/filesystem.cpp):
    a depth-first walk that prints as it goes. The two source files hold
    the same algorithm; they differ only in how a path is recognised as an
    alias and how its readable name is found, which the Flavour selects. */
module RecursiveWalk {
  import opened Wrappers
  import opened Paths
  import opened FsTree
  import opened Console

  const Containing := " - a directory containing:"
  const EmptyFolder := " - an empty folder."

  /** Which line recursive_dirwalk(path, c, depth) prints, before its text
      is worked out: the header of a directory with entries, the single
      line of a directory without entries, or a plain file listed at
      level c. */
  datatype Step =
    | Opened(path: string, c: int, depth: int)
    | Vacant(path: string, c: int, depth: int)
    | Listed(path: string, c: int)
  {
    /** The indentation level indent_with_t is called with. */
    function Level(): int {
      match this
      case Opened(_, c, _) => c - 1
      case Vacant(_, c, _) => c - 1
      case Listed(_, c) => c
    }

    function Tag(): Tag {
      if Listed? then FileTag else DirTag
    }
  }

  /** The header of a directory that has at least one entry, printed
      before the first entry: the readable name (quoted, followed by
      " a.k.a. " and the quoted path, for an alias) and, when the depth is
      not zero, the "containing" suffix. */
  function HeaderText(fl: Flavour, canon: string -> string, p: string, depth: int): string {
    Title(fl, canon, p) + (if depth != 0 then Containing else "")
  }

  /** How a directory is named in its header: an alias is shown quoted,
      followed by " a.k.a. " and the path as given, also quoted. */
  function Title(fl: Flavour, canon: string -> string, p: string): string {
    if IsAlias(fl, p) then Quote(ReadableName(fl, canon, p)) + " a.k.a. " + Quote(p)
    else ReadableName(fl, canon, p)
  }

  /** The single line of a directory without entries; it never takes the
      alias form. */
  function VacantText(fl: Flavour, canon: string -> string, p: string, depth: int): string {
    ReadableName(fl, canon, p) + (if depth != 0 then EmptyFolder else "")
  }

  /** The printed line of a step. */
  function Render(fl: Flavour, canon: string -> string, s: Step): Line {
    match s
    case Opened(p, c, depth) => Line(Units(c - 1), HeaderText(fl, canon, p, depth), DirTag)
    case Vacant(p, c, depth) => Line(Units(c - 1), VacantText(fl, canon, p, depth), DirTag)
    case Listed(p, c) => Line(Units(c), ReadableName(fl, canon, p), FileTag)
  }

  function RenderAll(fl: Flavour, canon: string -> string, ss: seq<Step>): (ls: seq<Line>)
    ensures |ls| == |ss|
  {
    seq(|ss|, k requires 0 <= k < |ss| => Render(fl, canon, ss[k]))
  }

  lemma RenderAllConcat(fl: Flavour, canon: string -> string, a: seq<Step>, b: seq<Step>)
    ensures RenderAll(fl, canon, a + b) == RenderAll(fl, canon, a) + RenderAll(fl, canon, b)
  {
  }

  /** The first step for directory e: its header, or its single line when
      it has no entries. */
  function Head(e: Entry, c: int, depth: int): Step {
    if e.Dir? && e.children != [] then Opened(e.path, c, depth) else Vacant(e.path, c, depth)
  }

  /** The steps recursive_dirwalk(e.path, c, depth) has taken for
      directory e once its first n entries have been enumerated: the
      header (or, for a directory without entries, its single line), then
      per entry a file line, or a subdirectory's own steps one level deeper
      when depth is not zero, or nothing at all for a subdirectory when
      depth is zero. */
  function Walk(e: Entry, c: int, depth: int, n: nat): seq<Step>
    requires e.Dir? && n <= |e.children|
    decreases e, n
  {
    if n == 0 then [Head(e, c, depth)]
    else
      var ch := e.children[n - 1];
      Walk(e, c, depth, n - 1) +
      if ch.File? then [Listed(ch.path, c)]
      else if depth != 0 then Steps(ch, c + 1, depth - 1)
      else []
  }

  /** All steps recursive_dirwalk(e.path, c, depth) takes. */
  function Steps(e: Entry, c: int, depth: int): seq<Step>
    requires e.Dir?
    decreases e, |e.children| + 1
  {
    Walk(e, c, depth, |e.children|)
  }

  /** What recursive_dirwalk(e.path, c, depth) has printed once the
      first n entries of directory e have been enumerated. */
  function Output(fl: Flavour, canon: string -> string, e: Entry, c: int, depth: int, n: nat): seq<Line>
    requires e.Dir? && n <= |e.children|
    decreases e, n
  {
    if n == 0 then [Render(fl, canon, Head(e, c, depth))]
    else
      var ch := e.children[n - 1];
      Output(fl, canon, e, c, depth, n - 1) +
      if ch.File? then [Render(fl, canon, Listed(ch.path, c))]
      else if depth != 0 then Listing(fl, canon, ch, c + 1, depth - 1)
      else []
  }

  /** Everything recursive_dirwalk(e.path, c, depth) prints. */
  function Listing(fl: Flavour, canon: string -> string, e: Entry, c: int, depth: int): seq<Line>
    requires e.Dir?
    decreases e, |e.children| + 1
  {
    Output(fl, canon, e, c, depth, |e.children|)
  }

  /** The printed lines are the steps, each rendered. */
  lemma {:induction false} OutputRendersWalk(fl: Flavour, canon: string -> string, e: Entry, c: int, depth: int, n: nat)
    requires e.Dir? && n <= |e.children|
    ensures Output(fl, canon, e, c, depth, n) == RenderAll(fl, canon, Walk(e, c, depth, n))
    decreases e, n
  {
    if n > 0 {
      var ch := e.children[n - 1];
      OutputRendersWalk(fl, canon, e, c, depth, n - 1);
      if ch.File? {
        RenderAllConcat(fl, canon, Walk(e, c, depth, n - 1), [Listed(ch.path, c)]);
      } else if depth != 0 {
        OutputRendersWalk(fl, canon, ch, c + 1, depth - 1, |ch.children|);
        RenderAllConcat(fl, canon, Walk(e, c, depth, n - 1), Steps(ch, c + 1, depth - 1));
      } else {
        RenderAllConcat(fl, canon, Walk(e, c, depth, n - 1), []);
      }
    }
  }

  /** What is printed for the first n entries is printed first: the
      output only grows at its end. */
  lemma {:induction false} OutputPrefix(fl: Flavour, canon: string -> string, e: Entry, c: int, depth: int, n: nat, m: nat)
    requires e.Dir? && n <= m <= |e.children|
    ensures |Output(fl, canon, e, c, depth, n)| <= |Output(fl, canon, e, c, depth, m)|
    ensures Output(fl, canon, e, c, depth, m)[..|Output(fl, canon, e, c, depth, n)|] == Output(fl, canon, e, c, depth, n)
    decreases m
  {
    if n < m {
      var a := Output(fl, canon, e, c, depth, n);
      var b := Output(fl, canon, e, c, depth, m - 1);
      var o := Output(fl, canon, e, c, depth, m);
      OutputPrefix(fl, canon, e, c, depth, n, m - 1);
      assert o[..|b|] == b;
      assert o[..|a|] == b[..|a|];
    }
  }

  /** Every plain file of the directory is printed on a line of its own,
      at level c, coloured as a file, right after what the entries before
      it printed; so the files appear in enumeration order. */
  lemma FileLines(fl: Flavour, canon: string -> string, e: Entry, c: int, depth: int)
    requires e.Dir?
    ensures forall i :: 0 <= i < |e.children| && e.children[i].File? ==>
              |Output(fl, canon, e, c, depth, i)| < |Listing(fl, canon, e, c, depth)| &&
              Listing(fl, canon, e, c, depth)[|Output(fl, canon, e, c, depth, i)|] ==
                Line(Units(c), ReadableName(fl, canon, e.children[i].path), FileTag)
    ensures forall i, j :: 0 <= i < j < |e.children| && e.children[i].File? ==>
              |Output(fl, canon, e, c, depth, i)| < |Output(fl, canon, e, c, depth, j)|
  {
    var k := |e.children|;
    forall i | 0 <= i < k && e.children[i].File?
      ensures |Output(fl, canon, e, c, depth, i)| < |Listing(fl, canon, e, c, depth)|
      ensures Listing(fl, canon, e, c, depth)[|Output(fl, canon, e, c, depth, i)|] ==
                Line(Units(c), ReadableName(fl, canon, e.children[i].path), FileTag)
    {
      var a := Output(fl, canon, e, c, depth, i);
      var b := Output(fl, canon, e, c, depth, i + 1);
      assert b == a + [Render(fl, canon, Listed(e.children[i].path, c))];
      OutputPrefix(fl, canon, e, c, depth, i + 1, k);
      assert Listing(fl, canon, e, c, depth)[|a|] == b[|a|];
    }
    forall i, j | 0 <= i < j < k && e.children[i].File?
      ensures |Output(fl, canon, e, c, depth, i)| < |Output(fl, canon, e, c, depth, j)|
    {
      assert |Output(fl, canon, e, c, depth, i + 1)| == |Output(fl, canon, e, c, depth, i)| + 1;
      OutputPrefix(fl, canon, e, c, depth, i + 1, j);
    }
  }

  /** recursive_dirwalk: the header is printed when the first entry turns
      up (the `empty` flag), or the empty-folder line after the loop when
      none does. */
  method RecursiveDirwalk(fl: Flavour, canon: string -> string, e: Entry, c: int, depth: int)
    returns (out: seq<Line>)
    requires e.Dir?
    ensures out == Listing(fl, canon, e, c, depth)
    decreases e, 1
  {
    var empty := true;
    out := [];
    var i := 0;
    while i < |e.children|
      invariant 0 <= i <= |e.children|
      invariant empty <==> i == 0
      invariant empty ==> out == []
      invariant !empty ==> out == Output(fl, canon, e, c, depth, i)
    {
      if empty {
        empty := false;
        out := [Render(fl, canon, Opened(e.path, c, depth))];
      }
      var more := VisitEntry(fl, canon, e, c, depth, i);
      out := out + more;
      i := i + 1;
    }
    if empty {
      out := [Render(fl, canon, Vacant(e.path, c, depth))];
    }
  }

  /** One pass of recursive_dirwalk's loop body, for entry i: a plain
      file is printed at level c; a subdirectory is walked with c + 1 and
      depth - 1 unless depth is zero, when it is skipped. */
  method VisitEntry(fl: Flavour, canon: string -> string, e: Entry, c: int, depth: int, i: nat)
    returns (more: seq<Line>)
    requires e.Dir? && i < |e.children|
    ensures Output(fl, canon, e, c, depth, i + 1) == Output(fl, canon, e, c, depth, i) + more
    decreases e, 0
  {
    var entry := e.children[i];
    if entry.Dir? {
      more := [];
      if depth != 0 {
        more := RecursiveDirwalk(fl, canon, entry, c + 1, depth - 1);
      }
    } else {
      more := [Render(fl, canon, Listed(entry.path, c))];
    }
  }

  /** Directories recursive_dirwalk prints a header for: e itself and,
      among its first n entries, the subdirectories it recurses into. */
  function VisitedDirs(e: Entry, depth: int, n: nat): (r: nat)
    requires e.Dir? && n <= |e.children|
    ensures r >= 1
    decreases e, n
  {
    if n == 0 then 1
    else
      var ch := e.children[n - 1];
      VisitedDirs(e, depth, n - 1) +
      if ch.Dir? && depth != 0 then VisitedDirs(ch, depth - 1, |ch.children|) else 0
  }

  /** Plain files recursive_dirwalk prints among the first n entries of e
      and inside the subdirectories it recurses into. */
  function ShownFiles(e: Entry, depth: int, n: nat): nat
    requires e.Dir? && n <= |e.children|
    decreases e, n
  {
    if n == 0 then 0
    else
      var ch := e.children[n - 1];
      ShownFiles(e, depth, n - 1) +
      if ch.File? then 1
      else if depth != 0 then ShownFiles(ch, depth - 1, |ch.children|)
      else 0
  }

  /** The kind of line every step prints, in order. */
  function StepTags(ss: seq<Step>): (ts: seq<Tag>)
    ensures |ts| == |ss|
  {
    seq(|ss|, k requires 0 <= k < |ss| => ss[k].Tag())
  }

  /** Steps of a given kind of line. */
  function CountSteps(ss: seq<Step>, t: Tag): nat {
    multiset(StepTags(ss))[t]
  }

  lemma CountStepsConcat(a: seq<Step>, b: seq<Step>, t: Tag)
    ensures CountSteps(a + b, t) == CountSteps(a, t) + CountSteps(b, t)
  {
    assert StepTags(a + b) == StepTags(a) + StepTags(b);
  }

  lemma CountStepsOne(s: Step, t: Tag)
    ensures CountSteps([s], t) == if s.Tag() == t then 1 else 0
  {
    assert StepTags([s]) == [s.Tag()];
  }

  /** Rendering keeps the kind of every line. */
  lemma RenderKeepsCounts(fl: Flavour, canon: string -> string, ss: seq<Step>, t: Tag)
    ensures CountTag(RenderAll(fl, canon, ss), t) == CountSteps(ss, t)
  {
    assert Tags(RenderAll(fl, canon, ss)) == StepTags(ss);
  }

  /** Exactly one directory step per visited directory. */
  lemma {:induction false} WalkDirCount(e: Entry, c: int, depth: int, n: nat)
    requires e.Dir? && n <= |e.children|
    ensures CountSteps(Walk(e, c, depth, n), DirTag) == VisitedDirs(e, depth, n)
    decreases e, n
  {
    if n == 0 {
      CountStepsOne(Head(e, c, depth), DirTag);
    } else {
      var ch := e.children[n - 1];
      var front := Walk(e, c, depth, n - 1);
      WalkDirCount(e, c, depth, n - 1);
      if ch.File? {
        CountStepsConcat(front, [Listed(ch.path, c)], DirTag);
        CountStepsOne(Listed(ch.path, c), DirTag);
      } else if depth != 0 {
        WalkDirCount(ch, c + 1, depth - 1, |ch.children|);
        CountStepsConcat(front, Steps(ch, c + 1, depth - 1), DirTag);
      } else {
        CountStepsConcat(front, [], DirTag);
      }
    }
  }

  /** One file step per plain file of a visited directory, and none for
      the files of a directory that is not visited. */
  lemma {:induction false} WalkFileCount(e: Entry, c: int, depth: int, n: nat)
    requires e.Dir? && n <= |e.children|
    ensures CountSteps(Walk(e, c, depth, n), FileTag) == ShownFiles(e, depth, n)
    decreases e, n
  {
    if n == 0 {
      CountStepsOne(Head(e, c, depth), FileTag);
    } else {
      var ch := e.children[n - 1];
      var front := Walk(e, c, depth, n - 1);
      WalkFileCount(e, c, depth, n - 1);
      if ch.File? {
        CountStepsConcat(front, [Listed(ch.path, c)], FileTag);
        CountStepsOne(Listed(ch.path, c), FileTag);
      } else if depth != 0 {
        WalkFileCount(ch, c + 1, depth - 1, |ch.children|);
        CountStepsConcat(front, Steps(ch, c + 1, depth - 1), FileTag);
      } else {
        CountStepsConcat(front, [], FileTag);
      }
    }
  }

  /** The listing holds one directory line per visited directory and one
      file line per file shown. */
  lemma ListingCounts(fl: Flavour, canon: string -> string, e: Entry, c: int, depth: int)
    requires e.Dir?
    ensures CountTag(Listing(fl, canon, e, c, depth), DirTag) == VisitedDirs(e, depth, |e.children|)
    ensures CountTag(Listing(fl, canon, e, c, depth), FileTag) == ShownFiles(e, depth, |e.children|)
  {
    var ss := Steps(e, c, depth);
    OutputRendersWalk(fl, canon, e, c, depth, |e.children|);
    RenderKeepsCounts(fl, canon, ss, DirTag);
    RenderKeepsCounts(fl, canon, ss, FileTag);
    WalkDirCount(e, c, depth, |e.children|);
    WalkFileCount(e, c, depth, |e.children|);
  }

  /** The header (or, for a directory without entries, its single line)
      comes first. */
  lemma {:induction false} WalkHead(e: Entry, c: int, depth: int, n: nat)
    requires e.Dir? && n <= |e.children|
    ensures |Walk(e, c, depth, n)| >= 1 && Walk(e, c, depth, n)[0] == Head(e, c, depth)
    decreases n
  {
    if n > 0 {
      WalkHead(e, c, depth, n - 1);
    }
  }

  /** Every step after the first is at level c or deeper: file lines at
      exactly c, a subdirectory's header at c and its contents deeper
      still. */
  lemma {:induction false} WalkLevels(e: Entry, c: int, depth: int, n: nat)
    requires e.Dir? && n <= |e.children|
    ensures forall k :: 0 < k < |Walk(e, c, depth, n)| ==> Walk(e, c, depth, n)[k].Level() >= c
    decreases e, n
  {
    if n > 0 {
      var ch := e.children[n - 1];
      WalkLevels(e, c, depth, n - 1);
      WalkHead(e, c, depth, n - 1);
      if ch.Dir? && depth != 0 {
        var sub := Steps(ch, c + 1, depth - 1);
        WalkLevels(ch, c + 1, depth - 1, |ch.children|);
        WalkHead(ch, c + 1, depth - 1, |ch.children|);
        assert forall k :: 0 <= k < |sub| ==> sub[k].Level() >= c;
      }
    }
  }

  /** Exactly one header, before any entry, at indent c - 1; every later
      line is indented at least c units deep. */
  lemma ListingShape(fl: Flavour, canon: string -> string, e: Entry, c: int, depth: int)
    requires e.Dir?
    ensures |Listing(fl, canon, e, c, depth)| >= 1
    ensures var l := Listing(fl, canon, e, c, depth)[0];
            l.indent == Units(c - 1) && l.tag == DirTag &&
            l.text == if e.children == [] then VacantText(fl, canon, e.path, depth) else HeaderText(fl, canon, e.path, depth)
    ensures forall k :: 0 < k < |Listing(fl, canon, e, c, depth)| ==>
              Listing(fl, canon, e, c, depth)[k].indent >= Units(c)
  {
    OutputRendersWalk(fl, canon, e, c, depth, |e.children|);
    WalkHead(e, c, depth, |e.children|);
    WalkLevels(e, c, depth, |e.children|);
  }

  /** With a negative depth the walk never reaches zero: every directory
      and every file of the tree is printed. */
  lemma {:induction false} NegativeDepthShowsAll(e: Entry, depth: int, n: nat)
    requires e.Dir? && n <= |e.children| && depth < 0
    ensures VisitedDirs(e, depth, n) == DirsUpTo(e, n)
    ensures ShownFiles(e, depth, n) == FilesUpTo(e, n)
    decreases e, n
  {
    if n > 0 {
      NegativeDepthShowsAll(e, depth, n - 1);
      var ch := e.children[n - 1];
      if ch.Dir? {
        NegativeDepthShowsAll(ch, depth - 1, |ch.children|);
      }
    }
  }

  /** At depth 0 only the starting directory is visited, yet its own plain
      files are still printed. */
  lemma {:induction false} DepthZeroShowsDirectFiles(e: Entry, n: nat)
    requires e.Dir? && n <= |e.children|
    ensures VisitedDirs(e, 0, n) == 1
    ensures ShownFiles(e, 0, n) == DirectFiles(e, n)
  {
    if n > 0 {
      DepthZeroShowsDirectFiles(e, n - 1);
    }
  }

  predicate EndsWith(s: string, t: string) {
    |t| <= |s| && s[|s| - |t|..] == t
  }

  /** The two suffixes end in different characters, so no line carries
      both. */
  lemma SuffixesExclusive(s: string)
    ensures !(EndsWith(s, Containing) && EndsWith(s, EmptyFolder))
  {
    if EndsWith(s, Containing) {
      var k := |EmptyFolder|;
      assert s[|s| - 1] == s[|s| - |Containing|..][|Containing| - 1] == ':';
      assert s[|s| - k..][k - 1] != EmptyFolder[k - 1];
    }
  }

  lemma EndsWithAppended(s: string, t: string)
    ensures EndsWith(s + t, t)
  {
    assert (s + t)[|s|..] == t;
  }

  /** A header carries " - a directory containing:" and the line of an
      empty directory " - an empty folder." when depth is not zero, and
      never the other one; at depth zero neither is added. */
  lemma Suffixes(fl: Flavour, canon: string -> string, p: string, depth: int)
    ensures depth != 0 ==> EndsWith(HeaderText(fl, canon, p, depth), Containing) &&
                           !EndsWith(HeaderText(fl, canon, p, depth), EmptyFolder)
    ensures depth != 0 ==> EndsWith(VacantText(fl, canon, p, depth), EmptyFolder) &&
                           !EndsWith(VacantText(fl, canon, p, depth), Containing)
    ensures depth == 0 ==> HeaderText(fl, canon, p, depth) == Title(fl, canon, p)
    ensures depth == 0 ==> VacantText(fl, canon, p, depth) == ReadableName(fl, canon, p)
  {
    var t, n := Title(fl, canon, p), ReadableName(fl, canon, p);
    if depth != 0 {
      EndsWithAppended(t, Containing);
      SuffixesExclusive(t + Containing);
      EndsWithAppended(n, EmptyFolder);
      SuffixesExclusive(n + EmptyFolder);
    } else {
      assert t + "" == t;
      assert n + "" == n;
    }
  }

  const NotADirectory := "Provided path doesn't name a directory."
  const DefaultRoot := "."
  const DefaultDepth := 3

  /** A lookup that answers with a well-formed tree carrying the path it
      was asked for. */
  ghost predicate Snapshot(lookup: string -> Option<Entry>) {
    forall p :: lookup(p).Some? ==> lookup(p).value.path == p && WellFormed(lookup(p).value)
  }

  /** Below the root no step of the walk is for an alias: a header in the
      quoted " a.k.a. " form can only be the root's. */
  lemma {:induction false} AliasOnlyAtRoot(fl: Flavour, e: Entry, c: int, depth: int, n: nat)
    requires e.Dir? && n <= |e.children| && WellFormed(e)
    ensures forall k :: 0 < k < |Walk(e, c, depth, n)| ==> !IsAlias(fl, Walk(e, c, depth, n)[k].path)
    decreases e, n
  {
    if n > 0 {
      var ch := e.children[n - 1];
      AliasOnlyAtRoot(fl, e, c, depth, n - 1);
      WalkHead(e, c, depth, n - 1);
      assert ChildPath(e.path, ch.path);
      ChildIsNoAlias(fl, e.path, Leaf(ch.path));
      if ch.Dir? && depth != 0 {
        var sub := Steps(ch, c + 1, depth - 1);
        AliasOnlyAtRoot(fl, ch, c + 1, depth - 1, |ch.children|);
        WalkHead(ch, c + 1, depth - 1, |ch.children|);
        assert forall k :: 0 <= k < |sub| ==> !IsAlias(fl, sub[k].path);
      }
    }
  }

  /** What main settles before walking: the root path, what it names, and
      the depth. */
  datatype Invocation = Invocation(root: string, top: Entry, depth: int)

  /** main's argument handling: the root defaults to "." and the depth to
      3, and a root that does not name a directory is rejected with a
      logic_error before anything is walked. `lookup` is the snapshot seen
      by is_directory; `depthArg` is the already-converted second
      argument. */
  function Launch(lookup: string -> Option<Entry>, rootArg: Option<string>, depthArg: Option<int>): (r: Result<Invocation, string>)
    ensures var root := rootArg.GetOr(DefaultRoot);
            r.Success? <==> lookup(root).Some? && lookup(root).value.Dir?
    ensures r.Failure? ==> r.error == NotADirectory
    ensures r.Success? ==> r.value.root == rootArg.GetOr(DefaultRoot) &&
                           lookup(r.value.root) == Some(r.value.top) && r.value.top.Dir? &&
                           r.value.depth == depthArg.GetOr(DefaultDepth)
    ensures r.Success? && Snapshot(lookup) ==> r.value.top.path == r.value.root && WellFormed(r.value.top)
  {
    var root := rootArg.GetOr(DefaultRoot);
    match lookup(root)
    case Some(e) =>
      if e.Dir? then Success(Invocation(root, e, depthArg.GetOr(DefaultDepth)))
      else Failure(NotADirectory)
    case None => Failure(NotADirectory)
  }

  /** boost/filesystem.cpp main: validate, then recursive_dirwalk(p, 1,
      depth) with boost's readable_name (only that file's main launches a
      walk this way). The listing opens with the root's own header (or
      empty-folder line) at indent 0, and everything after it is at least
      one unit deep. From a consistent snapshot that header names the
      root exactly as it was passed in. */
  function Run(canon: string -> string, lookup: string -> Option<Entry>,
               rootArg: Option<string>, depthArg: Option<int>): (r: Result<seq<Line>, string>)
    ensures r.Failure? <==> Launch(lookup, rootArg, depthArg).Failure?
    ensures r.Failure? ==> r.error == NotADirectory
    ensures r.Success? ==> |r.value| >= 1 && r.value[0].indent == 0 && r.value[0].tag == DirTag
    ensures r.Success? ==>
              var top := lookup(rootArg.GetOr(DefaultRoot)).value;
              var d := depthArg.GetOr(DefaultDepth);
              r.value == Listing(BoostFs, canon, top, 1, d) &&
              r.value[0].text == (if top.children == [] then VacantText(BoostFs, canon, top.path, d)
                                  else HeaderText(BoostFs, canon, top.path, d)) &&
              forall k :: 0 < k < |r.value| ==> r.value[k].indent >= 1
    ensures r.Success? && Snapshot(lookup) ==>
              var root := rootArg.GetOr(DefaultRoot);
              var d := depthArg.GetOr(DefaultDepth);
              r.value[0].text == (if lookup(root).value.children == [] then VacantText(BoostFs, canon, root, d)
                                  else HeaderText(BoostFs, canon, root, d))
  {
    match Launch(lookup, rootArg, depthArg)
    case Failure(msg) => Failure(msg)
    case Success(inv) =>
      ListingShape(BoostFs, canon, inv.top, 1, inv.depth);
      Success(Listing(BoostFs, canon, inv.top, 1, inv.depth))
  }
}
