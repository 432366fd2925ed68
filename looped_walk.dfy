/** looped_dirwalk (moderncpp/filesystem.cpp): the walk that grows a
    forest of `file` nodes until every node is walked, then flattens the
    forest into `clean_file`s, sorts them by path and prints them. Only the
    std::filesystem build has it, so readable_name is the std one. */
module LoopedWalk {
  import opened Paths
  import opened FsTree
  import opened Console
  import opened StrOrder
  import opened RecursiveWalk

  /** A line ready to print: the displayed name, the path, the path again
      as synonym for an alias, the indentation and whether it is a
      directory. */
  datatype CleanFile = CleanFile(name: string, p: string, synonim: string, hasSynonims: bool, indent: nat, dir: bool)

  predicate IsDotAlias(p: string) {
    IsAlias(StdFs, p)
  }

  /** clean_file(path, d): the constructor a bare path goes through. An
      alias gets its readable name in double quotes. */
  function FromPath(canon: string -> string, p: string, d: bool): (cf: CleanFile) {
    if IsDotAlias(p) then CleanFile(Quote(ReadableName(StdFs, canon, p)), p, p, true, SlashCount(p), d)
    else CleanFile(ReadableName(StdFs, canon, p), p, "", false, SlashCount(p), d)
  }

  /** clean_file(const file&): the constructor a forest node goes through.
      An alias keeps its readable name unquoted. */
  function FromNode(canon: string -> string, p: string, d: bool): (cf: CleanFile) {
    if IsDotAlias(p) then CleanFile(ReadableName(StdFs, canon, p), p, p, true, SlashCount(p), d)
    else CleanFile(ReadableName(StdFs, canon, p), p, "", false, SlashCount(p), d)
  }

  /** The two constructors agree on everything but the name of an alias,
      which only the path constructor quotes. */
  lemma ConstructorsDiffer(canon: string -> string, p: string, d: bool)
    ensures FromPath(canon, p, d).(name := "") == FromNode(canon, p, d).(name := "")
    ensures IsDotAlias(p) ==> FromPath(canon, p, d).name == "\"" + FromNode(canon, p, d).name + "\""
    ensures !IsDotAlias(p) ==> FromPath(canon, p, d).name == FromNode(canon, p, d).name
    ensures FromNode(canon, p, d).indent == multiset(p)['/']
  {
  }

  /** clean_file::out: a directory is printed with " a.k.a " and its
      synonym when it has one, a file by its name alone; the indentation
      is the number of separators in the path. No suffix is ever added. */
  function Out(cf: CleanFile): (l: Line) {
    Line(cf.indent,
         if cf.dir && cf.hasSynonims then cf.name + " a.k.a " + cf.synonim else cf.name,
         if cf.dir then DirTag else FileTag)
  }

  /** What a line printed by out holds: the name, followed for an aliased
      directory by " a.k.a " and the path, and nothing else. */
  lemma OutShape(canon: string -> string, p: string, d: bool)
    ensures var l := Out(FromNode(canon, p, d));
            l.indent == SlashCount(p) && (l.tag == DirTag <==> d) &&
            l.text == if d && IsDotAlias(p) then ReadableName(StdFs, canon, p) + " a.k.a " + p
                      else ReadableName(StdFs, canon, p)
  {
  }

  /** Everything that the walk of the directories below e will have
      recorded once all are walked, e being a node of depth d that gets
      expanded: for each of its first n entries, a plain file as a
      path-constructed clean_file, a subdirectory as the whole collection
      of the node pushed for it with depth d - 1. */
  function Below(canon: string -> string, e: Entry, d: int, n: nat): seq<CleanFile>
    requires e.Dir? && n <= |e.children|
    decreases e, n
  {
    if n == 0 then []
    else
      var ch := e.children[n - 1];
      Below(canon, e, d, n - 1) +
      if ch.File? then [FromPath(canon, ch.path, false)]
      else if d != 0 then Collected(canon, ch, d - 1)
      else []
  }

  /** The clean_files a node for e with depth d contributes, itself
      included: the node always, and what lies below when depth > 0 makes
      it unwalked, so that it gets expanded. */
  function Collected(canon: string -> string, e: Entry, d: int): seq<CleanFile>
    requires e.Dir?
    decreases e, |e.children| + 1
  {
    [FromNode(canon, e.path, true)] + if d > 0 then Below(canon, e, d, |e.children|) else []
  }

  /** The state of a `file` node as a value. */
  datatype NodeView = NodeView(path: string, entry: Entry, directory: bool, depth: int, walked: bool, files: seq<string>)

  /** A node as looped_dirwalk keeps it: its constants agree with the
      entry, and a node that is not walked yet has depth > 0, is a
      directory and has recorded no files. */
  predicate Coherent(v: NodeView) {
    v.path == v.entry.path && v.directory == v.entry.Dir? &&
    (!v.walked ==> v.depth > 0 && v.entry.Dir? && v.files == [])
  }

  /** class file: one node of the forest. `entry` is what
      directory_iterator(path) enumerates in the modelled snapshot. */
  class FileNode {
    const path: string
    const entry: Entry
    const directory: bool
    const depth: int
    var walked: bool
    var files: seq<string>

    ghost function View(): NodeView
      reads this
    {
      NodeView(path, entry, directory, depth, walked, files)
    }

    /** file(p, d): a node is walked from the start unless its depth is
        positive. */
    constructor (e: Entry, d: int)
      ensures View() == Fresh(e, d)
    {
      path := e.path;
      entry := e;
      directory := e.Dir?;
      depth := d;
      walked := !(d > 0);
      files := [];
    }

    /** directory_containts: marks the node walked and enumerates its
        directory once. A subdirectory is pushed to the front of the
        forest as a new node one level shallower, unless this node's depth
        is zero; anything else is pushed to the front of its own files. */
    method DirectoryContents(fl: seq<FileNode>) returns (fl': seq<FileNode>, ghost born: seq<FileNode>)
      requires entry.Dir?
      modifies this
      ensures View() == Walked(old(View()))
      ensures fl' == born + fl && Distinct(born)
      ensures |born| == |PushedNodes(entry, depth, |entry.children|)|
      ensures forall k :: 0 <= k < |born| ==> fresh(born[k]) && born[k].View() == PushedNodes(entry, depth, |entry.children|)[k]
    {
      walked := true;
      fl', born := fl, [];
      var i := 0;
      while i < |entry.children|
        invariant 0 <= i <= |entry.children|
        invariant walked && files == PushedFiles(entry, i, old(files))
        invariant fl' == born + fl && Distinct(born)
        invariant |born| == |PushedNodes(entry, depth, i)|
        invariant forall k :: 0 <= k < |born| ==> fresh(born[k]) && born[k] != this && born[k].View() == PushedNodes(entry, depth, i)[k]
      {
        var ch := entry.children[i];
        ghost var pushed;
        fl', pushed := Enter(ch, fl', born);
        AppendAssoc(pushed, born, fl);
        born := pushed + born;
        i := i + 1;
      }
    }

    /** One turn of directory_containts' loop, for the entry ch; the nodes
        pushed earlier stay as they are. */
    method Enter(ch: Entry, fl: seq<FileNode>, ghost born: seq<FileNode>) returns (fl': seq<FileNode>, ghost pushed: seq<FileNode>)
      requires Distinct(born) && forall k :: 0 <= k < |born| ==> born[k] != this
      modifies this
      ensures walked == old(walked) && files == (if ch.File? then [ch.path] else []) + old(files)
      ensures fl' == pushed + fl && Distinct(pushed + born)
      ensures |pushed| == (if ch.Dir? && depth != 0 then 1 else 0)
      ensures forall k :: 0 <= k < |pushed| ==> fresh(pushed[k]) && pushed[k] != this && pushed[k].View() == Fresh(ch, depth - 1)
      ensures forall k :: 0 <= k < |born| ==> born[k].View() == old(born[k].View())
    {
      fl', pushed := fl, [];
      if ch.Dir? {
        if depth != 0 {
          var node := new FileNode(ch, depth - 1);
          fl', pushed := [node] + fl, [node];
        }
      } else {
        files := [ch.path] + files;
      }
    }
  }

  /** The view of a node just constructed. */
  function Fresh(e: Entry, d: int): NodeView {
    NodeView(e.path, e, e.Dir?, d, !(d > 0), [])
  }

  /** The files directory_containts pushes in front of fs for the first n
      entries of e, the last one first. */
  function PushedFiles(e: Entry, n: nat, fs: seq<string>): seq<string>
    requires e.Dir? && n <= |e.children|
  {
    if n == 0 then fs
    else
      var ch := e.children[n - 1];
      if ch.File? then [ch.path] + PushedFiles(e, n - 1, fs) else PushedFiles(e, n - 1, fs)
  }

  /** The nodes directory_containts pushes for the first n entries of e, a
      node of depth d, the last one first. */
  function PushedNodes(e: Entry, d: int, n: nat): seq<NodeView>
    requires e.Dir? && n <= |e.children|
  {
    if n == 0 then []
    else
      var ch := e.children[n - 1];
      (if ch.Dir? && d != 0 then [Fresh(ch, d - 1)] else []) + PushedNodes(e, d, n - 1)
  }

  predicate Distinct(fl: seq<FileNode>) {
    forall i, j :: 0 <= i < j < |fl| ==> fl[i] != fl[j]
  }

  ghost function Views(fl: seq<FileNode>): (vs: seq<NodeView>)
    reads set k | 0 <= k < |fl| :: fl[k]
    ensures |vs| == |fl| && forall k :: 0 <= k < |fl| ==> vs[k] == fl[k].View()
  {
    seq(|fl|, k reads set i | 0 <= i < |fl| :: fl[i] => if 0 <= k < |fl| then fl[k].View() else Fresh(File([]), 0))
  }

  lemma ViewsAppend(a: seq<FileNode>, b: seq<FileNode>)
    ensures Views(a + b) == Views(a) + Views(b)
  {
  }

  lemma DistinctAppend(a: seq<FileNode>, b: seq<FileNode>)
    requires Distinct(a) && Distinct(b)
    requires forall i, j :: 0 <= i < |a| && 0 <= j < |b| ==> a[i] != b[j]
    ensures Distinct(a + b)
  {
  }

  lemma AppendAssoc<T>(a: seq<T>, b: seq<T>, c: seq<T>)
    ensures a + (b + c) == (a + b) + c
  {
  }

  predicate AllWalked(vs: seq<NodeView>) {
    forall k :: 0 <= k < |vs| ==> vs[k].walked
  }

  predicate AllCoherent(vs: seq<NodeView>) {
    forall k :: 0 <= k < |vs| ==> Coherent(vs[k])
  }

  /** The forest as looped_dirwalk keeps it: no node twice, every node
      coherent. */
  ghost predicate Forest(fl: seq<FileNode>)
    reads set k | 0 <= k < |fl| :: fl[k]
  {
    Distinct(fl) && AllCoherent(Views(fl))
  }

  function FileCleanFn(canon: string -> string): string -> CleanFile {
    p => FromPath(canon, p, false)
  }

  /** clean_files built from recorded file paths. */
  function FileCleans(canon: string -> string, fs: seq<string>): seq<CleanFile> {
    Map(FileCleanFn(canon), fs)
  }

  /** What a node stands for in the final listing: its own clean_file,
      those of the files it recorded and, while it is still to be walked,
      everything below it. */
  function Owed(canon: string -> string, v: NodeView): multiset<CleanFile> {
    multiset{FromNode(canon, v.path, v.directory)} + multiset(FileCleans(canon, v.files)) +
    if !v.walked && v.entry.Dir? then multiset(Below(canon, v.entry, v.depth, |v.entry.children|)) else multiset{}
  }

  /** Sum of a sequence of multisets. */
  function Union(ms: seq<multiset<CleanFile>>): multiset<CleanFile> {
    if ms == [] then multiset{} else Union(ms[..|ms| - 1]) + ms[|ms| - 1]
  }

  /** Sum of a sequence of counts. */
  function Total(ns: seq<nat>): nat {
    if ns == [] then 0 else Total(ns[..|ns| - 1]) + ns[|ns| - 1]
  }

  lemma {:induction false} UnionConcat(a: seq<multiset<CleanFile>>, b: seq<multiset<CleanFile>>)
    ensures Union(a + b) == Union(a) + Union(b)
    decreases |b|
  {
    if b == [] {
      assert a + b == a;
    } else {
      assert (a + b)[..|a + b| - 1] == a + b[..|b| - 1];
      UnionConcat(a, b[..|b| - 1]);
    }
  }

  lemma {:induction false} UnionUpdate(ms: seq<multiset<CleanFile>>, j: nat, m: multiset<CleanFile>)
    requires j < |ms|
    ensures Union(ms[j := m]) + ms[j] == Union(ms) + m
    decreases |ms|
  {
    var n := |ms| - 1;
    if j == n {
      assert ms[j := m][..n] == ms[..n];
    } else {
      assert ms[j := m][..n] == ms[..n][j := m];
      UnionUpdate(ms[..n], j, m);
      calc {
        Union(ms[j := m]) + ms[j];
        Union(ms[..n][j := m]) + ms[n] + ms[j];
        Union(ms[..n][j := m]) + ms[j] + ms[n];
        Union(ms[..n]) + m + ms[n];
        Union(ms) + m;
      }
    }
  }

  lemma {:induction false} TotalConcat(a: seq<nat>, b: seq<nat>)
    ensures Total(a + b) == Total(a) + Total(b)
    decreases |b|
  {
    if b == [] {
      assert a + b == a;
    } else {
      assert (a + b)[..|a + b| - 1] == a + b[..|b| - 1];
      TotalConcat(a, b[..|b| - 1]);
    }
  }

  lemma {:induction false} TotalUpdate(ns: seq<nat>, j: nat, m: nat)
    requires j < |ns|
    ensures Total(ns[j := m]) + ns[j] == Total(ns) + m
    decreases |ns|
  {
    var n := |ns| - 1;
    if j == n {
      assert ns[j := m][..n] == ns[..n];
    } else {
      assert ns[j := m][..n] == ns[..n][j := m];
      TotalUpdate(ns[..n], j, m);
    }
  }

  /** f applied to every element. */
  function Map<A, B>(f: A -> B, s: seq<A>): (r: seq<B>)
    ensures |r| == |s| && forall k :: 0 <= k < |s| ==> r[k] == f(s[k])
  {
    seq(|s|, k requires 0 <= k < |s| => f(s[k]))
  }

  lemma MapConcat<A, B>(f: A -> B, a: seq<A>, b: seq<A>)
    ensures Map(f, a + b) == Map(f, a) + Map(f, b)
  {
  }

  lemma MapUpdate<A, B>(f: A -> B, s: seq<A>, j: nat, x: A)
    requires j < |s|
    ensures Map(f, s[j := x]) == Map(f, s)[j := f(x)]
  {
  }

  function OwedFn(canon: string -> string): NodeView -> multiset<CleanFile> {
    v => Owed(canon, v)
  }

  /** Everything a forest stands for. */
  function OwedAll(canon: string -> string, vs: seq<NodeView>): multiset<CleanFile> {
    Union(Map(OwedFn(canon), vs))
  }

  /** Entries still to be enumerated because of a node: the whole subtree
      of a node not walked yet. */
  function PendingOf(v: NodeView): nat {
    if !v.walked && v.entry.Dir? then Size(v.entry) else 0
  }

  function Pending(vs: seq<NodeView>): nat {
    Total(Map(PendingOf, vs))
  }

  /** A node pushed for the subdirectory ch with depth d stands for
      exactly the clean_files collected for ch at that depth. */
  lemma FreshOwed(canon: string -> string, ch: Entry, d: int)
    requires ch.Dir?
    ensures Owed(canon, Fresh(ch, d)) == multiset(Collected(canon, ch, d))
    ensures PendingOf(Fresh(ch, d)) <= Size(ch) && Coherent(Fresh(ch, d))
  {
    assert FileCleans(canon, []) == [];
  }

  /** A node once directory_containts has run on it. */
  function Walked(v: NodeView): NodeView
    requires v.entry.Dir?
  {
    v.(walked := true, files := PushedFiles(v.entry, |v.entry.children|, v.files))
  }

  lemma OwedConcat(canon: string -> string, a: seq<NodeView>, b: seq<NodeView>)
    ensures OwedAll(canon, a + b) == OwedAll(canon, a) + OwedAll(canon, b)
  {
    MapConcat(OwedFn(canon), a, b);
    UnionConcat(Map(OwedFn(canon), a), Map(OwedFn(canon), b));
  }

  lemma PendingConcat(a: seq<NodeView>, b: seq<NodeView>)
    ensures Pending(a + b) == Pending(a) + Pending(b)
    ensures AllCoherent(a) && AllCoherent(b) ==> AllCoherent(a + b)
  {
    MapConcat(PendingOf, a, b);
    TotalConcat(Map(PendingOf, a), Map(PendingOf, b));
  }

  lemma ForestUpdate(canon: string -> string, vs: seq<NodeView>, j: nat, w: NodeView)
    requires j < |vs|
    ensures OwedAll(canon, vs[j := w]) + Owed(canon, vs[j]) == OwedAll(canon, vs) + Owed(canon, w)
    ensures Pending(vs[j := w]) + PendingOf(vs[j]) == Pending(vs) + PendingOf(w)
  {
    MapUpdate(OwedFn(canon), vs, j, w);
    MapUpdate(PendingOf, vs, j, w);
    UnionUpdate(Map(OwedFn(canon), vs), j, OwedFn(canon)(w));
    TotalUpdate(Map(PendingOf, vs), j, PendingOf(w));
  }

  lemma UnionOne(m: multiset<CleanFile>)
    ensures Union([m]) == m
  {
    assert [m][..0] == [];
  }

  lemma TotalOne(n: nat)
    ensures Total([n]) == n
  {
    assert [n][..0] == [];
  }

  /** A forest of one node stands for what that node stands for. */
  lemma OwedOne(canon: string -> string, v: NodeView)
    ensures OwedAll(canon, [v]) == Owed(canon, v)
  {
    assert Map(OwedFn(canon), [v]) == [Owed(canon, v)];
    UnionOne(Owed(canon, v));
  }

  lemma PendingOne(v: NodeView)
    ensures Pending([v]) == PendingOf(v)
  {
    assert Map(PendingOf, [v]) == [PendingOf(v)];
    TotalOne(PendingOf(v));
  }

  /** The nodes directory_containts pushes for the first n entries of e
      are coherent and leave fewer entries to enumerate than those n
      entries hold. */
  lemma {:induction false} PushedPending(e: Entry, d: int, n: nat)
    requires e.Dir? && n <= |e.children|
    ensures Pending(PushedNodes(e, d, n)) < SizeUpTo(e, n)
    ensures AllCoherent(PushedNodes(e, d, n))
    decreases n
  {
    if n > 0 {
      PushedPending(e, d, n - 1);
      var ch := e.children[n - 1];
      assert SizeUpTo(e, n) == SizeUpTo(e, n - 1) + Size(ch);
      if ch.Dir? && d != 0 {
        var v := Fresh(ch, d - 1);
        assert PushedNodes(e, d, n) == [v] + PushedNodes(e, d, n - 1);
        PendingConcat([v], PushedNodes(e, d, n - 1));
        PendingOne(v);
        assert Coherent(v);
      } else {
        assert PushedNodes(e, d, n) == PushedNodes(e, d, n - 1);
      }
    }
  }

  lemma AddToBalance<T>(a: multiset<T>, o: multiset<T>, b: multiset<T>, c: multiset<T>)
    requires a + o == b
    ensures c + a + o == b + c
  {
  }

  /** Walking a node of depth d > 0 for e trades everything below its
      first n entries for the files it records and the nodes it
      pushes. */
  lemma {:induction false} ExpansionAccounts(canon: string -> string, e: Entry, d: int, n: nat)
    requires e.Dir? && n <= |e.children| && d > 0
    ensures multiset(FileCleans(canon, PushedFiles(e, n, []))) + OwedAll(canon, PushedNodes(e, d, n)) ==
            multiset(Below(canon, e, d, n))
    decreases n
  {
    if n == 0 {
      assert FileCleans(canon, []) == [];
    } else {
      var m: nat := n - 1;
      ExpansionAccounts(canon, e, d, m);
      var ch := e.children[m];
      var x := if ch.File? then multiset{FromPath(canon, ch.path, false)} else multiset(Part(canon, ch, d));
      if ch.File? {
        FileStep(canon, e, d, m, n);
      } else {
        DirStep(canon, e, d, m, n);
      }
      AddToBalance(multiset(FileCleans(canon, PushedFiles(e, m, []))), OwedAll(canon, PushedNodes(e, d, m)),
                   multiset(Below(canon, e, d, m)), x);
    }
  }

  /** A plain file entry is recorded by name and listed as a file. */
  lemma FileStep(canon: string -> string, e: Entry, d: int, m: nat, n: nat)
    requires e.Dir? && n == m + 1 && n <= |e.children| && d > 0 && e.children[m].File?
    ensures multiset(FileCleans(canon, PushedFiles(e, n, []))) ==
            multiset{FromPath(canon, e.children[m].path, false)} + multiset(FileCleans(canon, PushedFiles(e, m, [])))
    ensures OwedAll(canon, PushedNodes(e, d, n)) == OwedAll(canon, PushedNodes(e, d, m))
    ensures multiset(Below(canon, e, d, n)) ==
            multiset(Below(canon, e, d, m)) + multiset{FromPath(canon, e.children[m].path, false)}
  {
    var ch := e.children[m];
    var pf := PushedFiles(e, m, []);
    assert PushedFiles(e, n, []) == [ch.path] + pf;
    assert PushedNodes(e, d, n) == PushedNodes(e, d, m);
    assert Below(canon, e, d, n) == Below(canon, e, d, m) + [FromPath(canon, ch.path, false)];
    MapConcat(FileCleanFn(canon), [ch.path], pf);
    assert FileCleans(canon, [ch.path]) == [FromPath(canon, ch.path, false)];
  }

  /** The share of a walk of depth d that entry ch contributes to its parent's listing. */
  function Part(canon: string -> string, ch: Entry, d: int): (r: seq<CleanFile>)
    requires ch.Dir? && d > 0
    ensures |r| >= 1
  {
    Collected(canon, ch, d - 1)
  }

  /** A sub-directory entry contributes its own node's account. */
  lemma DirStep(canon: string -> string, e: Entry, d: int, m: nat, n: nat)
    requires e.Dir? && n == m + 1 && n <= |e.children| && d > 0 && e.children[m].Dir?
    ensures PushedFiles(e, n, []) == PushedFiles(e, m, [])
    ensures OwedAll(canon, PushedNodes(e, d, n)) ==
            multiset(Part(canon, e.children[m], d)) + OwedAll(canon, PushedNodes(e, d, m))
    ensures multiset(Below(canon, e, d, n)) ==
            multiset(Below(canon, e, d, m)) + multiset(Part(canon, e.children[m], d))
  {
    var ch := e.children[m];
    var v := Fresh(ch, d - 1);
    var pn := PushedNodes(e, d, m);
    assert PushedNodes(e, d, n) == [v] + pn;
    assert Below(canon, e, d, n) == Below(canon, e, d, m) + Collected(canon, ch, d - 1);
    FreshOwed(canon, ch, d - 1);
    OwedConcat(canon, [v], pn);
    OwedOne(canon, v);
  }

  /** Walking one unwalked node replaces its account by that of the walked
      node plus the nodes it pushes, and leaves nothing pending on it. */
  lemma WalkedAccounts(canon: string -> string, v: NodeView)
    requires Coherent(v) && !v.walked
    ensures v.entry.Dir?
    ensures var pn := PushedNodes(v.entry, v.depth, |v.entry.children|);
            Owed(canon, Walked(v)) + OwedAll(canon, pn) == Owed(canon, v) &&
            Coherent(Walked(v)) && PendingOf(Walked(v)) == 0 &&
            AllCoherent(pn) && Pending(pn) < PendingOf(v)
  {
    var e := v.entry;
    var k := |e.children|;
    ExpansionAccounts(canon, e, v.depth, k);
    PushedPending(e, v.depth, k);
    assert FileCleans(canon, v.files) == [];
  }

  lemma Rebalance<T>(p: multiset<T>, u: multiset<T>, v: multiset<T>, ov: multiset<T>, ow: multiset<T>)
    requires u + ov == v + ow && ow + p == ov
    ensures p + u == v
  {
    forall x ensures (p + u)[x] == v[x] {
      assert (u + ov)[x] == (v + ow)[x];
      assert (ow + p)[x] == ov[x];
    }
  }

  /** Walking node j of a coherent forest keeps what the forest stands for
      and strictly shrinks what is left to enumerate. */
  lemma ExpandAccounts(canon: string -> string, vs: seq<NodeView>, j: nat)
    requires j < |vs| && AllCoherent(vs) && !vs[j].walked
    ensures vs[j].entry.Dir?
    ensures var v := vs[j];
            var ws := PushedNodes(v.entry, v.depth, |v.entry.children|) + vs[j := Walked(v)];
            AllCoherent(ws) && OwedAll(canon, ws) == OwedAll(canon, vs) && Pending(ws) < Pending(vs)
  {
    var v := vs[j];
    assert Coherent(v);
    var w := Walked(v);
    var pn := PushedNodes(v.entry, v.depth, |v.entry.children|);
    var us := vs[j := w];
    WalkedAccounts(canon, v);
    ForestUpdate(canon, vs, j, w);
    OwedConcat(canon, pn, us);
    PendingConcat(pn, us);
    Rebalance(OwedAll(canon, pn), OwedAll(canon, us), OwedAll(canon, vs), Owed(canon, v), Owed(canon, w));
    assert AllCoherent(us);
  }

  /** The forest after one directory_containts, given how that changed
      node j and which nodes it pushed in front: the views are those of
      the pushed nodes followed by the earlier ones with node j's replaced,
      and no node is there twice. */
  lemma WalkStep(fl: seq<FileNode>, j: nat, vs: seq<NodeView>, w: NodeView, born: seq<FileNode>, pn: seq<NodeView>)
    requires j < |fl| == |vs| && Distinct(fl) && Distinct(born)
    requires fl[j].View() == w && forall k :: 0 <= k < |fl| && k != j ==> fl[k].View() == vs[k]
    requires |born| == |pn| && forall k :: 0 <= k < |born| ==> born[k].View() == pn[k]
    requires forall a, b :: 0 <= a < |born| && 0 <= b < |fl| ==> born[a] != fl[b]
    ensures Distinct(born + fl) && Views(born + fl) == pn + vs[j := w]
  {
    assert Views(born) == pn;
    assert Views(fl) == vs[j := w];
    ViewsAppend(born, fl);
    DistinctAppend(born, fl);
  }

  /** f.directory_containts(fl) for the node at index j of a forest with
      no node twice: what it does to the views of the forest. */
  method Expand(fl: seq<FileNode>, j: nat) returns (fl': seq<FileNode>, ghost born: seq<FileNode>)
    requires j < |fl| && Distinct(fl) && fl[j].entry.Dir?
    modifies fl[j]
    ensures fl' == born + fl && Distinct(fl')
    ensures forall o :: o in born ==> fresh(o)
    ensures fl[j].View() == Walked(old(fl[j].View()))
    ensures forall k :: 0 <= k < |fl| && k != j ==> fl[k].View() == old(fl[k].View())
    ensures Views(fl') == PushedNodes(fl[j].entry, fl[j].depth, |fl[j].entry.children|) +
                          old(Views(fl))[j := Walked(old(fl[j].View()))]
  {
    ghost var vs := Views(fl);
    fl', born := fl[j].DirectoryContents(fl);
    assert forall k :: 0 <= k < |fl| && k != j ==> fl[k] != fl[j];
    forall a, b | 0 <= a < |born| && 0 <= b < |fl|
      ensures born[a] != fl[b]
    {
      assert fresh(born[a]);
    }
    WalkStep(fl, j, vs, Walked(vs[j]), born, PushedNodes(fl[j].entry, fl[j].depth, |fl[j].entry.children|));
  }

  /** The body of looped_dirwalk's inner loop for one node found not
      walked: directory_containts on it. The new nodes go to the front; the
      forest still stands for the same clean_files and has less left to
      enumerate. */
  method Visit(ghost canon: string -> string, fl: seq<FileNode>, j: nat) returns (fl': seq<FileNode>, ghost born: seq<FileNode>)
    requires j < |fl| && Forest(fl) && !fl[j].walked
    modifies fl[j]
    ensures Forest(fl') && fl[j].walked
    ensures fl' == born + fl && forall o :: o in born ==> fresh(o)
    ensures forall k :: 0 <= k < |fl| && k != j ==> fl[k].View() == old(fl[k].View())
    ensures OwedAll(canon, Views(fl')) == old(OwedAll(canon, Views(fl)))
    ensures Pending(Views(fl')) < old(Pending(Views(fl)))
  {
    ghost var vs := Views(fl);
    assert Coherent(vs[j]);
    fl', born := Expand(fl, j);
    ghost var ws := PushedNodes(vs[j].entry, vs[j].depth, |vs[j].entry.children|) + vs[j := Walked(vs[j])];
    assert Views(fl') == ws;
    ExpandAccounts(canon, vs, j);
  }

  /** Visit for the node that sits at index i of the forest the turn
      started with, when the nodes pre have been pushed in front of it. */
  method VisitAt(ghost canon: string -> string, fl: seq<FileNode>, ghost pre: seq<FileNode>, cur: seq<FileNode>, i: nat)
      returns (cur': seq<FileNode>, ghost pre': seq<FileNode>)
    requires i < |fl| && Forest(cur) && cur == pre + fl && !fl[i].walked
    modifies fl[i]
    ensures Forest(cur') && cur' == pre' + fl && forall o :: o in pre' ==> o in pre || fresh(o)
    ensures OwedAll(canon, Views(cur')) == old(OwedAll(canon, Views(cur)))
    ensures Pending(Views(cur')) < old(Pending(Views(cur)))
  {
    var at := |cur| - |fl| + i;
    assert at == |pre| + i && cur[at] == fl[i];
    ghost var born;
    cur', born := Visit(canon, cur, at);
    AppendAssoc(born, pre, fl);
    pre' := born + pre;
  }

  /** One turn of the range-for in looped_dirwalk: node i is expanded when
      it has not been walked yet. */
  method PassStep(ghost canon: string -> string, fl: seq<FileNode>, i: nat, cur: seq<FileNode>, allWalked: bool,
                  ghost pre: seq<FileNode>, ghost vs: seq<NodeView>, ghost owed: multiset<CleanFile>)
    returns (cur': seq<FileNode>, allWalked': bool, ghost pre': seq<FileNode>)
    requires i < |fl| && |vs| == |fl|
    requires Forest(cur) && cur == pre + fl && OwedAll(canon, Views(cur)) == owed
    requires allWalked ==> pre == [] && Views(fl) == vs && forall k :: 0 <= k < i ==> vs[k].walked
    requires !allWalked ==> Pending(Views(cur)) < Pending(vs)
    modifies fl[i]
    ensures Forest(cur') && cur' == pre' + fl && forall o :: o in pre' ==> o in pre || fresh(o)
    ensures OwedAll(canon, Views(cur')) == owed
    ensures allWalked' ==> pre' == [] && Views(fl) == vs && forall k :: 0 <= k <= i ==> vs[k].walked
    ensures !allWalked' ==> Pending(Views(cur')) < Pending(vs)
  {
    if fl[i].walked {
      cur', allWalked', pre' := cur, allWalked, pre;
    } else {
      if allWalked {
        assert cur == fl;
      }
      assert Pending(Views(cur)) <= Pending(vs);
      allWalked' := false;
      cur', pre' := VisitAt(canon, fl, pre, cur, i);
    }
  }

  /** One turn of looped_dirwalk's outer loop: all_walked is set, then
      every node the forest holds when the turn starts is looked at once,
      in order (the nodes pushed in front meanwhile come before the
      iterator), and each one found not walked is walked. */
  method Pass(ghost canon: string -> string, fl: seq<FileNode>, ghost vs: seq<NodeView>) returns (fl': seq<FileNode>, allWalked: bool, ghost pre: seq<FileNode>)
    requires Forest(fl) && Views(fl) == vs
    modifies set o | o in fl
    ensures Forest(fl') && fl' == pre + fl && forall o :: o in pre ==> fresh(o)
    ensures OwedAll(canon, Views(fl')) == OwedAll(canon, vs)
    ensures allWalked ==> pre == [] && fl' == fl && Views(fl) == vs && AllWalked(vs)
    ensures !allWalked ==> Pending(Views(fl')) < Pending(vs)
  {
    ghost var owed := OwedAll(canon, vs);
    fl', allWalked, pre := fl, true, [];
    var i := 0;
    while i < |fl|
      invariant 0 <= i <= |fl|
      invariant Forest(fl') && fl' == pre + fl && forall o :: o in pre ==> fresh(o)
      invariant OwedAll(canon, Views(fl')) == owed
      invariant allWalked ==> pre == [] && Views(fl) == vs && forall k :: 0 <= k < i ==> vs[k].walked
      invariant !allWalked ==> Pending(Views(fl')) < Pending(vs)
    {
      ghost var before := pre;
      label L:
      fl', allWalked, pre := PassStep(canon, fl, i, fl', allWalked, pre, vs, owed);
      forall o | o in pre
        ensures fresh(o)
      {
        if o !in before {
          assert fresh@L(o);
        }
      }
      i := i + 1;
    }
    if allWalked {
      assert fl' == fl;
    }
  }

  /** The forest looped_dirwalk starts from: the single node file(p, depth). */
  method Plant(ghost canon: string -> string, root: Entry, depth: int) returns (fl: seq<FileNode>)
    requires root.Dir?
    ensures Forest(fl) && forall o :: o in fl ==> fresh(o)
    ensures OwedAll(canon, Views(fl)) == multiset(Collected(canon, root, depth))
  {
    var f := new FileNode(root, depth);
    fl := [f];
    assert Views(fl) == [Fresh(root, depth)];
    FreshOwed(canon, root, depth);
    OwedOne(canon, Fresh(root, depth));
  }

  /** The while loop of looped_dirwalk: passes over the forest until a
      pass finds every node walked. The forest then stands for exactly the
      clean_files collected for the root. */
  method Grow(ghost canon: string -> string, root: Entry, depth: int) returns (fl: seq<FileNode>)
    requires root.Dir?
    ensures Forest(fl) && AllWalked(Views(fl))
    ensures OwedAll(canon, Views(fl)) == multiset(Collected(canon, root, depth))
  {
    fl := Plant(canon, root, depth);
    var allWalked := false;
    while !allWalked
      invariant Forest(fl) && forall o :: o in fl ==> fresh(o)
      invariant OwedAll(canon, Views(fl)) == multiset(Collected(canon, root, depth))
      invariant allWalked ==> AllWalked(Views(fl))
      decreases Pending(Views(fl)), if allWalked then 0 else 1
    {
      ghost var pre;
      ghost var vs := Views(fl);
      fl, allWalked, pre := Pass(canon, fl, vs);
      assert allWalked ==> Pending(Views(fl)) == Pending(vs);
    }
  }

  /** What one walked node yields when the forest is flattened: the node
      itself, then the files it recorded, in list order. */
  function NodeCleans(canon: string -> string, v: NodeView): seq<CleanFile> {
    [FromNode(canon, v.path, v.directory)] + FileCleans(canon, v.files)
  }

  /** The vector fs built from a forest, node after node. */
  function Flat(canon: string -> string, vs: seq<NodeView>): seq<CleanFile> {
    if vs == [] then [] else Flat(canon, vs[..|vs| - 1]) + NodeCleans(canon, vs[|vs| - 1])
  }

  /** Once every node is walked, the flattened forest holds exactly what
      the forest stands for. */
  lemma {:induction false} FlatAccounts(canon: string -> string, vs: seq<NodeView>)
    requires AllWalked(vs)
    ensures multiset(Flat(canon, vs)) == OwedAll(canon, vs)
    decreases |vs|
  {
    if vs != [] {
      var n := |vs| - 1;
      var init := vs[..n];
      assert vs == init + [vs[n]];
      FlatAccounts(canon, init);
      OwedConcat(canon, init, [vs[n]]);
      OwedOne(canon, vs[n]);
    }
  }

  /** Flattening one more node appends what that node yields. */
  lemma FlatStep(canon: string -> string, vs: seq<NodeView>, i: nat)
    requires i < |vs|
    ensures Flat(canon, vs[..i + 1]) == Flat(canon, vs[..i]) + NodeCleans(canon, vs[i])
  {
    assert vs[..i + 1][..i] == vs[..i];
  }

  /** The nested loops of looped_dirwalk that push every node, then every
      file recorded under it, to the back of fs. */
  method Flatten(canon: string -> string, fl: seq<FileNode>, ghost vs: seq<NodeView>) returns (fs: seq<CleanFile>)
    requires Views(fl) == vs
    ensures fs == Flat(canon, vs)
  {
    fs := [];
    var i := 0;
    while i < |fl|
      invariant 0 <= i <= |fl|
      invariant fs == Flat(canon, vs[..i])
    {
      var f := fl[i];
      ghost var done := fs;
      fs := fs + [FromNode(canon, f.path, f.directory)];
      fs := PushFiles(canon, fs, f.files);
      AppendAssoc(done, [FromNode(canon, f.path, f.directory)], FileCleans(canon, f.files));
      assert vs[i] == f.View();
      FlatStep(canon, vs, i);
      i := i + 1;
    }
    assert vs[..i] == vs;
  }

  /** The inner loop: the files recorded under one node, in list order. */
  method PushFiles(canon: string -> string, fs: seq<CleanFile>, files: seq<string>) returns (fs': seq<CleanFile>)
    ensures fs' == fs + FileCleans(canon, files)
  {
    fs' := fs;
    var j := 0;
    while j < |files|
      invariant 0 <= j <= |files|
      invariant fs' == fs + FileCleans(canon, files[..j])
    {
      assert files[..j + 1] == files[..j] + [files[j]];
      MapConcat(FileCleanFn(canon), files[..j], [files[j]]);
      fs' := fs' + [FromPath(canon, files[j], false)];
      j := j + 1;
    }
    assert files[..j] == files;
  }

  /** clean_file::operator< as std::sort uses it: a strict weak order on
      the path strings. fs is sorted when no element is less than one
      before it. */
  predicate SortedByPath(fs: seq<CleanFile>) {
    forall i, j :: 0 <= i < j < |fs| ==> !Less(fs[j].p, fs[i].p)
  }

  /** x placed before the first element that is not less than it. */
  function Insert(x: CleanFile, fs: seq<CleanFile>): (r: seq<CleanFile>)
    ensures multiset(r) == multiset{x} + multiset(fs)
  {
    if fs == [] || !Less(fs[0].p, x.p) then [x] + fs
    else
      assert fs == [fs[0]] + fs[1..];
      [fs[0]] + Insert(x, fs[1..])
  }

  /** std::sort(fs.begin(), fs.end()), the library call, as a function:
      an insertion sort by path. */
  function SortByPath(fs: seq<CleanFile>): (r: seq<CleanFile>)
    ensures multiset(r) == multiset(fs)
  {
    if fs == [] then []
    else
      assert fs == [fs[0]] + fs[1..];
      Insert(fs[0], SortByPath(fs[1..]))
  }

  /** Not being less is transitive over strings. */
  lemma NotLessTransitive(a: string, b: string, c: string)
    requires !Less(b, a) && !Less(c, b)
    ensures !Less(c, a)
  {
    if a != b && b != c {
      LessTotal(a, b);
      LessTotal(b, c);
      LessTransitive(a, b, c);
      LessAsymmetric(a, c);
    }
  }

  lemma {:induction false} InsertSorted(x: CleanFile, fs: seq<CleanFile>)
    requires SortedByPath(fs)
    ensures SortedByPath(Insert(x, fs))
    decreases |fs|
  {
    if fs == [] || !Less(fs[0].p, x.p) {
      forall k | 0 <= k < |fs|
        ensures !Less(fs[k].p, x.p)
      {
        if k > 0 {
          NotLessTransitive(x.p, fs[0].p, fs[k].p);
        }
      }
    } else {
      var rest := Insert(x, fs[1..]);
      InsertSorted(x, fs[1..]);
      LessAsymmetric(fs[0].p, x.p);
      forall k | 0 <= k < |rest|
        ensures !Less(rest[k].p, fs[0].p)
      {
        assert rest[k] in multiset{x} + multiset(fs[1..]);
        if rest[k] != x {
          var m :| 0 <= m < |fs[1..]| && fs[1..][m] == rest[k];
          assert fs[m + 1] == rest[k];
        }
      }
    }
  }

  /** What std::sort promises: the result is sorted and a permutation. */
  lemma {:induction false} SortByPathSorts(fs: seq<CleanFile>)
    ensures SortedByPath(SortByPath(fs)) && multiset(SortByPath(fs)) == multiset(fs)
    decreases |fs|
  {
    if fs != [] {
      SortByPathSorts(fs[1..]);
      InsertSorted(fs[0], SortByPath(fs[1..]));
    }
  }

  /** Below depth 1 the two walkers part ways: the root node of
      looped_dirwalk starts out walked, so the listing is the root alone,
      while recursive_dirwalk still lists the root's files and, for a
      negative depth, the whole tree. */
  lemma ShallowWalksDiffer(canon: string -> string, e: Entry, d: int)
    requires e.Dir? && d <= 0
    ensures Collected(canon, e, d) == [FromNode(canon, e.path, true)]
    ensures ShownFiles(e, d, |e.children|) == if d == 0 then DirectFiles(e, |e.children|) else FilesUpTo(e, |e.children|)
  {
    if d == 0 {
      DepthZeroShowsDirectFiles(e, |e.children|);
    } else {
      NegativeDepthShowsAll(e, d, |e.children|);
    }
  }

  /** At a positive depth the walkers still differ: a directory reached at
      the depth limit is listed by looped_dirwalk without its files (its
      node is created walked), while recursive_dirwalk prints the files of
      every directory it visits. Here r holds s, which holds the file f;
      at depth 1 the looped walk lists r and s only, the recursive one
      also prints f. */
  lemma DepthLimitDiffers(canon: string -> string)
    ensures var root := Dir("r", [Dir("r/s", [File("r/s/f")])]);
            Collected(canon, root, 1) == [FromNode(canon, "r", true), FromNode(canon, "r/s", true)] &&
            ShownFiles(root, 1, 1) == 1
  {
    var s := Dir("r/s", [File("r/s/f")]);
    var root := Dir("r", [s]);
    assert Collected(canon, s, 0) == [FromNode(canon, "r/s", true)];
    assert Below(canon, root, 1, 1) == Below(canon, root, 1, 0) + Collected(canon, s, 0);
    assert ShownFiles(s, 0, 1) == 1;
  }

  /** Only the root's clean_file can carry a synonym: every other one is
      made for a path the iterator formed, which is never an alias. */
  lemma SynonymsOnlyAtRoot(canon: string -> string, e: Entry, d: int)
    requires e.Dir? && WellFormed(e)
    ensures Collected(canon, e, d)[0].hasSynonims <==> IsDotAlias(e.path)
    ensures forall k :: 0 < k < |Collected(canon, e, d)| ==> !Collected(canon, e, d)[k].hasSynonims
  {
    if d > 0 {
      NoSynonymsBelow(canon, e, d, |e.children|);
    }
  }

  lemma {:induction false} NoSynonymsBelow(canon: string -> string, e: Entry, d: int, n: nat)
    requires e.Dir? && n <= |e.children| && WellFormed(e)
    ensures forall x :: x in Below(canon, e, d, n) ==> !x.hasSynonims
    decreases e, n
  {
    if n > 0 {
      var ch := e.children[n - 1];
      NoSynonymsBelow(canon, e, d, n - 1);
      assert ChildPath(e.path, ch.path);
      ChildIsNoAlias(StdFs, e.path, Leaf(ch.path));
      if ch.Dir? && d != 0 {
        NoSynonymsCollected(canon, ch, d - 1);
      }
    }
  }

  lemma {:induction false} NoSynonymsCollected(canon: string -> string, e: Entry, d: int)
    requires e.Dir? && WellFormed(e) && !IsDotAlias(e.path)
    ensures forall x :: x in Collected(canon, e, d) ==> !x.hasSynonims
    decreases e, |e.children| + 1
  {
    if d > 0 {
      NoSynonymsBelow(canon, e, d, |e.children|);
    }
  }

  /** The indentation clean_file takes from the '/' count puts every entry
      one level below its directory, unless the directory's path already
      ends with a separator; both constructors agree on it. */
  lemma ChildIndents(canon: string -> string, e: Entry)
    requires e.Dir? && WellFormed(e)
    ensures forall k :: 0 <= k < |e.children| ==>
              FromPath(canon, e.children[k].path, false).indent == FromNode(canon, e.children[k].path, true).indent ==
              FromNode(canon, e.path, true).indent + (if e.path == [] || e.path[|e.path| - 1] == '/' then 0 else 1)
  {
    forall k | 0 <= k < |e.children|
      ensures SlashCount(e.children[k].path) ==
              SlashCount(e.path) + (if e.path == [] || e.path[|e.path| - 1] == '/' then 0 else 1)
    {
      var p := e.children[k].path;
      assert ChildPath(e.path, p);
      SlashCountOfJoin(e.path, Leaf(p));
    }
  }

  /** looped_dirwalk(p, depth): grows the forest, flattens it into fs,
      sorts fs by path and prints every element with clean_file::out. The
      listing holds exactly the clean_files collected for the root, in
      ascending path order, one printed line each. */
  method LoopedDirwalk(canon: string -> string, root: Entry, depth: int) returns (fs: seq<CleanFile>, out: seq<Line>)
    requires root.Dir?
    ensures multiset(fs) == multiset(Collected(canon, root, depth))
    ensures SortedByPath(fs)
    ensures |out| == |fs| && forall k :: 0 <= k < |fs| ==> out[k] == Out(fs[k])
  {
    var fl := Grow(canon, root, depth);
    ghost var vs := Views(fl);
    var flat := Flatten(canon, fl, vs);
    FlatAccounts(canon, vs);
    fs := SortByPath(flat);
    SortByPathSorts(flat);
    out := Print(fs);
  }

  /** The last loop of looped_dirwalk: clean_file::out on every element,
      in order. */
  method Print(fs: seq<CleanFile>) returns (out: seq<Line>)
    ensures out == Map(Out, fs)
  {
    out := [];
    var i := 0;
    while i < |fs|
      invariant 0 <= i <= |fs|
      invariant out == Map(Out, fs[..i])
    {
      assert fs[..i + 1] == fs[..i] + [fs[i]];
      MapConcat(Out, fs[..i], [fs[i]]);
      out := out + [Out(fs[i])];
      i := i + 1;
    }
    assert fs[..i] == fs;
  }
}
