/** The filesystem snapshot a walk observes: a directory with its entries
    in directory_iterator order, and plain files as leaves. Every entry
    carries the path directory_iterator hands out for it (entry.path()),
    the root the path the walk was started from. */
module FsTree {
  import opened Paths

  datatype Entry = File(path: string) | Dir(path: string, children: seq<Entry>)

  /** p is a path directory_iterator hands out for an entry of directory
      dir: the directory's path joined with a plain name. */
  predicate ChildPath(dir: string, p: string) {
    ValidName(Leaf(p)) && p == Join(dir, Leaf(p))
  }

  /** A snapshot as directory_iterator presents it: every entry's path is
      its directory's path joined with its name, all the way down. */
  predicate WellFormed(e: Entry)
    decreases e
  {
    e.Dir? ==>
      forall k :: 0 <= k < |e.children| ==>
        ChildPath(e.path, e.children[k].path) && WellFormed(e.children[k])
  }

  /** Number of entries directory_iterator yields for e (none for a file). */
  function Width(e: Entry): nat {
    if e.Dir? then |e.children| else 0
  }

  /** Entries of the subtree made of e itself and of its first n entries
      with everything below them. Each count below is written over such a
      prefix, so that one function recurses into itself only. */
  function SizeUpTo(e: Entry, n: nat): (r: nat)
    requires n <= Width(e)
    ensures r >= 1 + n
    decreases e, n
  {
    if n == 0 then 1
    else SizeUpTo(e, n - 1) + SizeUpTo(e.children[n - 1], Width(e.children[n - 1]))
  }

  /** Number of entries in the subtree, e itself included. */
  function Size(e: Entry): (r: nat)
    ensures r >= 1
  {
    SizeUpTo(e, Width(e))
  }

  /** Directories in e and in its first n subtrees. */
  function DirsUpTo(e: Entry, n: nat): nat
    requires n <= Width(e)
    decreases e, n
  {
    if n == 0 then (if e.Dir? then 1 else 0)
    else DirsUpTo(e, n - 1) + DirsUpTo(e.children[n - 1], Width(e.children[n - 1]))
  }

  /** Plain files in e and in its first n subtrees. */
  function FilesUpTo(e: Entry, n: nat): nat
    requires n <= Width(e)
    decreases e, n
  {
    if n == 0 then (if e.File? then 1 else 0)
    else FilesUpTo(e, n - 1) + FilesUpTo(e.children[n - 1], Width(e.children[n - 1]))
  }

  /** Plain files among the first n entries of a directory. */
  function DirectFiles(e: Entry, n: nat): (r: nat)
    requires e.Dir? && n <= |e.children|
    ensures r <= n
  {
    if n == 0 then 0 else DirectFiles(e, n - 1) + (if e.children[n - 1].File? then 1 else 0)
  }
}
