/** Path strings as the two directory walkers handle them: the alias tests
    for "." and "..", the readable name shown for a path, how
    directory_iterator forms a child's path, and the separator count that
    the sorted walker uses as indentation. canonicalize_file_name is a
    parameter `canon`: every path of the modelled snapshot exists, so it
    always resolves. */
module Paths {

  /** Which library the walker is built on: std::filesystem
      (moderncpp/filesystem.cpp) or boost::filesystem (boost/filesystem.cpp). */
  datatype Flavour = StdFs | BoostFs

  /** The text after the last '/', or the whole string when it has none
      (std::string::rfind followed by substr). */
  function AfterLastSlash(s: string): string {
    if s == [] then []
    else if s[|s| - 1] == '/' then []
    else AfterLastSlash(s[..|s| - 1]) + [s[|s| - 1]]
  }

  /** The result is a suffix of s holding no separator, and it is the
      longest one: either it is all of s or a separator precedes it. */
  lemma {:induction false} AfterLastSlashIsLastComponent(s: string)
    ensures '/' !in AfterLastSlash(s)
    ensures |AfterLastSlash(s)| <= |s| && AfterLastSlash(s) == s[|s| - |AfterLastSlash(s)|..]
    ensures |AfterLastSlash(s)| < |s| ==> s[|s| - |AfterLastSlash(s)| - 1] == '/'
    decreases |s|
  {
    if s != [] && s[|s| - 1] != '/' {
      AfterLastSlashIsLastComponent(s[..|s| - 1]);
    }
  }

  /** Without a separator, rfind finds nothing and the whole string is kept. */
  lemma {:induction false} NoSlashKeepsWhole(s: string)
    requires '/' !in s
    ensures AfterLastSlash(s) == s
  {
    AfterSeparator([], s);
    assert [] + s == s;
  }

  /** Whatever follows a final separator is the name after it. */
  lemma {:induction false} AfterSeparator(x: string, n: string)
    requires x == [] || x[|x| - 1] == '/'
    requires '/' !in n
    ensures AfterLastSlash(x + n) == n
    decreases |n|
  {
    if n == [] {
      assert x + n == x;
    } else {
      var last := n[|n| - 1];
      assert last in n;
      assert (x + n)[..|x + n| - 1] == x + n[..|n| - 1];
      AfterSeparator(x, n[..|n| - 1]);
      assert n == n[..|n| - 1] + [last];
    }
  }

  /** boost's path::leaf(): the last component. Only paths produced by
      Join (whose last component is a plain name) and the root given by the
      caller reach it; see README for the trailing-separator cases. */
  function Leaf(p: string): string {
    AfterLastSlash(p)
  }

  /** std: filename_is_dot / filename_is_dot_dot compare the whole native
      string. boost: path::filename_is_dot / filename_is_dot_dot look at
      the last component. */
  predicate IsAlias(fl: Flavour, p: string) {
    match fl
    case StdFs => p == "." || p == ".."
    case BoostFs => Leaf(p) == "." || Leaf(p) == ".."
  }

  /** readable_name: std canonicalises every path and keeps what follows
      the last '/'; boost does so only for an alias and otherwise returns
      leaf(). */
  function ReadableName(fl: Flavour, canon: string -> string, p: string): string {
    match fl
    case StdFs => AfterLastSlash(canon(p))
    case BoostFs => if IsAlias(fl, p) then AfterLastSlash(canon(p)) else Leaf(p)
  }

  /** A readable name is always a single component: it holds no separator,
      with either library. It is the last component of the canonical path
      whenever canonicalize_file_name is consulted. */
  lemma ReadableNameIsOneComponent(fl: Flavour, canon: string -> string, p: string)
    ensures '/' !in ReadableName(fl, canon, p)
    ensures fl == StdFs || IsAlias(fl, p) ==>
              ReadableName(fl, canon, p) == AfterLastSlash(canon(p))
    ensures fl == BoostFs && !IsAlias(fl, p) ==> ReadableName(fl, canon, p) == Leaf(p)
  {
    AfterLastSlashIsLastComponent(canon(p));
    AfterLastSlashIsLastComponent(p);
  }

  /** A name directory_iterator can yield: never empty, never "." or "..",
      never holding a separator. */
  predicate ValidName(n: string) {
    n != [] && '/' !in n && n != "." && n != ".."
  }

  /** path / name: a separator is inserted unless the directory path is
      empty or already ends with one. */
  function Join(dir: string, name: string): string {
    if dir == [] || dir[|dir| - 1] == '/' then dir + name else dir + "/" + name
  }

  /** The last component of a child path is the name it was listed under. */
  lemma LeafOfJoin(dir: string, name: string)
    requires ValidName(name)
    ensures Leaf(Join(dir, name)) == name
  {
    if dir == [] || dir[|dir| - 1] == '/' {
      AfterSeparator(dir, name);
    } else {
      assert Join(dir, name) == (dir + "/") + name;
      AfterSeparator(dir + "/", name);
    }
  }

  /** Only a path handed in by the caller can be an alias: no child path
      formed from a listed name ever is, with either library. */
  lemma ChildIsNoAlias(fl: Flavour, dir: string, name: string)
    requires ValidName(name)
    ensures !IsAlias(fl, Join(dir, name))
  {
    LeafOfJoin(dir, name);
  }

  /** The two libraries disagree on an alias reached through a directory:
      boost treats "a/.." as an alias, std::filesystem does not. */
  lemma AliasTestsDiffer()
    ensures IsAlias(BoostFs, "a/..") && !IsAlias(StdFs, "a/..")
  {
    assert AfterLastSlash("a/..") == ".." by {
      assert "a/.."[..3] == "a/.";
      assert "a/."[..2] == "a/";
      assert AfterLastSlash("a/.") == ".";
    }
  }

  /** std::quoted as operator<<(ostream&, const path&) applies it; the
      escaping of embedded quotes is not modelled. */
  function Quote(s: string): string {
    "\"" + s + "\""
  }

  /** std::count(p.begin(), p.end(), '/'). */
  function SlashCount(s: string): (r: nat)
    ensures r == multiset(s)['/']
    ensures r <= |s|
  {
    if s == [] then 0
    else
      assert s == s[..|s| - 1] + [s[|s| - 1]];
      SlashCount(s[..|s| - 1]) + (if s[|s| - 1] == '/' then 1 else 0)
  }

  /** A child path sits one separator deeper than its directory, unless the
      directory path already ends with a separator. */
  lemma {:induction false} SlashCountOfJoin(dir: string, name: string)
    requires ValidName(name)
    ensures SlashCount(Join(dir, name)) ==
            SlashCount(dir) + (if dir == [] || dir[|dir| - 1] == '/' then 0 else 1)
  {
    var j := Join(dir, name);
    assert multiset(name)['/'] == 0;
    if dir == [] || dir[|dir| - 1] == '/' {
      assert multiset(j) == multiset(dir) + multiset(name);
    } else {
      assert multiset(j) == multiset(dir) + multiset("/") + multiset(name);
    }
  }
}
