/** The parts of Go's `path/filepath` the importer relies on, for '/'-separated paths:
    `Ext`, `Split`, `Base` and `Join`. `Join` is modelled without `Clean`: paths are taken to be
    clean already ('.', '..' and doubled separators are not rewritten). */
module Paths {
  import opened Text

  type Path = string

  predicate NoSlash(s: string) { forall i :: 0 <= i < |s| ==> s[i] != '/' }

  predicate NoDotOrSlash(s: string) { forall i :: 0 <= i < |s| ==> s[i] != '.' && s[i] != '/' }

  lemma NoSlashConcat(a: string, b: string)
    requires NoSlash(a) && NoSlash(b)
    ensures NoSlash(a + b)
  {
    forall i | 0 <= i < |a + b| ensures (a + b)[i] != '/' {
      if i >= |a| {
        assert (a + b)[i] == b[i - |a|];
      }
    }
  }

  /** `filepath.Ext`: the suffix starting at the last '.' of the final element, or "". */
  function Ext(path: Path): (e: string)
    ensures |e| <= |path| && path[|path| - |e|..] == e
    ensures e != "" ==> e[0] == '.' && NoDotOrSlash(e[1..])
    decreases |path|
  {
    if |path| == 0 then ""
    else
      var c := path[|path| - 1];
      if c == '/' then ""
      else if c == '.' then "."
      else
        var e := Ext(path[..|path| - 1]);
        if e == "" then "" else e + [c]
  }

  /** `Ext` looks only at the last character and the extension before it. */
  lemma ExtSnoc(p: string, c: char)
    ensures Ext(p + [c]) == if c == '/' then "" else if c == '.' then "." else if Ext(p) == "" then "" else Ext(p) + [c]
  {
    assert (p + [c])[..|p + [c]| - 1] == p;
  }

  /** The extension of a name that follows a directory part is the name's own extension. */
  lemma {:induction false} ExtAfterDir(dir: string, name: string)
    requires dir == [] || dir[|dir| - 1] == '/'
    requires NoSlash(name)
    ensures Ext(dir + name) == Ext(name)
    decreases |name|
  {
    if name == [] {
      assert dir + name == dir;
      if dir != [] {
        assert dir == dir[..|dir| - 1] + ['/'];
        ExtSnoc(dir[..|dir| - 1], '/');
      }
    } else {
      var init := name[..|name| - 1];
      var c := name[|name| - 1];
      assert name == init + [c];
      assert dir + name == (dir + init) + [c];
      assert NoSlash(init);
      ExtAfterDir(dir, init);
      ExtSnoc(dir + init, c);
      ExtSnoc(init, c);
    }
  }

  /** Characters other than '.' and '/' appended to an extensionless path add no extension. */
  lemma {:induction false} ExtStaysEmpty(s: string, t: string)
    requires Ext(s) == ""
    requires NoDotOrSlash(t)
    ensures Ext(s + t) == ""
    decreases |t|
  {
    if t == [] {
      assert s + t == s;
    } else {
      var init := t[..|t| - 1];
      assert (s + t)[..|s + t| - 1] == s + init;
      ExtStaysEmpty(s, init);
    }
  }

  /** A path ending in '.' followed by characters other than '.' and '/' has exactly that extension. */
  lemma {:induction false} ExtOfDottedSuffix(s: string, t: string)
    requires NoDotOrSlash(t)
    ensures Ext(s + "." + t) == "." + t
    decreases |t|
  {
    if t == [] {
      assert s + "." + t == s + ".";
    } else {
      var init := t[..|t| - 1];
      assert (s + "." + t)[..|s + "." + t| - 1] == s + "." + init;
      ExtOfDottedSuffix(s, init);
    }
  }

  /** A name without '/' and without an extension has no '.' at all. */
  lemma {:induction false} NoExtMeansNoDot(name: string)
    requires NoSlash(name)
    requires Ext(name) == ""
    ensures NoDotOrSlash(name)
    decreases |name|
  {
    if name != [] {
      NoExtMeansNoDot(name[..|name| - 1]);
      assert forall i :: 0 <= i < |name| - 1 ==> name[..|name| - 1][i] == name[i];
    }
  }

  /** Where the final element of `path` starts: just after its last '/', or 0. */
  function FileStart(path: Path): (k: nat)
    ensures k <= |path|
    ensures k > 0 ==> path[k - 1] == '/'
    ensures NoSlash(path[k..])
    decreases |path|
  {
    if |path| == 0 then 0
    else if path[|path| - 1] == '/' then |path|
    else
      var k := FileStart(path[..|path| - 1]);
      assert path[k..] == path[..|path| - 1][k..] + [path[|path| - 1]];
      k
  }

  /** `filepath.Split`: the directory part, up to and including the last '/'. */
  function Dir(path: Path): (d: Path)
    ensures d == [] || d[|d| - 1] == '/'
  {
    path[..FileStart(path)]
  }

  /** `filepath.Split`: the final element, after the last '/'. */
  function File(path: Path): (f: string)
    ensures NoSlash(f)
    ensures Dir(path) + f == path
  {
    path[FileStart(path)..]
  }

  /** `path` without its trailing '/' characters. */
  function TrimTrailingSlashes(path: Path): (p: Path)
    ensures p == [] || p[|p| - 1] != '/'
    ensures |p| <= |path| && path[..|p|] == p
    decreases |path|
  {
    if |path| > 0 && path[|path| - 1] == '/' then TrimTrailingSlashes(path[..|path| - 1]) else path
  }

  /** `filepath.Base`: the last element after trailing separators are removed; "." for the empty
      path and "/" for a path of separators only. */
  function Base(path: Path): (b: string)
    ensures b != ""
  {
    if path == "" then "."
    else
      var p := TrimTrailingSlashes(path);
      if p == "" then "/" else p[FileStart(p)..]
  }

  /** The base name of a path whose final element is not empty is that element. */
  lemma BaseOfFile(path: Path)
    requires path != [] && path[|path| - 1] != '/'
    ensures Base(path) == File(path)
    ensures NoSlash(Base(path))
  {
  }

  /** `filepath.Join` of two elements: an empty element is skipped, a leading "." is dropped as
      `Clean` drops it, and otherwise exactly one '/' separates the two. */
  function Join(a: Path, b: Path): (r: Path)
    ensures a == [] ==> r == b
    ensures b == [] ==> r == a
    ensures a == "." && b != [] ==> r == b
    ensures a != [] && a != "." && b != [] && a[|a| - 1] == '/' ==> r == a + b
    ensures a != [] && a != "." && b != [] && a[|a| - 1] != '/' ==> r == a + "/" + b
  {
    if a == [] then b
    else if b == [] then a
    else if a == "." then b
    else if a[|a| - 1] == '/' then a + b
    else a + "/" + b
  }

  /** Joining keeps the first element in front, when it is neither empty nor ".", and the second
      element at the end. */
  lemma JoinKeepsEnds(a: Path, b: Path)
    ensures a != [] && a != "." ==> |a| <= |Join(a, b)| && Join(a, b)[..|a|] == a
    ensures b != [] ==> |b| <= |Join(a, b)| && Join(a, b)[|Join(a, b)| - |b|..] == b
  {
    var r := Join(a, b);
    if a != [] && a != "." && b != [] {
      if a[|a| - 1] == '/' {
        assert r == a + b;
      } else {
        assert r == a + ("/" + b);
      }
    }
  }
}
