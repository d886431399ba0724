/** Where an imported file goes (cmd/import.go): `generateNewPath` builds
    `dest/type/YYYY/MM/name`, and `generateUniqueFilename` finds the first free `name_n.ext` when
    that path is taken. */
module Planner {
  import opened Text
  import opened Times
  import opened Paths
  import opened Store

  /** `generateNewPath`: the destination, the type folder, the year and the month folders, then the
      source's base name. The result starts with the destination (unless that is "" or ".", which
      `Join` drops) and ends with the base name. */
  function GenerateNewPath(src: Path, t: Time, destDir: Path, fileType: string): (r: Path)
    ensures destDir != "" && destDir != "." ==> |destDir| <= |r| && r[..|destDir|] == destDir
    ensures |Base(src)| <= |r| && r[|r| - |Base(src)|..] == Base(src)
  {
    var typed := Join(destDir, fileType);
    var yearly := Join(typed, FormatYear(t));
    var monthly := Join(yearly, FormatMonth(t));
    var r := Join(monthly, Base(src));
    KeepsDestination(destDir, fileType, FormatYear(t), FormatMonth(t), Base(src));
    JoinKeepsEnds(monthly, Base(src));
    r
  }

  /** The destination stays in front through the four joins. */
  lemma KeepsDestination(destDir: Path, fileType: string, year: string, month: string, name: string)
    ensures var r := Join(Join(Join(Join(destDir, fileType), year), month), name);
      destDir != "" && destDir != "." ==> |destDir| <= |r| && r[..|destDir|] == destDir
  {
    if destDir != "" && destDir != "." {
      var typed := Join(destDir, fileType);
      var yearly := Join(typed, year);
      var monthly := Join(yearly, month);
      JoinKeepsPrefix(destDir, destDir, fileType);
      JoinKeepsPrefix(destDir, typed, year);
      JoinKeepsPrefix(destDir, yearly, month);
      JoinKeepsPrefix(destDir, monthly, name);
    }
  }

  /** A prefix other than "" and "." of the first element stays a prefix of the join. */
  lemma JoinKeepsPrefix(p: Path, a: Path, b: Path)
    requires p != "" && p != "." && |p| <= |a| && a[..|p|] == p
    ensures |p| <= |Join(a, b)| && Join(a, b)[..|p|] == p
  {
    JoinKeepsEnds(a, b);
    assert Join(a, b)[..|p|] == Join(a, b)[..|a|][..|p|];
  }

  /** Zero-padded decimal digits contain no '/'. */
  lemma PaddedDigitsNoSlash(n: nat, width: nat)
    ensures ZeroPad(NatToString(n), width) != ""
    ensures NoSlash(ZeroPad(NatToString(n), width))
  {
    var s := NatToString(n);
    var r := ZeroPad(s, width);
    forall i | 0 <= i < |r| ensures r[i] != '/' {
      if i >= |r| - |s| {
        assert r[i] == r[|r| - |s|..][i - (|r| - |s|)];
      }
    }
  }

  /** The year and month folders are non-empty single path elements. */
  lemma DateFoldersNoSlash(t: Time)
    ensures FormatYear(t) != "" && NoSlash(FormatYear(t))
    ensures FormatMonth(t) != "" && NoSlash(FormatMonth(t))
  {
    PaddedDigitsNoSlash(t.month, 2);
    YearFolderNoSlash(t.year);
  }

  lemma YearFolderNoSlash(year: int)
    ensures var y := FormatYear(Time(0, year, 1)); y != "" && NoSlash(y)
  {
    if year < 0 {
      var digits := ZeroPad(NatToString(-year), 4);
      PaddedDigitsNoSlash(-year, 4);
      var minus := "-";
      assert NoSlash(minus);
      NoSlashConcat(minus, digits);
    } else {
      PaddedDigitsNoSlash(year, 4);
    }
  }

  /** Joining a folder name adds one '/' and leaves no trailing '/'. */
  lemma JoinFolder(a: Path, b: string)
    requires a != "" && a != "." && a[|a| - 1] != '/'
    requires b != "" && NoSlash(b)
    ensures Join(a, b) == a + "/" + b
    ensures Join(a, b)[|Join(a, b)| - 1] != '/'
  {
    assert (a + "/" + b)[|a + "/" + b| - 1] == b[|b| - 1];
  }

  /** The planned path is the destination, the type folder, the four-digit year, the two-digit
      month and the source's base name, separated by single '/'. */
  lemma NewPathLayout(src: Path, t: Time, destDir: Path, fileType: string)
    requires destDir != "" && destDir != "." && destDir[|destDir| - 1] != '/'
    requires fileType != "" && NoSlash(fileType)
    ensures GenerateNewPath(src, t, destDir, fileType) ==
      destDir + "/" + fileType + "/" + FormatYear(t) + "/" + FormatMonth(t) + "/" + Base(src)
  {
    DateFoldersNoSlash(t);
    var year, month := FormatYear(t), FormatMonth(t);
    JoinFolder(destDir, fileType);
    var a := destDir + "/" + fileType;
    JoinFolder(a, year);
    var b := a + "/" + year;
    JoinFolder(b, month);
    var c := b + "/" + month;
    assert Join(c, Base(src)) == c + "/" + Base(src);
  }

  /** The planned path keeps the source's file name and hence its extension, so the copy is
      classified like the original. */
  lemma {:induction false} NewPathKeepsName(src: Path, t: Time, destDir: Path, fileType: string)
    requires destDir != "" && destDir != "." && destDir[|destDir| - 1] != '/'
    requires fileType != "" && NoSlash(fileType)
    requires src != "" && src[|src| - 1] != '/'
    ensures File(GenerateNewPath(src, t, destDir, fileType)) == File(src)
    ensures Ext(GenerateNewPath(src, t, destDir, fileType)) == Ext(src)
  {
    NewPathLayout(src, t, destDir, fileType);
    BaseOfFile(src);
    var dir := destDir + "/" + fileType + "/" + FormatYear(t) + "/" + FormatMonth(t) + "/";
    var p := GenerateNewPath(src, t, destDir, fileType);
    assert p == dir + File(src);
    FileStartAfterDir(dir, File(src));
    ExtAfterDir(dir, File(src));
    ExtAfterDir(Dir(src), File(src));
  }

  /** The final element starts right after a directory part. */
  lemma {:induction false} FileStartAfterDir(dir: Path, name: string)
    requires dir == [] || dir[|dir| - 1] == '/'
    requires NoSlash(name)
    ensures FileStart(dir + name) == |dir|
    decreases |name|
  {
    if name == [] {
      assert dir + name == dir;
    } else {
      var whole := dir + name;
      var init := name[..|name| - 1];
      assert whole[..|whole| - 1] == dir + init;
      assert whole[|whole| - 1] == name[|name| - 1];
      FileStartAfterDir(dir, init);
    }
  }

  /** The final element without its extension. */
  function Stem(path: Path): (s: string)
    ensures s + Ext(File(path)) == File(path)
    ensures NoSlash(s)
  {
    TrimSuffix(File(path), Ext(File(path)))
  }

  /** The `n`-th alternative name `generateUniqueFilename` tries: `dir/name_n.ext`. */
  function Candidate(path: Path, n: nat): Path {
    Join(Dir(path), Stem(path) + "_" + NatToString(n) + Ext(File(path)))
  }

  lemma DigitsNoSlash(n: nat)
    ensures NoSlash(NatToString(n))
  {
    var digits := NatToString(n);
    forall i | 0 <= i < |digits| ensures digits[i] != '/' {
      assert IsDigit(digits[i]);
    }
  }

  lemma ExtNoSlash(path: Path)
    ensures NoSlash(Ext(File(path)))
  {
    DottedNoSlash(Ext(File(path)));
  }

  /** A '.' followed by characters other than '.' and '/' has no '/'. */
  lemma DottedNoSlash(e: string)
    requires e == "" || (e[0] == '.' && NoDotOrSlash(e[1..]))
    ensures NoSlash(e)
  {
    forall i | 1 <= i < |e| ensures e[i] != '/' {
      assert e[i] == e[1..][i - 1];
    }
  }

  /** The new final element has no '/'. */
  lemma CandidateElementNoSlash(path: Path, n: nat)
    ensures NoSlash(Stem(path) + "_" + NatToString(n) + Ext(File(path)))
  {
    DigitsNoSlash(n);
    ExtNoSlash(path);
    var st := Stem(path);
    assert NoSlash("_");
    NoSlashConcat(st, "_");
    NoSlashConcat(st + "_", NatToString(n));
    NoSlashConcat(st + "_" + NatToString(n), Ext(File(path)));
  }

  /** The alternative name is the directory followed by the new final element. */
  lemma CandidateShape(path: Path, n: nat)
    ensures Candidate(path, n) == Dir(path) + (Stem(path) + "_" + NatToString(n) + Ext(File(path)))
    ensures NoSlash(Stem(path) + "_" + NatToString(n) + Ext(File(path)))
  {
    CandidateElementNoSlash(path, n);
    var x := Stem(path) + "_" + NatToString(n) + Ext(File(path));
    assert x != [];
    assert Candidate(path, n) == Join(Dir(path), x);
  }

  /** The alternatives are new names: longer than the original path. */
  lemma CandidateIsNotPath(path: Path, n: nat)
    ensures |Candidate(path, n)| > |path|
  {
    CandidateShape(path, n);
    assert |File(path)| == |Stem(path)| + |Ext(File(path))|;
  }

  lemma ElementCancel(d: string, stem: string, e: string, da: string, db: string)
    requires d + (stem + "_" + da + e) == d + (stem + "_" + db + e)
    ensures da == db
  {
    assert d + (stem + "_" + da + e) == (d + stem + "_") + da + e;
    assert d + (stem + "_" + db + e) == (d + stem + "_") + db + e;
    AffixCancel(d + stem + "_", da, db, e);
  }

  /** Different counters give different names. */
  lemma CandidateInjective(path: Path, a: nat, b: nat)
    requires Candidate(path, a) == Candidate(path, b)
    ensures a == b
  {
    CandidateShape(path, a);
    CandidateShape(path, b);
    ElementCancel(Dir(path), Stem(path), Ext(File(path)), NatToString(a), NatToString(b));
    NatToStringInjective(a, b);
  }

  lemma UnderscoreDigits(digits: string)
    requires AllDigits(digits)
    ensures NoDotOrSlash("_" + digits)
  {
    var tail := "_" + digits;
    forall i | 0 <= i < |tail| ensures tail[i] != '.' && tail[i] != '/' {
      if i > 0 {
        assert tail[i] == digits[i - 1];
      }
    }
  }

  /** The extension of `stem` + `tail` + `e` is `e`, when only `e` can hold a '.'. */
  lemma ExtOfRenamed(stem: string, tail: string, e: string)
    requires NoDotOrSlash(tail)
    requires e == "" ==> NoDotOrSlash(stem)
    requires e != "" ==> e[0] == '.' && NoDotOrSlash(e[1..])
    ensures Ext(stem + tail + e) == e
  {
    if e == "" {
      assert stem + tail + e == stem + tail;
      ExtStaysEmpty("", stem);
      assert "" + stem == stem;
      ExtStaysEmpty(stem, tail);
    } else {
      var t := e[1..];
      assert stem + tail + e == (stem + tail) + "." + t;
      ExtOfDottedSuffix(stem + tail, t);
    }
  }

  lemma ElementNoSlash(stem: string, tail: string, e: string)
    requires NoSlash(stem) && NoDotOrSlash(tail)
    requires e != "" ==> e[0] == '.' && NoDotOrSlash(e[1..])
    ensures NoSlash(stem + tail + e)
  {
    NoSlashConcat(stem, tail);
    if e != "" {
      assert forall i :: 1 <= i < |e| ==> e[i] == e[1..][i - 1];
    }
    NoSlashConcat(stem + tail, e);
  }

  /** A renamed element `stem_digits` followed by the extension `e` after a directory part: the
      directory part and the extension are kept. */
  lemma RenamedElement(d: string, stem: string, digits: string, e: string)
    requires d == [] || d[|d| - 1] == '/'
    requires NoSlash(stem) && AllDigits(digits)
    requires e == "" ==> NoDotOrSlash(stem)
    requires e != "" ==> e[0] == '.' && NoDotOrSlash(e[1..])
    ensures FileStart(d + (stem + "_" + digits + e)) == |d|
    ensures Ext(d + (stem + "_" + digits + e)) == e
  {
    var tail := "_" + digits;
    UnderscoreDigits(digits);
    var x := stem + tail + e;
    assert stem + "_" + digits + e == x;
    ElementNoSlash(stem, tail, e);
    FileStartAfterDir(d, x);
    ExtAfterDir(d, x);
    ExtOfRenamed(stem, tail, e);
  }

  /** The alternatives stay in the same directory and keep the extension. */
  lemma CandidateKeepsDirAndExt(path: Path, n: nat)
    ensures Dir(Candidate(path, n)) == Dir(path)
    ensures Ext(Candidate(path, n)) == Ext(path)
  {
    CandidateShape(path, n);
    var d, stem, e := Dir(path), Stem(path), Ext(File(path));
    if e == "" {
      NoExtMeansNoDot(File(path));
    }
    RenamedElement(d, stem, NatToString(n), e);
    ExtAfterDir(d, File(path));
  }

  /** `r` is what `generateUniqueFilename` must return when the paths in `taken` exist: `path`
      itself if it is free, otherwise the alternative with the least counter that is free. */
  ghost predicate LeastFree(taken: set<Path>, path: Path, r: Path) {
    r !in taken &&
    (path !in taken ==> r == path) &&
    (path in taken ==>
      exists n: nat :: 1 <= n && r == Candidate(path, n) && forall k: nat :: 1 <= k < n ==> Candidate(path, k) in taken)
  }

  /** There is only one least free name. */
  lemma LeastFreeUnique(taken: set<Path>, path: Path, r1: Path, r2: Path)
    requires LeastFree(taken, path, r1) && LeastFree(taken, path, r2)
    ensures r1 == r2
  {
    if path in taken {
      var n1: nat :| 1 <= n1 && r1 == Candidate(path, n1) && forall k: nat :: 1 <= k < n1 ==> Candidate(path, k) in taken;
      var n2: nat :| 1 <= n2 && r2 == Candidate(path, n2) && forall k: nat :: 1 <= k < n2 ==> Candidate(path, k) in taken;
      assert !(n1 < n2) && !(n2 < n1);
    }
  }

  /** The `counter`-th name tried: `path` itself first, then the alternatives. */
  function Tried(path: Path, counter: nat): Path
    requires counter >= 1
  {
    if counter == 1 then path else Candidate(path, counter - 1)
  }

  /** Every name tried is new. */
  lemma TriedDistinct(path: Path, a: nat, b: nat)
    requires 1 <= a < b
    ensures Tried(path, a) != Tried(path, b)
  {
    assert Tried(path, b) == Candidate(path, b - 1);
    if a == 1 {
      assert Tried(path, a) == path;
      CandidateIsNotPath(path, b - 1);
    } else {
      assert Tried(path, a) == Candidate(path, a - 1);
      if Candidate(path, a - 1) == Candidate(path, b - 1) {
        CandidateInjective(path, a - 1, b - 1);
      }
    }
  }

  /** Marking the current name as seen leaves every later name unseen. */
  lemma TriedStep(path: Path, counter: nat, seen: set<Path>)
    requires counter >= 1
    requires forall k: nat :: counter < k ==> Tried(path, k) !in seen
    ensures forall k: nat :: counter + 1 < k ==> Tried(path, k) !in seen + {Tried(path, counter)}
    ensures Tried(path, counter + 1) !in seen + {Tried(path, counter)}
  {
    forall k: nat | counter < k
      ensures Tried(path, k) != Tried(path, counter)
    {
      TriedDistinct(path, counter, k);
    }
  }

  /** Once the current name is found taken, every name up to it is. */
  lemma TakenStep(taken: set<Path>, path: Path, counter: nat)
    requires counter >= 1 && Tried(path, counter) in taken
    requires forall k: nat :: 1 <= k < counter ==> Tried(path, k) in taken
    ensures forall k: nat :: 1 <= k < counter + 1 ==> Tried(path, k) in taken
  {
  }

  /** Marking one more taken name as seen leaves fewer unseen ones. */
  lemma SeenShrinks(taken: set<Path>, seen: set<Path>, r: Path)
    requires r in taken && r !in seen
    ensures |taken - (seen + {r})| < |taken - seen|
  {
    assert taken - seen == (taken - (seen + {r})) + {r};
  }

  /** The first free alternative after a taken path is the least free name. */
  lemma LeastFreeAt(taken: set<Path>, path: Path, n: nat)
    requires 1 <= n && path in taken && Candidate(path, n) !in taken
    requires forall k: nat :: 1 <= k < n ==> Candidate(path, k) in taken
    ensures LeastFree(taken, path, Candidate(path, n))
  {
  }

  /** Stopping at the first free name tried is `LeastFree`, and keeps the directory and
      extension. */
  lemma TriedIsLeastFree(taken: set<Path>, path: Path, counter: nat)
    requires counter >= 1
    requires Tried(path, counter) !in taken
    requires forall k: nat :: 1 <= k < counter ==> Tried(path, k) in taken
    ensures LeastFree(taken, path, Tried(path, counter))
    ensures Dir(Tried(path, counter)) == Dir(path) && Ext(Tried(path, counter)) == Ext(path)
  {
    if counter > 1 {
      var n: nat := counter - 1;
      assert path in taken by {
        assert Tried(path, 1) in taken;
      }
      forall k: nat | 1 <= k < n
        ensures Candidate(path, k) in taken
      {
        assert Tried(path, k + 1) in taken;
      }
      LeastFreeAt(taken, path, n);
      CandidateKeepsDirAndExt(path, n);
    }
  }

  /** `generateUniqueFilename`: tries `path`, then `name_1.ext`, `name_2.ext`, ... in the same
      directory, and returns the first that does not exist. Only finitely many paths exist, so
      the search ends. */
  method GenerateUniqueFilename(fs: FileSystem, path: Path) returns (r: Path)
    ensures LeastFree(fs.files.Keys, path, r)
    ensures Dir(r) == Dir(path) && Ext(r) == Ext(path)
  {
    var counter: nat := 1;
    r := path;
    ghost var seen: set<Path> := {};
    while r in fs.files
      invariant counter >= 1
      invariant r == Tried(path, counter)
      invariant forall k: nat :: 1 <= k < counter ==> Tried(path, k) in fs.files
      invariant seen <= fs.files.Keys && r !in seen
      invariant forall k: nat :: counter < k ==> Tried(path, k) !in seen
      decreases |fs.files.Keys - seen|
    {
      TriedStep(path, counter, seen);
      TakenStep(fs.files.Keys, path, counter);
      SeenShrinks(fs.files.Keys, seen, r);
      seen := seen + {r};
      r := Candidate(path, counter);
      counter := counter + 1;
    }
    TriedIsLeastFree(fs.files.Keys, path, counter);
  }
}
