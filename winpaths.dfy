/** The parts of Python's `ntpath` (`os.path` on Windows, where the program's
    configured directories live) that the engine uses: `basename`, `join` and
    `splitext`. */
module WinPaths {
  import opened Basics

  /** Both slash kinds separate components on Windows. */
  predicate IsSep(c: char)
  {
    c == '\\' || c == '/'
  }

  /** Length of the drive prefix `splitdrive` finds: `X:` when the second
      character is a colon. UNC prefixes are not modelled. */
  function DriveLength(p: Path): (n: nat)
    ensures n <= |p|
  {
    if |p| >= 2 && p[1] == ':' then 2 else 0
  }

  /** The trailing run of non-separator characters. */
  function LastComponent(p: Path): (r: Path)
    ensures |r| <= |p| && r == p[|p| - |r|..]
    ensures forall c :: c in r ==> !IsSep(c)
    ensures |r| == |p| || IsSep(p[|p| - |r| - 1])
  {
    if p == [] || IsSep(p[|p| - 1]) then []
    else LastComponent(p[..|p| - 1]) + [p[|p| - 1]]
  }

  /** `os.path.basename`: what follows the last separator (or the drive). */
  function Basename(p: Path): (r: Path)
    ensures forall c :: c in r ==> !IsSep(c)
    ensures |r| <= |p| - DriveLength(p) && r == p[|p| - |r|..]
    ensures |r| == |p| - DriveLength(p) || IsSep(p[|p| - |r| - 1])
  {
    LastComponent(p[DriveLength(p)..])
  }

  /** `os.path.join(dir, name)` for a `name` without drive or leading
      separator: a backslash is inserted unless `dir` is empty after its drive
      or already ends with a separator. */
  function Join(dir: Path, name: Path): Path
  {
    var rest := dir[DriveLength(dir)..];
    if rest != [] && !IsSep(rest[|rest| - 1]) then dir + "\\" + name else dir + name
  }

  /** Index of the last `.` in `s`, or -1. */
  function LastDot(s: string): (i: int)
    ensures -1 <= i < |s|
    ensures i >= 0 ==> s[i] == '.'
    ensures forall k :: i < k < |s| ==> s[k] != '.'
  {
    if s == [] then -1
    else if s[|s| - 1] == '.' then |s| - 1
    else LastDot(s[..|s| - 1])
  }

  /** `os.path.splitext(name)[0]` for a separator-free `name`: the part before
      the last dot, unless everything before that dot is dots (a name such as
      `.mp4` has no extension). */
  function Stem(name: Path): Path
  {
    var d := LastDot(name);
    if d > 0 && exists k :: 0 <= k < d && name[k] != '.' then name[..d] else name
  }

  /** Joining a file name under a directory that starts with a drive (as the
      configured quarantine directory does) and taking the base name gives the
      file name back: a file moved to `Join(dir, Basename(p))` keeps its name. */
  lemma BasenameOfJoin(dir: Path, p: Path)
    requires DriveLength(dir) == 2
    ensures Basename(Join(dir, Basename(p))) == Basename(p)
  {
    BasenameOfJoinedName(dir, Basename(p));
  }

  /** The base name of a separator-free `name` joined under a directory with a
      drive is `name`. */
  lemma BasenameOfJoinedName(dir: Path, name: Path)
    requires DriveLength(dir) == 2
    requires forall c :: c in name ==> !IsSep(c)
    ensures Basename(Join(dir, name)) == name
  {
    var rest := dir[2..];
    var glue := if rest != [] && !IsSep(rest[|rest| - 1]) then dir + "\\" else dir;
    var j := glue + name;
    assert Join(dir, name) == j;
    assert j[1] == dir[1] == ':';
    assert j[2..] == glue[2..] + name;
    LastComponentAfter(glue[2..], name);
  }

  /** A separator-free `name` after nothing or after a separator is the last
      component. */
  lemma LastComponentAfter(glue: Path, name: Path)
    requires glue == [] || IsSep(glue[|glue| - 1])
    requires forall c :: c in name ==> !IsSep(c)
    ensures LastComponent(glue + name) == name
  {
    var s := glue + name;
    assert s[|s| - |name|..] == name;
    LastComponentSuffix(s, name);
  }

  /** If `s` ends with a separator-free `name` that follows a separator (or is
      all of `s`), the last component of `s` is exactly `name`. */
  lemma {:induction false} LastComponentSuffix(s: Path, name: Path)
    requires |name| <= |s| && s[|s| - |name|..] == name
    requires forall c :: c in name ==> !IsSep(c)
    requires |name| == |s| || IsSep(s[|s| - |name| - 1])
    ensures LastComponent(s) == name
    decreases |name|
  {
    if name != [] {
      var s', n' := s[..|s| - 1], name[..|name| - 1];
      assert s'[|s'| - |n'|..] == n';
      assert name[|name| - 1] == s[|s| - 1];
      assert name == n' + [name[|name| - 1]];
      LastComponentSuffix(s', n');
    }
  }

  /** The last dot of `stem.ext`, for a dot-free `ext`, is the one before
      `ext`. */
  lemma {:induction false} LastDotBeforeExtension(stem: string, ext: string)
    requires '.' !in ext
    ensures LastDot(stem + "." + ext) == |stem|
  {
    var s := stem + "." + ext;
    if ext != [] {
      var e' := ext[..|ext| - 1];
      assert s[..|s| - 1] == stem + "." + e';
      assert s[|s| - 1] == ext[|ext| - 1];
      LastDotBeforeExtension(stem, e');
    }
  }

  /** `os.path.splitext("stem.ext")[0]` is `stem` when `ext` has no dot and
      `stem` is not all dots. */
  lemma StemOfExtension(stem: string, ext: string)
    requires '.' !in ext
    requires exists k :: 0 <= k < |stem| && stem[k] != '.'
    ensures Stem(stem + "." + ext) == stem
  {
    var name := stem + "." + ext;
    LastDotBeforeExtension(stem, ext);
    var k :| 0 <= k < |stem| && stem[k] != '.';
    assert name[k] == stem[k];
    assert name[..|stem|] == stem;
  }

  /** A name without separators or colons is its own base name. */
  lemma BasenameOfName(name: Path)
    requires forall c :: c in name ==> !IsSep(c) && c != ':'
    ensures Basename(name) == name
  {
    if |name| >= 2 {
      assert name[1] in name;
    }
    LastComponentSuffix(name, name);
  }

  /** An ASCII capital letter in lower case; any other character unchanged. */
  function LowerChar(c: char): char
  {
    if 'A' <= c <= 'Z' then (c as int + 32) as char else c
  }

  /** Windows file names compare without regard to case: the key under which
      the file system stores a path, its ASCII letters in lower case. */
  function FoldCase(p: Path): Path
  {
    seq(|p|, i requires 0 <= i < |p| => LowerChar(p[i]))
  }

  /** Two paths that name the same file. */
  predicate SameFile(a: Path, b: Path)
  {
    FoldCase(a) == FoldCase(b)
  }

  /** Folding a path folds its pieces. */
  lemma FoldCaseAppend(a: Path, b: Path)
    ensures FoldCase(a + b) == FoldCase(a) + FoldCase(b)
  {
    var l, r := FoldCase(a + b), FoldCase(a) + FoldCase(b);
    assert |l| == |r|;
    forall i | 0 <= i < |l|
      ensures l[i] == r[i]
    {
      if i < |a| {
        assert (a + b)[i] == a[i];
      } else {
        assert (a + b)[i] == b[i - |a|];
      }
    }
  }

  /** Paths that differ only in the case of letters name the same file, for
      instance `D:\a\Clip.jpg` and `D:\a\clip.jpg`. */
  lemma CaseVariantsSameFile()
    ensures SameFile("D:\\a\\Clip.jpg", "D:\\a\\clip.jpg")
    ensures "D:\\a\\Clip.jpg" != "D:\\a\\clip.jpg"
  {
    var a, b := "D:\\a\\Clip.jpg", "D:\\a\\clip.jpg";
    assert a[5] != b[5];
    assert FoldCase(a) == FoldCase(b) by {
      forall i | 0 <= i < |a|
        ensures LowerChar(a[i]) == LowerChar(b[i])
      {
      }
    }
  }
}
