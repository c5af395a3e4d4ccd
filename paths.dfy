/** The POSIX path functions the processor uses to name its output files:
    `os.path.basename`, `os.path.splitext` and `os.path.join`. */
module PosixPath {
  import opened PyStrings

  /** `s.rfind(c)`: the index of the last `c` in `s`, or -1. */
  function RFind(s: string, c: char): (r: int)
    ensures -1 <= r < |s|
    ensures r >= 0 ==> s[r] == c
    ensures forall j :: r < j < |s| ==> s[j] != c
  {
    if s == [] then -1
    else if s[|s| - 1] == c then |s| - 1
    else RFind(s[..|s| - 1], c)
  }

  /** `os.path.basename(p)`: what follows the last `/`. */
  function Basename(p: string): (r: string)
    ensures '/' !in r
    ensures |r| <= |p| && r == p[|p| - |r|..]
  {
    p[RFind(p, '/') + 1..]
  }

  predicate AllDots(s: string) {
    forall j :: 0 <= j < |s| ==> s[j] == '.'
  }

  /** `os.path.splitext(p)`: the extension runs from the last `.` of the last component, unless
      only dots precede that `.` in the component (a leading-dot name such as `.bashrc` has none). */
  function SplitExt(p: string): (r: (string, string))
    ensures r.0 + r.1 == p
  {
    var sepIndex := RFind(p, '/');
    var dotIndex := RFind(p, '.');
    if dotIndex > sepIndex && !AllDots(p[sepIndex + 1..dotIndex]) then
      (p[..dotIndex], p[dotIndex..])
    else
      (p, [])
  }

  /** The extension is empty, or one `.` followed by neither `/` nor `.`. */
  lemma SplitExtSpec(p: string)
    ensures var ext := SplitExt(p).1;
      ext == [] || (ext[0] == '.' && forall j :: 1 <= j < |ext| ==> ext[j] != '/' && ext[j] != '.')
  {
    var sepIndex := RFind(p, '/');
    var dotIndex := RFind(p, '.');
    if dotIndex > sepIndex && !AllDots(p[sepIndex + 1..dotIndex]) {
      assert SplitExt(p).1 == p[dotIndex..];
      ExtensionAfterLastDot(p, sepIndex, dotIndex, p[dotIndex..]);
    } else {
      assert SplitExt(p).1 == [];
    }
  }

  /** A `.` followed by neither `.` nor `/` starts the extension when some character of its
      component before it is not a dot: `splitext("a/b.c.txt") == ("a/b.c", ".txt")`. */
  lemma SplitExtAtDot(p: string, j: int, i: int)
    requires 0 <= j < i < |p| && p[i] == '.' && p[j] != '.'
    requires forall m :: j <= m < i ==> p[m] != '/'
    requires forall m :: i < m < |p| ==> p[m] != '.' && p[m] != '/'
    ensures SplitExt(p) == (p[..i], p[i..])
  {
    assert forall m :: j <= m < |p| ==> p[m] != '/';
    var sepIndex := RFind(p, '/');
    var dotIndex := RFind(p, '.');
    LastOccurrence(p, '.', i, dotIndex);
    NoneFrom(p, '/', j, sepIndex);
    var comp := p[sepIndex + 1..dotIndex];
    assert comp[j - sepIndex - 1] == p[j];
    assert !AllDots(comp);
  }

  /** A `c` after which no `c` appears is the last one. */
  lemma LastOccurrence(p: string, c: char, i: int, r: int)
    requires 0 <= i < |p| && p[i] == c && r == RFind(p, c)
    requires forall m :: i < m < |p| ==> p[m] != c
    ensures r == i
  {
  }

  /** The last `c` lies before `j` when none appears from `j` on. */
  lemma NoneFrom(p: string, c: char, j: int, r: int)
    requires 0 <= j <= |p| && r == RFind(p, c)
    requires forall m :: j <= m < |p| ==> p[m] != c
    ensures r < j
  {
  }

  /** The text from the last `.`, when that lies after the last `/`, holds no other `.` or `/`. */
  lemma ExtensionAfterLastDot(p: string, sepIndex: int, dotIndex: int, ext: string)
    requires sepIndex == RFind(p, '/') && dotIndex == RFind(p, '.')
    requires 0 <= sepIndex + 1 <= dotIndex && ext == p[dotIndex..]
    ensures ext != [] && ext[0] == '.'
    ensures forall j :: 1 <= j < |ext| ==> ext[j] != '/' && ext[j] != '.'
  {
    assert forall j :: 0 <= j < |ext| ==> ext[j] == p[dotIndex + j];
  }

  /** `os.path.join(a, b)` for two components: an absolute `b` wins, otherwise one `/` separates them. */
  function JoinPath(a: string, b: string): (r: string)
    ensures |b| <= |r| && r[|r| - |b|..] == b
    ensures !StartsWith(b, "/") ==> StartsWith(r, a)
  {
    if StartsWith(b, "/") then b
    else if a == [] || a[|a| - 1] == '/' then a + b
    else a + "/" + b
  }

  /** The last `/` of `pre + b` is the last character of `pre` when `b` has none. */
  lemma RFindAfterSeparator(pre: string, b: string)
    requires pre == [] || pre[|pre| - 1] == '/'
    requires '/' !in b
    ensures RFind(pre + b, '/') == |pre| - 1
    decreases |b|
  {
    if b != [] {
      var s := pre + b;
      assert s[|s| - 1] == b[|b| - 1];
      assert s[..|s| - 1] == pre + b[..|b| - 1];
      RFindAfterSeparator(pre, b[..|b| - 1]);
    } else {
      assert pre + b == pre;
    }
  }

  /** Joining a file name without `/` onto a directory gives a path whose base name is that file name. */
  lemma BasenameOfJoin(a: string, b: string)
    requires '/' !in b
    ensures Basename(JoinPath(a, b)) == b
  {
    NotAbsolute(b);
    var pre := if a == [] || a[|a| - 1] == '/' then a else a + "/";
    assert JoinPath(a, b) == pre + b;
    RFindAfterSeparator(pre, b);
    assert (pre + b)[|pre|..] == b;
  }

  /** A name without `/` is not absolute. */
  lemma NotAbsolute(b: string)
    requires '/' !in b
    ensures !StartsWith(b, "/")
  {
    if b != [] {
      assert b[0] in b;
      assert b[..1] != "/";
    }
  }
}
