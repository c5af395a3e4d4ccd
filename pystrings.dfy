/** The Python `str` operations the template processor relies on, over `seq<char>`. */
module PyStrings {

  /** Python's `str.isspace()` on one character. */
  predicate IsSpace(c: char) {
    || c == ' ' || c == '\t' || c == '\n' || c == '\U{B}' || c == '\U{C}' || c == '\r'
    || ('\U{1C}' <= c <= '\U{1F}') || c == '\U{85}' || c == '\U{A0}' || c == '\U{1680}'
    || ('\U{2000}' <= c <= '\U{200A}') || c == '\U{2028}' || c == '\U{2029}'
    || c == '\U{202F}' || c == '\U{205F}' || c == '\U{3000}'
  }

  /** The line boundaries recognised by Python's `str.splitlines()`; every one is whitespace. */
  predicate IsLineBreak(c: char)
    ensures IsLineBreak(c) ==> IsSpace(c)
  {
    || c == '\n' || c == '\r' || c == '\U{B}' || c == '\U{C}'
    || c == '\U{1C}' || c == '\U{1D}' || c == '\U{1E}'
    || c == '\U{85}' || c == '\U{2028}' || c == '\U{2029}'
  }

  predicate NoLineBreaks(s: string) {
    forall j :: 0 <= j < |s| ==> !IsLineBreak(s[j])
  }

  /** `" " * n`; a count below one gives the empty string. */
  function Spaces(n: int): (r: string)
    ensures |r| == if n < 0 then 0 else n
    ensures forall i :: 0 <= i < |r| ==> r[i] == ' '
    decreases n
  {
    if n <= 0 then "" else Spaces(n - 1) + " "
  }

  /** `s.lstrip()`: `s` without its leading whitespace. */
  function LStrip(s: string): (r: string)
    ensures |r| <= |s| && r == s[|s| - |r|..]
    ensures forall i :: 0 <= i < |s| - |r| ==> IsSpace(s[i])
    ensures r != [] ==> !IsSpace(r[0])
  {
    LStripDropsSpaces(s);
    DropLeadingSpaces(s)
  }

  /** The recursion behind `LStrip`: drop one whitespace character at a time. */
  function DropLeadingSpaces(s: string): (r: string)
    ensures |r| <= |s|
  {
    if s == [] || !IsSpace(s[0]) then s else DropLeadingSpaces(s[1..])
  }

  /** What `DropLeadingSpaces` removes is whitespace, and what it keeps is a suffix. */
  lemma {:induction false} LStripDropsSpaces(s: string)
    ensures var r := DropLeadingSpaces(s);
      r == s[|s| - |r|..] && (forall i :: 0 <= i < |s| - |r| ==> IsSpace(s[i]))
      && (r != [] ==> !IsSpace(r[0]))
  {
    if s != [] && IsSpace(s[0]) {
      var t := s[1..];
      LStripDropsSpaces(t);
      LStripStep(s, t, DropLeadingSpaces(t));
    }
  }

  /** Dropping one leading whitespace character keeps what `LStrip` promises. */
  lemma LStripStep(s: string, t: string, r: string)
    requires s != [] && IsSpace(s[0]) && t == s[1..]
    requires |r| <= |t| && r == t[|t| - |r|..]
    requires forall i :: 0 <= i < |t| - |r| ==> IsSpace(t[i])
    ensures r == s[|s| - |r|..]
    ensures forall i :: 0 <= i < |s| - |r| ==> IsSpace(s[i])
  {
    assert forall i :: 0 <= i < |t| - |r| ==> t[i] == s[i + 1];
  }

  /** `s.rstrip()`: `s` without its trailing whitespace. */
  function RStrip(s: string): (r: string)
    ensures |r| <= |s| && r == s[..|r|]
    ensures forall i :: |r| <= i < |s| ==> IsSpace(s[i])
    ensures r != [] ==> !IsSpace(r[|r| - 1])
  {
    if s != [] && IsSpace(s[|s| - 1]) then
      var r := RStrip(s[..|s| - 1]);
      RStripStep(s, s[..|s| - 1], r);
      r
    else s
  }

  /** Dropping one trailing whitespace character keeps what `RStrip` promises. */
  lemma RStripStep(s: string, t: string, r: string)
    requires s != [] && IsSpace(s[|s| - 1]) && t == s[..|s| - 1]
    requires |r| <= |t| && r == t[..|r|]
    requires forall i :: |r| <= i < |t| ==> IsSpace(t[i])
    ensures r == s[..|r|]
    ensures forall i :: |r| <= i < |s| ==> IsSpace(s[i])
  {
    assert forall i :: |r| <= i < |t| ==> t[i] == s[i];
  }

  /** Neither the first nor the last character is whitespace. */
  predicate Trimmed(r: string) {
    r == [] || (!IsSpace(r[0]) && !IsSpace(r[|r| - 1]))
  }

  /** `s.strip()`: the text between the leading and the trailing whitespace. */
  function Strip(s: string): (r: string)
    ensures Trimmed(r)
    ensures r == [] <==> forall i :: 0 <= i < |s| ==> IsSpace(s[i])
    ensures Occurs(s, r)
  {
    StripEnds(s, LStrip(s), RStrip(LStrip(s)));
    StripEmpty(s, LStrip(s), RStrip(LStrip(s)));
    StripInside(s, LStrip(s), RStrip(LStrip(s)));
    RStrip(LStrip(s))
  }

  lemma StripEnds(s: string, l: string, r: string)
    requires l == LStrip(s) && r == RStrip(l)
    ensures Trimmed(r)
  {
    if r != [] {
      assert r[0] == l[0];
    }
  }

  lemma StripEmpty(s: string, l: string, r: string)
    requires l == LStrip(s) && r == RStrip(l)
    ensures r == [] <==> forall i :: 0 <= i < |s| ==> IsSpace(s[i])
  {
    var n := |s| - |l|;
    if r == [] {
      forall i | 0 <= i < |s|
        ensures IsSpace(s[i])
      {
        if i >= n {
          assert s[i] == l[i - n];
        }
      }
    } else {
      assert r[0] == l[0] == s[n];
    }
  }

  /** A prefix of a suffix of `s` occurs in `s`. */
  lemma StripInside(s: string, l: string, r: string)
    requires |l| <= |s| && l == s[|s| - |l|..]
    requires |r| <= |l| && r == l[..|r|]
    ensures Occurs(s, r)
  {
    SuffixOccurs(s, l);
    PrefixOccurs(l, r);
    OccursWithin(s, l, r, |s| - |l|, 0);
    assert OccursAt(s, r, |s| - |l| + 0);
  }

  lemma SuffixOccurs(s: string, l: string)
    requires |l| <= |s| && l == s[|s| - |l|..]
    ensures OccursAt(s, l, |s| - |l|)
  {
    var n := |s| - |l|;
    assert forall k :: 0 <= k < |l| ==> s[n..][k] == s[n + k];
  }

  lemma PrefixOccurs(l: string, r: string)
    requires |r| <= |l| && r == l[..|r|]
    ensures OccursAt(l, r, 0)
  {
    assert forall k :: 0 <= k < |r| ==> l[..|r|][k] == l[0 + k];
  }

  /** An occurrence inside an occurrence is an occurrence in the whole text. */
  lemma OccursWithin(s: string, l: string, r: string, n: int, m: int)
    requires OccursAt(s, l, n) && OccursAt(l, r, m)
    ensures OccursAt(s, r, n + m)
  {
    forall k | 0 <= k < |r|
      ensures s[n + m + k] == r[k]
    {
      assert l[m + k] == r[k];
      assert s[n + (m + k)] == l[m + k];
    }
  }

  /** `s.startswith(p)`. */
  predicate StartsWith(s: string, p: string) {
    |p| <= |s| && s[..|p|] == p
  }

  /** `p` occurs in `s` starting at index `i`. */
  ghost predicate OccursAt(s: string, p: string, i: int) {
    0 <= i && i + |p| <= |s| && forall k :: 0 <= k < |p| ==> s[i + k] == p[k]
  }

  ghost predicate Occurs(s: string, p: string) {
    exists i :: OccursAt(s, p, i)
  }

  /** `s.find(p)`: the index of the leftmost occurrence of `p` in `s`, or -1 (see `FindSpec`). */
  function Find(s: string, p: string): (r: int)
    ensures -1 <= r && (r >= 0 ==> r + |p| <= |s|)
    decreases |s|
  {
    if StartsWith(s, p) then 0
    else if s == [] then -1
    else
      var r := Find(s[1..], p);
      if r < 0 then -1 else r + 1
  }

  /** `Find` gives the leftmost occurrence, and -1 exactly when there is none. */
  lemma {:induction false} FindSpec(s: string, p: string)
    ensures Find(s, p) >= 0 ==> OccursAt(s, p, Find(s, p))
    ensures forall j :: 0 <= j < Find(s, p) ==> !OccursAt(s, p, j)
    ensures Find(s, p) == -1 ==> !Occurs(s, p)
    decreases |s|
  {
    OccursAtStart(s, p);
    if !StartsWith(s, p) && s != [] {
      var t := s[1..];
      FindSpec(t, p);
      FindStep(s, p, t);
      forall j | 1 <= j
        ensures OccursAt(s, p, j) <==> OccursAt(t, p, j - 1)
      {
        OccursShift(s, p, t, j);
      }
    }
  }

  lemma OccursAtStart(s: string, p: string)
    ensures OccursAt(s, p, 0) <==> StartsWith(s, p)
  {
    if |p| <= |s| {
      assert forall k :: 0 <= k < |p| ==> s[..|p|][k] == s[k];
    }
  }

  /** Past a non-match at the front, `Find` is one more than on the tail. */
  lemma FindStep(s: string, p: string, t: string)
    requires !StartsWith(s, p) && s != [] && t == s[1..]
    ensures Find(s, p) == if Find(t, p) < 0 then -1 else Find(t, p) + 1
  {
  }

  /** An occurrence past the front is an occurrence in the tail, one index earlier. */
  lemma OccursShift(s: string, p: string, t: string, j: int)
    requires s != [] && t == s[1..] && 1 <= j
    ensures OccursAt(s, p, j) <==> OccursAt(t, p, j - 1)
  {
    if j + |p| <= |s| {
      assert forall m :: 1 <= m < |s| ==> t[m - 1] == s[m];
    }
  }

  /** `p in s`, which is also what `re.search(p, s)` decides for a pattern without metacharacters. */
  predicate Contains(s: string, p: string) {
    Find(s, p) >= 0
  }

  /** `s.replace(p, r)` for a non-empty `p`: every occurrence, scanned left to right without overlap. */
  function ReplaceAll(s: string, p: string, r: string): (t: string)
    requires p != []
    ensures !Occurs(s, p) ==> t == s
    ensures Occurs(s, p) ==> Occurs(t, r)
  {
    ReplaceScanSpec(s, p, r);
    ReplaceScan(s, p, r)
  }

  /** The scan behind `ReplaceAll`: replace the leftmost occurrence, then go on after it. */
  function ReplaceScan(s: string, p: string, r: string): string
    requires p != []
    decreases |s|, 1
  {
    ReplaceAt(s, p, r, Find(s, p))
  }

  /** One step of the scan, given the index `i` of the leftmost `p` (or -1). */
  function ReplaceAt(s: string, p: string, r: string, i: int): string
    requires p != [] && i == Find(s, p)
    decreases |s|, 0
  {
    if i < 0 then s else s[..i] + r + ReplaceScan(s[i + |p|..], p, r)
  }

  /** A text without `p` is left alone; otherwise `r` lands where the leftmost `p` was. */
  lemma ReplaceScanSpec(s: string, p: string, r: string)
    requires p != []
    ensures !Occurs(s, p) ==> ReplaceScan(s, p, r) == s
    ensures Occurs(s, p) ==> Occurs(ReplaceScan(s, p, r), r)
  {
    var i := Find(s, p);
    FindSpec(s, p);
    ReplaceScanAt(s, p, r, i);
    if i >= 0 {
      var rest := ReplaceScan(s[i + |p|..], p, r);
      ReplaceAtSplit(s, p, r, i);
      SpliceOccurs(s[..i], r, rest);
      OccursFrom(ReplaceScan(s, p, r), r, |s[..i]|);
    }
  }

  /** The scan replaces the leftmost occurrence and goes on after it. */
  lemma ReplaceScanFirst(s: string, p: string, r: string, i: int)
    requires p != [] && i == Find(s, p) && i >= 0
    ensures ReplaceScan(s, p, r) == s[..i] + r + ReplaceScan(s[i + |p|..], p, r)
  {
    ReplaceScanAt(s, p, r, i);
    ReplaceAtSplit(s, p, r, i);
  }

  lemma ReplaceScanAt(s: string, p: string, r: string, i: int)
    requires p != [] && i == Find(s, p)
    ensures ReplaceScan(s, p, r) == ReplaceAt(s, p, r, i)
  {
  }

  lemma ReplaceAtSplit(s: string, p: string, r: string, i: int)
    requires p != [] && i == Find(s, p) && i >= 0
    ensures ReplaceAt(s, p, r, i) == s[..i] + r + ReplaceScan(s[i + |p|..], p, r)
  {
  }

  /** An occurrence at one index is an occurrence. */
  lemma OccursFrom(t: string, r: string, k: int)
    requires OccursAt(t, r, k)
    ensures Occurs(t, r)
  {
  }

  /** `r` occurs in `a + r + b` right after `a`. */
  lemma SpliceOccurs(a: string, r: string, b: string)
    ensures OccursAt(a + r + b, r, |a|)
  {
    assert forall k :: 0 <= k < |r| ==> (a + r + b)[|a| + k] == r[k];
  }

  /** The index of the first `c` in `s`, or `|s|`. */
  function IndexOfChar(s: string, c: char): (i: nat)
    ensures i <= |s| && (i < |s| ==> s[i] == c)
    ensures forall j :: 0 <= j < i ==> s[j] != c
  {
    if s == [] || s[0] == c then 0 else 1 + IndexOfChar(s[1..], c)
  }

  /** `s.split(c)` for a one-character separator; it always yields at least one part. */
  function Split(s: string, c: char): (parts: seq<string>)
    ensures |parts| >= 1
    ensures forall k :: 0 <= k < |parts| ==> c !in parts[k]
    decreases |s|
  {
    var i := IndexOfChar(s, c);
    if i == |s| then [s] else [s[..i]] + Split(s[i + 1..], c)
  }

  lemma AppendAssoc(a: string, b: string, c: string)
    ensures (a + b) + c == a + (b + c)
  {
  }

  /** `sep.join(parts)`. */
  function JoinWith(parts: seq<string>, sep: string): string {
    if |parts| == 0 then ""
    else if |parts| == 1 then parts[0]
    else parts[0] + sep + JoinWith(parts[1..], sep)
  }

  /** `"".join(parts)`. */
  function Concat(parts: seq<string>): string {
    if parts == [] then "" else parts[0] + Concat(parts[1..])
  }

  /** The index of the first line boundary in `s`, or `|s|`. */
  function LineEnd(s: string): (i: nat)
    ensures i <= |s|
  {
    if |s| == 0 || IsLineBreak(s[0]) then 0 else 1 + LineEnd(s[1..])
  }

  /** `LineEnd` stops at the first boundary. */
  lemma {:induction false} LineEndSpec(s: string)
    ensures LineEnd(s) < |s| ==> IsLineBreak(s[LineEnd(s)])
    ensures forall j :: 0 <= j < LineEnd(s) ==> !IsLineBreak(s[j])
  {
    if |s| > 0 && !IsLineBreak(s[0]) {
      LineEndSpec(s[1..]);
      assert forall j :: 1 <= j < |s| ==> s[1..][j - 1] == s[j];
    }
  }

  /** The width of the line boundary at `i`: "\r\n" counts as one boundary of two characters. */
  function BreakWidth(s: string, i: nat): (w: nat)
    requires i < |s|
    ensures 1 <= w <= 2 && i + w <= |s|
  {
    if s[i] == '\r' && i + 1 < |s| && s[i + 1] == '\n' then 2 else 1
  }

  /** `s.splitlines()`: a final boundary does not start an empty line. */
  function SplitLines(s: string): (lines: seq<string>)
    ensures |lines| == 0 <==> |s| == 0
    decreases |s|
  {
    if |s| == 0 then []
    else
      var i := LineEnd(s);
      if i == |s| then [s]
      else [s[..i]] + SplitLines(s[i + BreakWidth(s, i)..])
  }

  function DigitChar(d: int): (c: char)
    requires 0 <= d < 10
    ensures '0' <= c <= '9'
  {
    ('0' as int + d) as char
  }

  /** The decimal digits of `n`, as `str(n)` writes them. */
  function NatToDecimal(n: nat): (r: string)
    ensures |r| >= 1 && forall i :: 0 <= i < |r| ==> '0' <= r[i] <= '9'
    decreases n
  {
    if n < 10 then [DigitChar(n)] else NatToDecimal(n / 10) + [DigitChar(n % 10)]
  }

  /** `str(i)` for an integer: a minus sign exactly when it is negative. */
  function IntToDecimal(i: int): (r: string)
    ensures |r| >= 1 && (r[0] == '-' <==> i < 0)
    ensures forall k :: 0 <= k < |r| ==> r[k] == '-' || '0' <= r[k] <= '9'
  {
    if i < 0 then "-" + NatToDecimal(-i) else NatToDecimal(i)
  }
}
