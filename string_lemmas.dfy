/** Properties of the Python string operations: inverses, and what survives stripping and splitting. */
module StringLemmas {
  import opened PyStrings

  /** `Contains` is the substring relation. */
  lemma ContainsIsOccurs(s: string, p: string)
    ensures Contains(s, p) <==> Occurs(s, p)
  {
    FindSpec(s, p);
  }

  /** Replacing a pattern that does not occur leaves the text as it was. */
  lemma ReplaceAllAbsent(s: string, p: string, r: string)
    requires p != [] && !Contains(s, p)
    ensures ReplaceAll(s, p, r) == s
  {
    FindSpec(s, p);
  }

  /** After `s.replace(p, r)` no `p` is left, provided `r` holds neither the first nor the last
      character of `p` and does not occur between them: then no occurrence can start inside `r`,
      end inside it, or enclose it. */
  lemma {:induction false} ReplaceAllRemoves(s: string, p: string, r: string)
    requires |p| >= 2 && p[0] !in r && p[|p| - 1] !in r
    requires !Occurs(p[1..|p| - 1], r)
    ensures !Occurs(ReplaceAll(s, p, r), p)
    decreases |s|
  {
    var i := Find(s, p);
    FindSpec(s, p);
    if i >= 0 {
      var rest := s[i + |p|..];
      ReplaceAllRemoves(rest, p, r);
      ReplaceAllFirst(s, p, r, i);
      NoOccurrenceBeforeFirst(s, p, i);
      NoOccurrenceInSplices(s[..i], r, ReplaceAll(rest, p, r), p);
    }
  }

  /** `replace` puts `r` in place of the leftmost occurrence and goes on after it. */
  lemma ReplaceAllFirst(s: string, p: string, r: string, i: int)
    requires p != [] && i == Find(s, p) && i >= 0
    ensures ReplaceAll(s, p, r) == s[..i] + r + ReplaceAll(s[i + |p|..], p, r)
  {
    ReplaceAllIsScan(s, p, r);
    ReplaceAllIsScan(s[i + |p|..], p, r);
    ReplaceScanFirst(s, p, r, i);
  }

  lemma ReplaceAllIsScan(s: string, p: string, r: string)
    requires p != []
    ensures ReplaceAll(s, p, r) == ReplaceScan(s, p, r)
  {
  }

  /** No `p` anywhere in a splice of `r` between texts free of `p`. */
  lemma NoOccurrenceInSplices(a: string, r: string, b: string, p: string)
    requires |p| >= 2 && p[0] !in r && p[|p| - 1] !in r
    requires !Occurs(p[1..|p| - 1], r)
    requires !Occurs(a, p) && !Occurs(b, p)
    ensures !Occurs(a + r + b, p)
  {
    forall q
      ensures !OccursAt(a + r + b, p, q)
    {
      NoOccurrenceInSplice(a, r, b, p, q);
    }
  }

  /** Nothing before the leftmost occurrence of `p` in `s` holds a whole `p`. */
  lemma NoOccurrenceBeforeFirst(s: string, p: string, i: int)
    requires p != [] && 0 <= i <= |s|
    requires forall j :: 0 <= j < i ==> !OccursAt(s, p, j)
    ensures !Occurs(s[..i], p)
  {
    forall j | 0 <= j && j + |p| <= i
      ensures !OccursAt(s[..i], p, j)
    {
      assert forall m :: 0 <= m < i ==> s[..i][m] == s[m];
      assert !OccursAt(s, p, j);
    }
  }

  /** One splice of a replacement: no `p` ends inside, encloses, starts inside, or lies beyond `r`. */
  lemma NoOccurrenceInSplice(a: string, r: string, b: string, p: string, q: int)
    requires |p| >= 2 && p[0] !in r && p[|p| - 1] !in r
    requires !Occurs(p[1..|p| - 1], r)
    requires !Occurs(a, p) && !Occurs(b, p)
    ensures !OccursAt(a + r + b, p, q)
  {
    var t := a + r + b;
    var n := |a|;
    if q < 0 || q + |p| > |t| {
    } else if q + |p| <= n {
      assert forall m :: 0 <= m < n ==> t[m] == a[m];
      assert !OccursAt(a, p, q);
    } else if q < n && q + |p| - 1 < n + |r| {
      assert t[q + (|p| - 1)] == r[q + |p| - 1 - n];
    } else if q < n {
      EnclosingOccurrence(a, r, b, p, q);
    } else if q < n + |r| {
      assert t[q + 0] == r[q - n];
    } else {
      assert forall m :: n + |r| <= m < |t| ==> t[m] == b[m - n - |r|];
      assert !OccursAt(b, p, q - n - |r|);
    }
  }

  /** An occurrence of `p` that starts before `r` and ends after it holds `r` between its first
      and last characters. */
  lemma EnclosingOccurrence(a: string, r: string, b: string, p: string, q: int)
    requires |p| >= 2 && 0 <= q < |a| && |a| + |r| <= q + |p| - 1
    ensures OccursAt(a + r + b, p, q) ==> OccursAt(p[1..|p| - 1], r, |a| - q - 1)
  {
    var t := a + r + b;
    var n := |a|;
    if OccursAt(t, p, q) {
      var mid := p[1..|p| - 1];
      forall k | 0 <= k < |r|
        ensures mid[n - q - 1 + k] == r[k]
      {
        assert t[n + k] == r[k];
        assert t[q + (n - q + k)] == p[n - q + k];
      }
    }
  }

  /** A text shorter than a pattern does not hold it. */
  lemma TooShortToHold(s: string, p: string)
    requires |s| < |p|
    ensures !Occurs(s, p)
  {
  }

  /** Joining the parts of `s.split(c)` with `c` gives `s` back. */
  lemma {:induction false} JoinOfSplit(s: string, c: char)
    ensures JoinWith(Split(s, c), [c]) == s
    decreases |s|
  {
    var i := IndexOfChar(s, c);
    if i < |s| {
      var tail := s[i + 1..];
      var rest := Split(tail, c);
      JoinOfSplit(tail, c);
      SplitAtFirst(s, c, i, tail);
      JoinCons(s[..i], rest, [c]);
      calc {
        JoinWith(Split(s, c), [c]);
        JoinWith([s[..i]] + rest, [c]);
        s[..i] + [c] + JoinWith(rest, [c]);
        s[..i] + [c] + tail;
        { SplitAtChar(s, i, tail); }
        s;
      }
    } else {
      assert Split(s, c) == [s];
    }
  }

  /** `s.split(c)` is the text before the first `c`, then the split of the rest. */
  lemma SplitAtFirst(s: string, c: char, i: int, rest: string)
    requires i == IndexOfChar(s, c) && i < |s| && rest == s[i + 1..]
    ensures Split(s, c) == [s[..i]] + Split(rest, c)
  {
  }

  lemma SplitAtChar(s: string, i: int, tail: string)
    requires 0 <= i < |s| && tail == s[i + 1..]
    ensures s == s[..i] + [s[i]] + tail
  {
  }

  /** Joining a part in front of at least one more puts one separator after it. */
  lemma JoinCons(a: string, rest: seq<string>, sep: string)
    requires |rest| >= 1
    ensures JoinWith([a] + rest, sep) == a + sep + JoinWith(rest, sep)
  {
    assert ([a] + rest)[1..] == rest;
  }

  /** Splitting on `c` the join of parts free of `c` gives the parts back. */
  lemma {:induction false} SplitOfJoin(parts: seq<string>, c: char)
    requires |parts| >= 1
    requires forall k :: 0 <= k < |parts| ==> c !in parts[k]
    ensures Split(JoinWith(parts, [c]), c) == parts
  {
    var p0 := parts[0];
    if |parts| == 1 {
      var i := IndexOfChar(p0, c);
      assert i == |p0|;
    } else {
      var tail := JoinWith(parts[1..], [c]);
      var s := JoinWith(parts, [c]);
      assert s == p0 + [c] + tail;
      var i := IndexOfChar(s, c);
      assert s[|p0|] == c;
      assert forall j :: 0 <= j < |p0| ==> s[j] == p0[j] && s[j] != c;
      assert i == |p0|;
      assert s[..i] == p0;
      assert s[i + 1..] == tail;
      SplitOfJoin(parts[1..], c);
    }
  }

  /** No line of `s.splitlines()` holds a line boundary. */
  lemma {:induction false} SplitLinesHaveNoBreaks(s: string)
    ensures forall k :: 0 <= k < |SplitLines(s)| ==> NoLineBreaks(SplitLines(s)[k])
    decreases |s|
  {
    if s != [] {
      var i := LineEnd(s);
      LineEndSpec(s);
      if i < |s| {
        var width := BreakWidth(s, i);
        SplitLinesHaveNoBreaks(s[i + width..]);
        assert SplitLines(s) == [s[..i]] + SplitLines(s[i + width..]);
      }
    }
  }

  /** A line followed by "\n" splits off as the first line. */
  lemma SplitLinesOfLine(l: string, tail: string)
    requires NoLineBreaks(l)
    ensures SplitLines(l + "\n" + tail) == [l] + SplitLines(tail)
  {
    var s := l + "\n" + tail;
    var i := LineEnd(s);
    LineEndSpec(s);
    assert s[|l|] == '\n';
    assert forall j :: 0 <= j < |l| ==> s[j] == l[j];
    assert i == |l|;
    assert s[..i] == l;
    assert BreakWidth(s, i) == 1;
    assert s[i + 1..] == tail;
    assert SplitLines(s) == [s[..i]] + SplitLines(s[i + 1..]);
  }

  /** `"\n".join(lines) + "\n"` splits back into `lines` when no line holds a boundary. */
  lemma {:induction false} SplitLinesOfJoined(lines: seq<string>)
    requires |lines| >= 1
    requires forall k :: 0 <= k < |lines| ==> NoLineBreaks(lines[k])
    ensures SplitLines(JoinWith(lines, "\n") + "\n") == lines
  {
    if |lines| == 1 {
      assert JoinWith(lines, "\n") + "\n" == lines[0] + "\n" + "";
      SplitLinesOfLine(lines[0], "");
      assert SplitLines("") == [];
    } else {
      var tail := JoinWith(lines[1..], "\n") + "\n";
      assert JoinWith(lines, "\n") + "\n" == lines[0] + "\n" + tail;
      SplitLinesOfLine(lines[0], tail);
      SplitLinesOfJoined(lines[1..]);
    }
  }

  /** A character that is not a line boundary lies on one of the lines of `s.splitlines()`:
      it is character `m` of line `k`. */
  lemma {:induction false} CharOnSomeLine(s: string, j: nat) returns (k: nat, m: nat)
    requires j < |s| && !IsLineBreak(s[j])
    ensures k < |SplitLines(s)| && m < |SplitLines(s)[k]| && SplitLines(s)[k][m] == s[j]
    decreases |s|
  {
    var i := LineEnd(s);
    if i == |s| {
      SplitLinesWhole(s);
      k, m := 0, j;
    } else if j < i {
      CharOnFirstLine(s, i, j);
      k, m := 0, j;
    } else {
      k, m := CharOnRest(s, i, j);
    }
  }

  /** A text without a line boundary is one line. */
  lemma SplitLinesWhole(s: string)
    requires s != [] && LineEnd(s) == |s|
    ensures SplitLines(s) == [s]
  {
  }

  /** The first line ends at the first boundary; the lines after it are those of the rest. */
  lemma SplitLinesAt(s: string, i: nat, w: nat, rest: string)
    requires i == LineEnd(s) < |s| && w == BreakWidth(s, i) && rest == s[i + w..]
    ensures SplitLines(s) == [s[..i]] + SplitLines(rest)
  {
  }

  /** A character before the first boundary lies on the first line. */
  lemma CharOnFirstLine(s: string, i: nat, j: nat)
    requires i == LineEnd(s) < |s| && j < i
    ensures 0 < |SplitLines(s)| && j < |SplitLines(s)[0]| && SplitLines(s)[0][j] == s[j]
  {
    SplitLinesAt(s, i, BreakWidth(s, i), s[i + BreakWidth(s, i)..]);
    assert SplitLines(s)[0] == s[..i];
  }

  /** A character past the first boundary lies on one of the lines of the rest. */
  lemma {:induction false} CharOnRest(s: string, i: nat, j: nat) returns (k: nat, m: nat)
    requires i == LineEnd(s) < |s| && i <= j < |s| && !IsLineBreak(s[j])
    ensures k < |SplitLines(s)| && m < |SplitLines(s)[k]| && SplitLines(s)[k][m] == s[j]
    decreases |s|, 0
  {
    var w := BreakWidth(s, i);
    var rest := s[i + w..];
    var j' := j - i - w;
    PastBoundary(s, i, w, j, rest);
    var k', m' := CharOnSomeLine(rest, j');
    LaterLine(s, i, w, k', rest);
    ShiftedChar(SplitLines(s), SplitLines(rest), k', m', rest[j'], s[j]);
    k, m := k' + 1, m';
  }

  /** Line `k` of the rest is line `k + 1` of the whole, so its characters are found there. */
  lemma ShiftedChar(lines: seq<string>, restLines: seq<string>, k: nat, m: nat, c: char, d: char)
    requires k < |restLines| && m < |restLines[k]| && restLines[k][m] == c && c == d
    requires k + 1 < |lines| && lines[k + 1] == restLines[k]
    ensures m < |lines[k + 1]| && lines[k + 1][m] == d
  {
  }

  /** A character past the first boundary that is not itself a boundary comes after the whole
      boundary, `\r\n` included. */
  lemma PastBoundary(s: string, i: nat, w: nat, j: nat, rest: string)
    requires i == LineEnd(s) < |s| && w == BreakWidth(s, i) && rest == s[i + w..]
    requires i <= j < |s| && !IsLineBreak(s[j])
    ensures i + w <= j && !IsLineBreak(rest[j - i - w]) && rest[j - i - w] == s[j]
  {
    LineEndSpec(s);
    assert j != i && (w == 2 ==> j != i + 1);
  }

  /** Line `k` of the rest is line `k + 1` of the whole text. */
  lemma LaterLine(s: string, i: nat, w: nat, k: nat, rest: string)
    requires i == LineEnd(s) < |s| && w == BreakWidth(s, i) && rest == s[i + w..]
    requires k < |SplitLines(rest)|
    ensures k + 1 < |SplitLines(s)| && SplitLines(s)[k + 1] == SplitLines(rest)[k]
  {
    SplitLinesAt(s, i, w, rest);
    ConsIndex(s[..i], SplitLines(rest), SplitLines(s), k);
  }

  lemma ConsIndex(x: string, xs: seq<string>, ys: seq<string>, k: nat)
    requires ys == [x] + xs && k < |xs|
    ensures k + 1 < |ys| && ys[k + 1] == xs[k]
  {
  }

  /** `lstrip` keeps every character that is not whitespace. */
  lemma CharSurvivesLStrip(s: string, c: char)
    requires c in s && !IsSpace(c)
    ensures c in LStrip(s)
  {
    var r := LStrip(s);
    var n := |s| - |r|;
    var j :| 0 <= j < |s| && s[j] == c;
    assert n <= j by {
      assert !IsSpace(s[j]);
    }
    assert r[j - n] == c by {
      assert r == s[n..];
    }
  }

  /** `strip` keeps every character that is not whitespace. */
  lemma CharSurvivesStrip(s: string, c: char)
    requires c in s && !IsSpace(c)
    ensures c in Strip(s)
  {
    CharSurvivesLStrip(s, c);
    var l := LStrip(s);
    var r := RStrip(l);
    var j :| 0 <= j < |l| && l[j] == c;
    assert j < |r|;
    assert r[j] == c;
  }

  /** A character of one part is a character of the joined text. */
  lemma {:induction false} CharSurvivesJoin(parts: seq<string>, sep: string, k: nat, c: char)
    requires k < |parts| && c in parts[k]
    ensures c in JoinWith(parts, sep)
  {
    if |parts| > 1 {
      if k == 0 {
        assert JoinWith(parts, sep) == parts[0] + (sep + JoinWith(parts[1..], sep));
      } else {
        CharSurvivesJoin(parts[1..], sep, k - 1, c);
      }
    }
  }

  /** Leading whitespace makes no difference to `lstrip`. */
  lemma {:induction false} LStripAfterSpaces(w: string, t: string)
    requires forall i :: 0 <= i < |w| ==> IsSpace(w[i])
    ensures LStrip(w + t) == LStrip(t)
    decreases |w|
  {
    if w != [] {
      assert (w + t)[0] == w[0];
      assert (w + t)[1..] == w[1..] + t;
      LStripAfterSpaces(w[1..], t);
    } else {
      assert w + t == t;
    }
  }

  /** Trailing whitespace makes no difference to `rstrip`. */
  lemma {:induction false} RStripBeforeSpaces(t: string, w: string)
    requires forall i :: 0 <= i < |w| ==> IsSpace(w[i])
    ensures RStrip(t + w) == RStrip(t)
    decreases |w|
  {
    if w != [] {
      var s := t + w;
      assert s[|s| - 1] == w[|w| - 1];
      assert s[..|s| - 1] == t + w[..|w| - 1];
      RStripBeforeSpaces(t, w[..|w| - 1]);
    } else {
      assert t + w == t;
    }
  }

  /** `strip` gives back exactly the text between leading and trailing whitespace, provided that
      text neither starts nor ends with whitespace. */
  lemma StripBetweenSpaces(w1: string, t: string, w2: string)
    requires forall i :: 0 <= i < |w1| ==> IsSpace(w1[i])
    requires forall i :: 0 <= i < |w2| ==> IsSpace(w2[i])
    requires Trimmed(t)
    ensures Strip(w1 + t + w2) == t
  {
    var s := w1 + t + w2;
    if t == [] {
      assert forall i :: 0 <= i < |s| ==> IsSpace(s[i]) by {
        assert forall i :: 0 <= i < |w1| ==> s[i] == w1[i];
        assert forall i :: |w1| <= i < |s| ==> s[i] == w2[i - |w1|];
      }
    } else {
      assert s == w1 + (t + w2);
      LStripAfterSpaces(w1, t + w2);
      assert (t + w2)[0] == t[0];
      assert LStrip(t + w2) == t + w2;
      RStripBeforeSpaces(t, w2);
      assert RStrip(t) == t;
    }
  }

  /** `lstrip` is idempotent. */
  lemma LStripTwice(s: string)
    ensures LStrip(LStrip(s)) == LStrip(s)
  {
  }
}
