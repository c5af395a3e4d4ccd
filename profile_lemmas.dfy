/** What `create_dbt_profile` and `indent_yaml_block` produce: the shape of the indented lines,
    which keys become variables, when the `vars:` section appears, and the output file names. */
module ProfileLemmas {
  import opened Values
  import opened PyStrings
  import opened StringLemmas
  import opened PyFormat
  import opened YamlDump
  import opened PosixPath
  import opened Mapper

  /* ---------- indent_yaml_block ---------- */

  lemma SpacesNoBreaks(n: int)
    ensures NoLineBreaks(Spaces(n))
  {
  }

  lemma NoBreaksSuffix(s: string, i: nat)
    requires NoLineBreaks(s) && i <= |s|
    ensures NoLineBreaks(s[i..])
  {
    assert forall j :: 0 <= j < |s| - i ==> s[i..][j] == s[i + j];
  }

  lemma NoBreaksConcat(a: string, b: string)
    requires NoLineBreaks(a) && NoLineBreaks(b)
    ensures NoLineBreaks(a + b)
  {
    assert forall j :: 0 <= j < |a| ==> (a + b)[j] == a[j];
    assert forall j :: |a| <= j < |a + b| ==> (a + b)[j] == b[j - |a|];
  }

  /** An indented line holds no line boundary when the original line held none. */
  lemma IndentLineNoBreaks(line: string, base: int)
    requires NoLineBreaks(line)
    ensures NoLineBreaks(IndentLine(line, base))
  {
    var stripped := LStrip(line);
    var n := if StartsWith(stripped, "-") then base + 2 else base;
    SpacesNoBreaks(n);
    NoBreaksSuffix(line, |line| - |stripped|);
    NoBreaksConcat(Spaces(n), stripped);
  }

  /** Each line keeps its content, and its indentation becomes exactly `base`, or `base + 2` for a
      line that starts a list item. */
  lemma IndentLineShape(line: string, base: int)
    requires base >= 0
    ensures LStrip(IndentLine(line, base)) == LStrip(line)
    ensures |IndentLine(line, base)| - |LStrip(IndentLine(line, base))| ==
      if StartsWith(LStrip(line), "-") then base + 2 else base
  {
    var stripped := LStrip(line);
    var n := if StartsWith(stripped, "-") then base + 2 else base;
    LStripAfterSpaces(Spaces(n), stripped);
    LStripTwice(line);
  }

  /** Re-indenting an indented line changes nothing. */
  lemma IndentLineTwice(line: string, base: int)
    requires base >= 0
    ensures IndentLine(IndentLine(line, base), base) == IndentLine(line, base)
  {
    IndentLineShape(line, base);
  }

  /** The lines of the indented block are the indented lines of the input. */
  lemma IndentBlockLines(s: string, base: int)
    requires SplitLines(s) != []
    ensures SplitLines(IndentBlock(s, base)) == IndentLines(SplitLines(s), base)
  {
    var lines := SplitLines(s);
    var out := IndentLines(lines, base);
    SplitLinesHaveNoBreaks(s);
    forall k | 0 <= k < |out|
      ensures NoLineBreaks(out[k])
    {
      IndentLineNoBreaks(lines[k], base);
    }
    SplitLinesOfJoined(out);
  }

  /** An empty document indents to a single newline. */
  lemma IndentBlockEmpty(base: int)
    ensures IndentBlock("", base) == "\n"
  {
    assert SplitLines("") == [];
    assert IndentLines([], base) == [];
  }

  /** `indent_yaml_block` is idempotent on a document with at least one line. */
  lemma IndentBlockTwice(s: string, base: int)
    requires SplitLines(s) != [] && base >= 0
    ensures IndentBlock(IndentBlock(s, base), base) == IndentBlock(s, base)
  {
    var lines := SplitLines(s);
    IndentBlockLines(s, base);
    var out := IndentLines(lines, base);
    forall k | 0 <= k < |out|
      ensures IndentLine(out[k], base) == out[k]
    {
      IndentLineTwice(lines[k], base);
    }
    assert IndentLines(out, base) == out;
  }

  /* ---------- The vars block ---------- */

  /** The one-line document `{}` indents to `{}` after the base indentation. */
  lemma IndentBraces(base: int)
    ensures IndentBlock("{}\n", base) == Spaces(base) + "{}\n"
  {
    BracesLines();
    BracesLine(base);
    var out := IndentLines(["{}"], base);
    assert out == [Spaces(base) + "{}"];
    assert JoinWith(out, "\n") == Spaces(base) + "{}";
    AppendAssoc(Spaces(base), "{}", "\n");
    BracesNewline();
  }

  lemma BracesNewline()
    ensures "{}" + "\n" == "{}\n"
  {
  }

  lemma BracesLines()
    ensures SplitLines("{}\n") == ["{}"]
  {
    assert "{}\n" == "{}" + "\n" + "";
    SplitLinesOfLine("{}", "");
  }

  lemma BracesLine(base: int)
    ensures IndentLine("{}", base) == Spaces(base) + "{}"
  {
    assert LStrip("{}") == "{}" by {
      assert !IsSpace('{');
    }
    assert !StartsWith("{}", "-");
  }

  /** Indentation and the final newline strip away from `{}`. */
  lemma StripPaddedBraces(n: int)
    ensures Strip(Spaces(n) + "{}\n") == "{}"
  {
    LStripAfterSpaces(Spaces(n), "{}\n");
    LStripBraces();
    RStripBraces();
  }

  lemma LStripBraces()
    ensures LStrip("{}\n") == "{}\n"
  {
    var s := "{}\n";
    assert s[0] == '{';
    LStripKeeps(s);
  }

  /** Text that does not start with whitespace is left as it is by `lstrip`. */
  lemma LStripKeeps(s: string)
    requires s != [] && !IsSpace(s[0])
    ensures LStrip(s) == s
  {
  }

  lemma RStripBraces()
    ensures RStrip("{}\n") == "{}"
  {
    assert "{}\n"[..2] == "{}";
    assert IsSpace('\n') && !IsSpace('}');
  }

  /** With no variables the dump is `{}`, which indents and strips back to `{}`. */
  lemma EmptyDumpStrips()
    ensures Strip(IndentBlock(Dump([]), DefaultBaseIndent)) == "{}"
  {
    IndentBraces(DefaultBaseIndent);
    StripPaddedBraces(DefaultBaseIndent);
  }

  /** A `:` in a document survives indentation and stripping. */
  lemma ColonSurvivesIndent(s: string, j: nat)
    requires j < |s| && s[j] == ':'
    ensures ':' in Strip(IndentBlock(s, DefaultBaseIndent))
  {
    var lines := SplitLines(s);
    var k, m := CharOnSomeLine(s, j);
    ColonSurvivesIndentLine(lines[k], m, DefaultBaseIndent);
    ColonInBlock(s, lines, k);
  }

  /** A `:` on one indented line is in the indented block, and survives its stripping. */
  lemma ColonInBlock(s: string, lines: seq<string>, k: nat)
    requires lines == SplitLines(s)
    requires k < |lines| && ':' in IndentLine(lines[k], DefaultBaseIndent)
    ensures ':' in Strip(IndentBlock(s, DefaultBaseIndent))
  {
    var out := IndentLines(lines, DefaultBaseIndent);
    assert out[k] == IndentLine(lines[k], DefaultBaseIndent);
    CharSurvivesJoin(out, "\n", k, ':');
    var block := JoinWith(out, "\n") + "\n";
    CharSurvivesAppend(JoinWith(out, "\n"), "\n", ':');
    assert block == IndentBlock(s, DefaultBaseIndent);
    CharSurvivesStrip(block, ':');
  }

  /** A `:` on a line is still on it once the line is indented. */
  lemma ColonSurvivesIndentLine(line: string, m: nat, base: int)
    requires m < |line| && line[m] == ':'
    ensures ':' in IndentLine(line, base)
  {
    assert ':' in line by {
      assert line[m] == ':';
    }
    CharSurvivesLStrip(line, ':');
    var stripped := LStrip(line);
    var pad := if StartsWith(stripped, "-") then base + 2 else base;
    var i :| 0 <= i < |stripped| && stripped[i] == ':';
    assert (Spaces(pad) + stripped)[|Spaces(pad)| + i] == ':';
  }

  lemma CharSurvivesAppend(a: string, b: string, c: char)
    requires c in a
    ensures c in a + b
  {
    var i :| 0 <= i < |a| && a[i] == c;
    assert (a + b)[i] == c;
  }

  /** The `vars:` section is empty exactly when every intermediate key found its place in the
      template (or was "unknown"), that is when no variable is left. */
  lemma VarsBlockEmptyIff(vars: Entries)
    ensures VarsBlock(vars) == "" <==> vars == []
  {
    if vars == [] {
      EmptyDumpStrips();
    } else {
      DumpNotBraces(vars);
    }
  }

  /** With an empty intermediate input the template is only changed by the two final
      replacements: `{vars_block}` by nothing and `{project_name}` by the default name. */
  lemma EmptyInputProfile(template: string)
    ensures RenderedProfile(template, []) ==
      ReplaceAll(ReplaceAll(template, VarsBlockPlaceholder, ""), ProjectNamePlaceholder, DefaultProjectName)
  {
    VarsBlockEmptyIff([]);
  }

  /** A template without `{vars_block}` and `{project_name}` renders unchanged from an empty input;
      any other placeholder is left in place. */
  lemma EmptyInputPlainTemplate(template: string)
    requires !Contains(template, VarsBlockPlaceholder) && !Contains(template, ProjectNamePlaceholder)
    ensures RenderedProfile(template, []) == template
  {
    EmptyInputProfile(template);
    ReplaceAllAbsent(template, VarsBlockPlaceholder, "");
    ReplaceAllAbsent(template, ProjectNamePlaceholder, DefaultProjectName);
  }

  /** A non-empty dump keeps a colon through indentation and stripping, so it is never `{}`. */
  lemma DumpNotBraces(vars: Entries)
    requires vars != []
    ensures Strip(IndentBlock(Dump(vars), DefaultBaseIndent)) != "{}"
  {
    var s := Dump(vars);
    DumpHasColon(vars);
    ColonSurvivesIndent(s, |vars[0].0|);
    ColonNotBraces(Strip(IndentBlock(s, DefaultBaseIndent)));
  }

  lemma ColonNotBraces(t: string)
    requires ':' in t
    ensures t != "{}"
  {
    assert ':' !in "{}";
  }

  /* ---------- Substitution ---------- */

  /** A `{key}` placeholder contains the key, so a key with a placeholder never becomes a variable. */
  lemma PlaceholderMentionsKey(text: string, key: string)
    requires Contains(text, "{" + key + "}")
    ensures Contains(text, key)
  {
    var p := "{" + key + "}";
    ContainsIsOccurs(text, p);
    var i :| OccursAt(text, p, i);
    assert forall k :: 0 <= k < |key| ==> p[k + 1] == key[k];
    assert OccursAt(text, key, i + 1);
    ContainsIsOccurs(text, key);
  }

  /** A key the text mentions but without its braces is dropped: the text stays as it was and the
      key does not become a variable. */
  lemma MentionedWithoutPlaceholder(d: Draft, key: string, value: Value)
    requires key != UnknownKey && Contains(d.text, key) && !Contains(d.text, "{" + key + "}")
    ensures Substitute(d, key, value) == d
  {
    ReplaceAllAbsent(d.text, "{" + key + "}", PyStr(value));
  }

  /** A placeholder is gone once its key is substituted, when the value's text has no braces and
      does not occur inside the key. */
  lemma PlaceholderReplaced(d: Draft, key: string, value: Value)
    requires key != UnknownKey && Contains(d.text, "{" + key + "}")
    requires '{' !in PyStr(value) && '}' !in PyStr(value) && !Occurs(key, PyStr(value))
    ensures Substitute(d, key, value).vars == d.vars
    ensures !Occurs(Substitute(d, key, value).text, "{" + key + "}")
  {
    PlaceholderMentionsKey(d.text, key);
    var p := "{" + key + "}";
    assert p[0] == '{' && p[|p| - 1] == '}';
    assert p[1..|p| - 1] == key;
    ReplaceAllRemoves(d.text, p, PyStr(value));
  }

  /** `None`, a boolean or an integer has no brace in its text, so its placeholder is gone once
      substituted, unless its text occurs inside the key (`"{v{v1}}"` with `v1` set to `1` leaves
      `{v1}`). */
  lemma ScalarPlaceholderReplaced(d: Draft, key: string, value: Value)
    requires value.Null? || value.Bool? || value.Int?
    requires key != UnknownKey && Contains(d.text, "{" + key + "}")
    requires !Occurs(key, PyStr(value))
    ensures Substitute(d, key, value).vars == d.vars
    ensures !Occurs(Substitute(d, key, value).text, "{" + key + "}")
  {
    PlaceholderReplaced(d, key, value);
  }

  /** `w` keeps some of the entries of `es`, in their order. */
  predicate Subsequence(w: Entries, es: Entries)
    decreases |es|
  {
    if w == [] then true
    else if es == [] then false
    else (w[0] == es[0] && Subsequence(w[1..], es[1..])) || Subsequence(w, es[1..])
  }

  /** No key of `es` is already a key of `vars`. */
  predicate KeysApart(es: Entries, vars: Entries) {
    forall j, i :: 0 <= j < |es| && 0 <= i < |vars| ==> es[j].0 != vars[i].0
  }

  /** No entry of `w` is stored under "unknown". */
  predicate NoUnknownEntry(w: Entries) {
    forall i :: 0 <= i < |w| ==> w[i].0 != UnknownKey
  }

  /** Entry `j` of `es` becomes a variable: it is not "unknown", and the text left by the entries
      before it does not mention its key. */
  predicate BecomesVariable(d: Draft, es: Entries, j: int)
    requires 0 <= j < |es|
  {
    es[j].0 != UnknownKey && !Contains(SubstituteAll(d, es[..j]).text, es[j].0)
  }

  /** The variables are the intermediate entries that found no place in the template, in their
      order, never "unknown", with their values unchanged: an entry is among them exactly when it
      becomes a variable at its turn. */
  lemma {:induction false} VarsAreUnplacedEntries(d: Draft, es: Entries) returns (w: Entries)
    requires UniqueKeys(es) && KeysApart(es, d.vars)
    ensures SubstituteAll(d, es).vars == d.vars + w
    ensures Subsequence(w, es)
    ensures NoUnknownEntry(w)
    ensures forall j :: 0 <= j < |es| ==> (es[j] in w <==> BecomesVariable(d, es, j))
    decreases |es|
  {
    if es == [] {
      w := [];
      assert d.vars + [] == d.vars;
    } else {
      var (key, value) := es[0];
      if key == UnknownKey || Contains(d.text, key) {
        w := VarsSkipped(d, es);
      } else {
        w := VarsAppended(d, es);
      }
    }
  }

  /** Dropping the first intermediate entry keeps its keys unique and apart from the variables. */
  lemma TailApart(es: Entries, vars: Entries)
    requires es != [] && UniqueKeys(es) && KeysApart(es, vars)
    ensures UniqueKeys(es[1..]) && KeysApart(es[1..], vars)
  {
    assert forall j :: 0 <= j < |es| - 1 ==> es[1..][j] == es[j + 1];
  }

  /** ... and adding the first entry to the variables keeps the rest apart from them. */
  lemma TailApartFromAppended(es: Entries, vars: Entries)
    requires es != [] && UniqueKeys(es) && KeysApart(es, vars)
    ensures KeysApart(es[1..], vars + [es[0]])
  {
    var vs := vars + [es[0]];
    forall j, i | 0 <= j < |es| - 1 && 0 <= i < |vs|
      ensures es[1..][j].0 != vs[i].0
    {
      assert es[1..][j] == es[j + 1];
      if i < |vars| {
        assert vs[i] == vars[i];
      }
    }
  }

  /** A key that is neither "unknown" nor mentioned is appended to the variables. */
  lemma AppendedStep(d: Draft, es: Entries)
    requires es != [] && KeysApart(es, d.vars)
    requires es[0].0 != UnknownKey && !Contains(d.text, es[0].0)
    ensures Substitute(d, es[0].0, es[0].1).vars == d.vars + [es[0]]
  {
    var (key, value) := es[0];
    assert key !in Keys(d.vars) by {
      forall i | 0 <= i < |d.vars|
        ensures Keys(d.vars)[i] != key
      {
        assert es[0].0 != d.vars[i].0;
      }
    }
    SetNew(d.vars, key, value);
  }

  /** The step of `VarsAreUnplacedEntries` for a key that does not become a variable. */
  lemma {:induction false} VarsSkipped(d: Draft, es: Entries) returns (w: Entries)
    requires es != [] && UniqueKeys(es) && KeysApart(es, d.vars)
    requires es[0].0 == UnknownKey || Contains(d.text, es[0].0)
    ensures SubstituteAll(d, es).vars == d.vars + w
    ensures Subsequence(w, es)
    ensures NoUnknownEntry(w)
    ensures forall j :: 0 <= j < |es| ==> (es[j] in w <==> BecomesVariable(d, es, j))
    decreases |es|, 0
  {
    var d' := Substitute(d, es[0].0, es[0].1);
    assert d'.vars == d.vars;
    TailApart(es, d.vars);
    w := VarsAreUnplacedEntries(d', es[1..]);
    SubsequenceSkip(w, es);
    MembersShift(d, es, w, w);
  }

  /** The step of `VarsAreUnplacedEntries` for a key that becomes a variable. */
  lemma {:induction false} VarsAppended(d: Draft, es: Entries) returns (w: Entries)
    requires es != [] && UniqueKeys(es) && KeysApart(es, d.vars)
    requires es[0].0 != UnknownKey && !Contains(d.text, es[0].0)
    ensures SubstituteAll(d, es).vars == d.vars + w
    ensures Subsequence(w, es)
    ensures NoUnknownEntry(w)
    ensures forall j :: 0 <= j < |es| ==> (es[j] in w <==> BecomesVariable(d, es, j))
    decreases |es|, 0
  {
    var d' := Substitute(d, es[0].0, es[0].1);
    AppendedStep(d, es);
    TailApart(es, d.vars);
    TailApartFromAppended(es, d.vars);
    var w' := VarsAreUnplacedEntries(d', es[1..]);
    w := [es[0]] + w';
    AppendThenConcat(d.vars, es[0], w');
    SubsequenceKeep(w', es);
    NoUnknownCons(es[0], w');
    MembersShift(d, es, w', w);
  }

  /** Membership in the variables, one entry further on: the first entry is among them exactly when
      it is appended, and entry `j + 1` exactly when entry `j` of the rest is among those of the rest. */
  lemma MembersShift(d: Draft, es: Entries, w': Entries, w: Entries)
    requires es != [] && UniqueKeys(es) && Subsequence(w', es[1..])
    requires forall j :: 0 <= j < |es| - 1 ==>
      (es[1..][j] in w' <==> BecomesVariable(Substitute(d, es[0].0, es[0].1), es[1..], j))
    requires w == if es[0].0 != UnknownKey && !Contains(d.text, es[0].0) then [es[0]] + w' else w'
    ensures forall j :: 0 <= j < |es| ==> (es[j] in w <==> BecomesVariable(d, es, j))
  {
    SubsequenceMembers(w', es[1..]);
    forall j | 0 <= j < |es|
      ensures es[j] in w <==> BecomesVariable(d, es, j)
    {
      if j == 0 {
        assert es[..0] == [];
        assert es[0] !in es[1..] by {
          forall i | 0 <= i < |es| - 1
            ensures es[1..][i] != es[0]
          {
            assert es[1..][i] == es[i + 1];
          }
        }
      } else {
        assert es[j] == es[1..][j - 1];
        assert es[j].0 != es[0].0;
        SubstituteAllPrefix(d, es, j);
      }
    }
  }

  /** The entries of a subsequence are entries of the whole. */
  lemma {:induction false} SubsequenceMembers(w: Entries, es: Entries)
    requires Subsequence(w, es)
    ensures forall e :: e in w ==> e in es
    decreases |es|
  {
    if w != [] {
      if w[0] == es[0] && Subsequence(w[1..], es[1..]) {
        SubsequenceMembers(w[1..], es[1..]);
        assert forall e :: e in w ==> e == w[0] || e in w[1..];
      } else {
        SubsequenceMembers(w, es[1..]);
      }
      assert forall e :: e in es[1..] ==> e in es;
    }
  }

  /** Substituting the first `j` entries is substituting the first one, then `j - 1` of the rest. */
  lemma SubstituteAllPrefix(d: Draft, es: Entries, j: int)
    requires 1 <= j <= |es|
    ensures SubstituteAll(d, es[..j]) == SubstituteAll(Substitute(d, es[0].0, es[0].1), es[1..][..j - 1])
  {
    assert es[..j][0] == es[0];
    assert es[..j][1..] == es[1..][..j - 1];
  }

  lemma AppendThenConcat(vars: Entries, e: (string, Value), w: Entries)
    ensures (vars + [e]) + w == vars + ([e] + w)
  {
  }

  lemma SubsequenceKeep(w: Entries, es: Entries)
    requires es != [] && Subsequence(w, es[1..])
    ensures Subsequence([es[0]] + w, es)
  {
    assert ([es[0]] + w)[1..] == w;
  }

  lemma NoUnknownCons(e: (string, Value), w: Entries)
    requires e.0 != UnknownKey && NoUnknownEntry(w)
    ensures NoUnknownEntry([e] + w)
  {
    assert forall i :: 1 <= i < |w| + 1 ==> ([e] + w)[i] == w[i - 1];
  }

  lemma SubsequenceSkip(w: Entries, es: Entries)
    requires es != [] && Subsequence(w, es[1..])
    ensures Subsequence(w, es)
  {
  }

  /** The variables of a rendered profile: the intermediate entries, in their order, that are not
      "unknown" and whose key the template text did not mention when their turn came; the `vars:`
      block is empty exactly when there are none. */
  lemma ProfileVariables(template: string, inter: Entries) returns (w: Entries)
    requires UniqueKeys(inter)
    ensures SubstituteAll(Draft(template, []), inter).vars == w
    ensures Subsequence(w, inter) && NoUnknownEntry(w)
    ensures forall j :: 0 <= j < |inter| ==> (inter[j] in w <==> BecomesVariable(Draft(template, []), inter, j))
    ensures VarsBlock(w) == "" <==> w == []
  {
    w := VarsAreUnplacedEntries(Draft(template, []), inter);
    assert [] + w == w;
    VarsBlockEmptyIff(w);
  }

  /* ---------- Output file names ---------- */

  /** The profile is `<input name without its extension>_profile.yml`, inside the output directory. */
  lemma OutputFileNameSpec(outputDir: string, jsonInputFile: string)
    ensures var base := Basename(jsonInputFile);
      && Basename(OutputFileName(outputDir, jsonInputFile)) == SplitExt(base).0 + "_profile.yml"
      && base == SplitExt(base).0 + SplitExt(base).1
    ensures StartsWith(OutputFileName(outputDir, jsonInputFile), outputDir)
  {
    var base := Basename(jsonInputFile);
    var name := SplitExt(base).0 + "_profile.yml";
    assert '/' !in SplitExt(base).0 by {
      assert forall j :: 0 <= j < |SplitExt(base).0| ==> SplitExt(base).0[j] == base[j];
    }
    assert '/' !in name;
    BasenameOfJoin(outputDir, name);
    JoinKeepsDirectory(outputDir, name);
  }

  /** The intermediate file is `updated_<input name>`, inside the intermediate directory. */
  lemma IntermediateFileNameSpec(intermediateDir: string, jsonInputFile: string)
    ensures Basename(IntermediateFileName(intermediateDir, jsonInputFile)) == "updated_" + Basename(jsonInputFile)
    ensures StartsWith(IntermediateFileName(intermediateDir, jsonInputFile), intermediateDir)
  {
    var name := "updated_" + Basename(jsonInputFile);
    assert '/' !in name;
    BasenameOfJoin(intermediateDir, name);
    JoinKeepsDirectory(intermediateDir, name);
  }

  /** Joining a relative name keeps the directory as a prefix. */
  lemma JoinKeepsDirectory(dir: string, name: string)
    requires '/' !in name
    ensures StartsWith(JoinPath(dir, name), dir)
  {
    if name != [] {
      assert name[0] != '/' by { assert name[0] in name; }
      assert name[..1] != "/";
    }
    var pre := if dir == [] || dir[|dir| - 1] == '/' then dir else dir + "/";
    assert JoinPath(dir, name) == pre + name;
    assert (pre + name)[..|dir|] == dir;
  }
}
