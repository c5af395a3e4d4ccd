/** The template processor: it renames the keys of a JSON input through a YAML mapping, turns
    "yes"/"no" answers into booleans, and fills a dbt profile template with the result. */
module Mapper {
  import opened Values
  import opened PyStrings
  import opened StringLemmas
  import opened PyFormat
  import opened YamlDump
  import opened PosixPath

  /** The input key whose mapping holds variables set by the user, renamed one by one. */
  const UserSetVariables := "user_set_variables"
  /** The mapped name under which every key without a mapping is collected. */
  const UnknownKey := "unknown"
  const VarsBlockPlaceholder := "{vars_block}"
  const ProjectNamePlaceholder := "{project_name}"
  const DefaultProjectName := "Default project name"
  const DefaultBaseIndent := 8

  datatype Error =
    | NotAMapping       // `.items()` on an input, or a `user_set_variables` value, that is not a mapping
    | UnhashableTarget  // the mapped name is a list or a mapping, which cannot be a dictionary key
    | NonStringTarget   // the mapped name is a number or a boolean, not a name for the template

  /* ---------- Looking up a key in the mapping ---------- */

  /** Following `path` through nested mappings: each step needs a mapping holding the next key. */
  function Resolve(v: Value, path: seq<string>): Option<Value>
    decreases |path|
  {
    if path == [] then Some(v)
    else if !v.Dict? then None
    else match Get(v.entries, path[0])
      case Some(w) => Resolve(w, path[1..])
      case None => None
  }

  /** What `_extract_value(key)` returns: the value at the dot-separated path `key`, or `""` when
      a step finds no mapping or no such key. */
  function Extracted(table: Value, key: string): Value {
    match Resolve(table, Split(key, '.'))
    case Some(v) => v
    case None => Str("")
  }

  /* ---------- Renaming the input: render_mappings ---------- */

  /** A string answer "yes" or "no" becomes a boolean; every other value stays as it is. */
  function Normalize(v: Value): (r: Value)
    ensures v == Str("yes") ==> r == Bool(true)
    ensures v == Str("no") ==> r == Bool(false)
    ensures r != Str("yes") && r != Str("no")
    ensures r != v ==> v == Str("yes") || v == Str("no")
  {
    if v == Str("yes") then Bool(true)
    else if v == Str("no") then Bool(false)
    else v
  }

  /** Where the value of an input key goes, given the value its mapping lookup returned. */
  datatype Target = Resolved(name: string) | Unknown | Unusable(error: Error)

  /** `value = lookup or "unknown"`, then `value == "unknown"` sends the key to the unknown bucket;
      any other value must be a string to serve as the new key. */
  function Classify(looked: Value): (t: Target)
    ensures t == Unknown <==> !Truthy(looked) || looked == Str(UnknownKey)
    ensures t.Resolved? ==> looked == Str(t.name) && t.name != [] && t.name != UnknownKey
    ensures looked.Str? && Truthy(looked) && looked != Str(UnknownKey) ==> t == Resolved(looked.s)
    ensures t.Unusable? <==> Truthy(looked) && !looked.Str?
  {
    if !Truthy(looked) || looked == Str(UnknownKey) then Unknown
    else match looked
      case Str(s) => Resolved(s)
      case List(_) => Unusable(UnhashableTarget)
      case Dict(_) => Unusable(UnhashableTarget)
      case _ => Unusable(NonStringTarget)
  }

  /** The dictionary being built, and the unknown bucket it shares with its "unknown" entry. */
  datatype Buckets = Buckets(updated: Entries, unknown: Entries)

  const NoBuckets := Buckets([], [])

  /** Placing one input key and its value: a resolved key sets its mapped name to the normalised
      value; an unresolved key goes into the bucket, which is stored again under "unknown"; nothing
      else changes. A target that cannot be a key is an error. */
  function Step(table: Value, acc: Buckets, key: string, value: Value): (r: Result<Buckets, Error>)
    ensures r.Err? <==> Classify(Extracted(table, key)).Unusable?
    ensures r.Ok? && Classify(Extracted(table, key)).Resolved? ==>
      var name := Classify(Extracted(table, key)).name;
      && Get(r.value.updated, name) == Some(Normalize(value))
      && (forall n :: n != name ==> Get(r.value.updated, n) == Get(acc.updated, n))
      && r.value.unknown == acc.unknown
    ensures r.Ok? && Classify(Extracted(table, key)) == Unknown ==>
      && Get(r.value.unknown, key) == Some(value)
      && (forall k :: k != key ==> Get(r.value.unknown, k) == Get(acc.unknown, k))
      && Get(r.value.updated, UnknownKey) == Some(Dict(r.value.unknown))
      && (forall n :: n != UnknownKey ==> Get(r.value.updated, n) == Get(acc.updated, n))
  {
    match Classify(Extracted(table, key))
    case Unknown =>
      var unknown := Set(acc.unknown, key, value);
      Ok(Buckets(Set(acc.updated, UnknownKey, Dict(unknown)), unknown))
    case Resolved(name) =>
      Ok(Buckets(Set(acc.updated, name, Normalize(value)), acc.unknown))
    case Unusable(e) => Err(e)
  }

  /** Placing a sequence of keys from left to right, stopping at the first error. */
  function FoldFields(table: Value, acc: Buckets, fs: Entries): Result<Buckets, Error>
    decreases |fs|
  {
    if fs == [] then Ok(acc)
    else match Step(table, acc, fs[0].0, fs[0].1)
      case Ok(next) => FoldFields(table, next, fs[1..])
      case Err(e) => Err(e)
  }

  /** Placing the top-level keys of the input, where `user_set_variables` contributes its own keys. */
  function FoldRecord(table: Value, acc: Buckets, es: Entries): Result<Buckets, Error>
    decreases |es|
  {
    if es == [] then Ok(acc)
    else
      var (key, value) := es[0];
      var next :=
        if key == UserSetVariables then
          (if value.Dict? then FoldFields(table, acc, value.entries) else Err(NotAMapping))
        else Step(table, acc, key, value);
      match next
      case Ok(a) => FoldRecord(table, a, es[1..])
      case Err(e) => Err(e)
  }

  /** The dictionary `render_mappings` stores as the intermediate input. */
  function RenderedMappings(table: Value, input: Value): Result<Entries, Error> {
    if !input.Dict? then Err(NotAMapping)
    else match FoldRecord(table, NoBuckets, input.entries)
      case Ok(acc) => Ok(acc.updated)
      case Err(e) => Err(e)
  }

  /* ---------- Filling the template: create_dbt_profile ---------- */

  /** The template text so far, and the variables that found no place in it. */
  datatype Draft = Draft(text: string, vars: Entries)

  /** One intermediate key: "unknown" is skipped; a key the text mentions has its `{key}` placeholder
      replaced by `str(value)`; any other key becomes a variable. */
  function Substitute(d: Draft, key: string, value: Value): (r: Draft)
    ensures key == UnknownKey ==> r == d
    ensures key != UnknownKey && !Contains(d.text, key) ==>
      && r.text == d.text
      && Get(r.vars, key) == Some(value)
      && (forall k :: k != key ==> Get(r.vars, k) == Get(d.vars, k))
    ensures Contains(d.text, key) ==> r.vars == d.vars
  {
    if key == UnknownKey then d
    else if Contains(d.text, key) then Draft(ReplaceAll(d.text, "{" + key + "}", PyStr(value)), d.vars)
    else Draft(d.text, Set(d.vars, key, value))
  }

  function SubstituteAll(d: Draft, es: Entries): Draft
    decreases |es|
  {
    if es == [] then d else SubstituteAll(Substitute(d, es[0].0, es[0].1), es[1..])
  }

  /** One line of `indent_yaml_block`: its content, after `base` spaces, or `base + 2` for a list item. */
  function IndentLine(line: string, base: int): string {
    var stripped := LStrip(line);
    Spaces(if StartsWith(stripped, "-") then base + 2 else base) + stripped
  }

  /** The lines, each transformed by `f`. */
  function MapLines(lines: seq<string>, f: string -> string): (r: seq<string>)
    ensures |r| == |lines|
  {
    seq(|lines|, k requires 0 <= k < |lines| => f(lines[k]))
  }

  /** Transforming one more line extends the result by that line. */
  lemma MapLinesSnoc(lines: seq<string>, k: nat, f: string -> string)
    requires k < |lines|
    ensures MapLines(lines[..k + 1], f) == MapLines(lines[..k], f) + [f(lines[k])]
  {
    var a := MapLines(lines[..k + 1], f);
    var b := MapLines(lines[..k], f) + [f(lines[k])];
    assert forall j :: 0 <= j < k ==> lines[..k + 1][j] == lines[..k][j];
    assert forall j :: 0 <= j < k ==> a[j] == b[j];
  }

  function IndentOf(base: int): string -> string {
    line => IndentLine(line, base)
  }

  function IndentLines(lines: seq<string>, base: int): (r: seq<string>)
    ensures |r| == |lines|
    ensures forall k :: 0 <= k < |lines| ==> r[k] == IndentLine(lines[k], base)
  {
    MapLines(lines, IndentOf(base))
  }

  /** What `indent_yaml_block(s, base)` returns: the indented lines, each ended by a newline. */
  function IndentBlock(s: string, base: int): string {
    JoinWith(IndentLines(SplitLines(s), base), "\n") + "\n"
  }

  /** The `vars:` section for the unmatched variables; nothing when the dump is only `{}`. */
  function VarsBlock(vars: Entries): (r: string)
    ensures r == [] || StartsWith(r, "vars:\n")
  {
    var indented := IndentBlock(Dump(vars), DefaultBaseIndent);
    if Strip(indented) != "{}" then "vars:\n" + indented else ""
  }

  /** The profile `create_dbt_profile` writes for a template and an intermediate input; no
      `{project_name}` is left in it. */
  function RenderedProfile(template: string, inter: Entries): (r: string)
    ensures !Occurs(r, ProjectNamePlaceholder)
  {
    var d := SubstituteAll(Draft(template, []), inter);
    var withVars := ReplaceAll(d.text, VarsBlockPlaceholder, VarsBlock(d.vars));
    ProjectNameReplaced(withVars);
    ReplaceAll(withVars, ProjectNamePlaceholder, DefaultProjectName)
  }

  /** Replacing `{project_name}` by the default name leaves none behind, whatever the text. */
  lemma ProjectNameReplaced(s: string)
    ensures !Occurs(ReplaceAll(s, ProjectNamePlaceholder, DefaultProjectName), ProjectNamePlaceholder)
  {
    DefaultNameFits();
    ReplaceAllRemoves(s, ProjectNamePlaceholder, DefaultProjectName);
  }

  /** The default name holds no brace and is too long to lie inside `project_name`. */
  lemma DefaultNameFits()
    ensures |ProjectNamePlaceholder| >= 2
    ensures ProjectNamePlaceholder[0] !in DefaultProjectName
    ensures ProjectNamePlaceholder[|ProjectNamePlaceholder| - 1] !in DefaultProjectName
    ensures !Occurs(ProjectNamePlaceholder[1..|ProjectNamePlaceholder| - 1], DefaultProjectName)
  {
    assert ProjectNamePlaceholder[0] == '{' && ProjectNamePlaceholder[13] == '}';
    TooShortToHold(ProjectNamePlaceholder[1..13], DefaultProjectName);
  }

  /* ---------- Output file names ---------- */

  /** `<output_dir>/<input name without extension>_profile.yml`. */
  function OutputFileName(outputDir: string, jsonInputFile: string): string {
    JoinPath(outputDir, SplitExt(Basename(jsonInputFile)).0 + "_profile.yml")
  }

  /** `<intermediate_dir>/updated_<input name>`. */
  function IntermediateFileName(intermediateDir: string, jsonInputFile: string): string {
    JoinPath(intermediateDir, "updated_" + Basename(jsonInputFile))
  }

  /** A processor holding the configuration, mapping, template and input it has loaded. */
  class TemplateProcessor {
    const jsonInputFile: string
    const outputDir: string
    const intermediateDir: string
    const mappingData: Value
    const templateStr: string
    const inputData: Value
    /** The renamed input, set by `RenderMappings`. */
    var intermediateInput: Entries

    /** The loaded files are given as values; the intermediate input starts empty. */
    constructor (jsonInputFile: string, outputDir: string, intermediateDir: string,
                 mappingData: Value, templateStr: string, inputData: Value)
      ensures this.jsonInputFile == jsonInputFile && this.outputDir == outputDir
      ensures this.intermediateDir == intermediateDir && this.mappingData == mappingData
      ensures this.templateStr == templateStr && this.inputData == inputData
      ensures intermediateInput == []
    {
      this.jsonInputFile := jsonInputFile;
      this.outputDir := outputDir;
      this.intermediateDir := intermediateDir;
      this.mappingData := mappingData;
      this.templateStr := templateStr;
      this.inputData := inputData;
      intermediateInput := [];
    }

    /** `_extract_value`: walks the dot-separated path through the mapping, giving `""` as soon as
        a step fails. */
    method ExtractValue(jsonKey: string) returns (value: Value)
      ensures value == Extracted(mappingData, jsonKey)
    {
      var keys := Split(jsonKey, '.');
      value := mappingData;
      var i := 0;
      while i < |keys|
        invariant 0 <= i <= |keys|
        invariant Resolve(mappingData, keys) == Resolve(value, keys[i..])
      {
        if !value.Dict? {
          return Str("");
        }
        var next := Get(value.entries, keys[i]);
        if next.None? {
          return Str("");
        }
        assert keys[i..][1..] == keys[i + 1..];
        value := next.value;
        i := i + 1;
      }
    }

    /** `indent_yaml_block`. */
    method IndentYamlBlock(yamlStr: string, baseIndent: int) returns (r: string)
      ensures r == IndentBlock(yamlStr, baseIndent)
    {
      var lines := SplitLines(yamlStr);
      var result: seq<string> := [];
      var keyIndent := baseIndent;
      var listIndent := baseIndent + 2;
      for k := 0 to |lines|
        invariant result == IndentLines(lines[..k], baseIndent)
      {
        MapLinesSnoc(lines, k, IndentOf(baseIndent));
        var stripped := LStrip(lines[k]);
        if StartsWith(stripped, "-") {
          result := result + [Spaces(listIndent) + stripped];
        } else {
          result := result + [Spaces(keyIndent) + stripped];
        }
      }
      assert lines[..|lines|] == lines;
      r := JoinWith(result, "\n") + "\n";
    }

    /** Places one key of the input: into the unknown bucket, or under its mapped name. */
    method Place(acc: Buckets, key: string, val: Value) returns (r: Result<Buckets, Error>)
      ensures r == Step(mappingData, acc, key, val)
    {
      var looked := ExtractValue(key);
      var value := if Truthy(looked) then looked else Str(UnknownKey);
      if value == Str(UnknownKey) {
        var unknown := Set(acc.unknown, key, val);
        r := Ok(Buckets(Set(acc.updated, UnknownKey, Dict(unknown)), unknown));
      } else if value.Str? {
        var normalized := if val == Str("yes") then Bool(true) else if val == Str("no") then Bool(false) else val;
        r := Ok(Buckets(Set(acc.updated, value.s, normalized), acc.unknown));
      } else if value.List? || value.Dict? {
        r := Err(UnhashableTarget);
      } else {
        r := Err(NonStringTarget);
      }
    }

    /** The keys of `user_set_variables`, placed one after the other. */
    method PlaceAll(start: Buckets, fields: Entries) returns (r: Result<Buckets, Error>)
      ensures r == FoldFields(mappingData, start, fields)
    {
      var acc := start;
      var j := 0;
      while j < |fields|
        invariant 0 <= j <= |fields|
        invariant FoldFields(mappingData, start, fields) == FoldFields(mappingData, acc, fields[j..])
      {
        assert fields[j..][1..] == fields[j + 1..];
        var placed := Place(acc, fields[j].0, fields[j].1);
        if placed.Err? {
          return Err(placed.error);
        }
        acc := placed.value;
        j := j + 1;
      }
      return Ok(acc);
    }

    /** `render_mappings`: on success the renamed input becomes the intermediate input, and the
        path of the intermediate JSON file is returned; on error nothing changes. */
    method RenderMappings() returns (r: Result<string, Error>)
      modifies this
      ensures match RenderedMappings(mappingData, inputData)
        case Ok(u) => intermediateInput == u && r == Ok(IntermediateFileName(intermediateDir, jsonInputFile))
        case Err(e) => intermediateInput == old(intermediateInput) && r == Err(e)
    {
      if !inputData.Dict? {
        return Err(NotAMapping);
      }
      var input := inputData.entries;
      var acc := NoBuckets;
      var i := 0;
      while i < |input|
        invariant 0 <= i <= |input|
        invariant FoldRecord(mappingData, NoBuckets, input) == FoldRecord(mappingData, acc, input[i..])
        invariant intermediateInput == old(intermediateInput)
      {
        var (jsonKey, jsonValue) := input[i];
        assert input[i..][1..] == input[i + 1..];
        if jsonKey == UserSetVariables {
          if !jsonValue.Dict? {
            return Err(NotAMapping);
          }
          var placed := PlaceAll(acc, jsonValue.entries);
          if placed.Err? {
            return Err(placed.error);
          }
          acc := placed.value;
        } else {
          var placed := Place(acc, jsonKey, jsonValue);
          if placed.Err? {
            return Err(placed.error);
          }
          acc := placed.value;
        }
        i := i + 1;
      }
      intermediateInput := acc.updated;
      r := Ok(JoinPath(intermediateDir, "updated_" + Basename(jsonInputFile)));
    }

    /** `create_dbt_profile`: the path of the profile and the text written to it. */
    method CreateDbtProfile() returns (outputFile: string, rendered: string)
      ensures rendered == RenderedProfile(templateStr, intermediateInput)
      ensures outputFile == OutputFileName(outputDir, jsonInputFile)
    {
      rendered := templateStr;
      var varJson: Entries := [];
      var items := intermediateInput;
      for i := 0 to |items|
        invariant SubstituteAll(Draft(templateStr, []), items) == SubstituteAll(Draft(rendered, varJson), items[i..])
      {
        var (jsonKey, jsonValue) := items[i];
        assert items[i..][1..] == items[i + 1..];
        if jsonKey == UnknownKey {
        } else if Contains(rendered, jsonKey) {
          rendered := ReplaceAll(rendered, "{" + jsonKey + "}", PyStr(jsonValue));
        } else {
          varJson := Set(varJson, jsonKey, jsonValue);
        }
      }
      var yamlString := Dump(varJson);
      var indentedYaml := IndentYamlBlock(yamlString, DefaultBaseIndent);
      var varsBlock := if Strip(indentedYaml) != "{}" then "vars:\n" + indentedYaml else "";
      rendered := ReplaceAll(rendered, VarsBlockPlaceholder, varsBlock);
      rendered := ReplaceAll(rendered, ProjectNamePlaceholder, DefaultProjectName);
      outputFile := JoinPath(outputDir, SplitExt(Basename(jsonInputFile)).0 + "_profile.yml");
    }
  }
}
