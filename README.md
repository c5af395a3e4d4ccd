# Template processor of AUTO-DBT-PROFILE, in Dafny

This project models `TemplateProcessor` from `AUTO-DBT-PROFILE/utils/mapper.py`. It is the engine that
turns a user's JSON answers into a dbt profile:

- `_extract_value` looks a key up in the YAML mapping table, following a dot-separated path.
- `render_mappings` renames every input key through that table. Keys of the nested
  `user_set_variables` record are renamed one by one. The answers `"yes"`/`"no"` become booleans.
  Every key whose lookup is falsy or the string `"unknown"` is collected under the shared
  `"unknown"` entry. A key mapped to a list or a mapping is an error (a number or boolean too,
  see "## Left out").
- `create_dbt_profile` fills the `{key}` placeholders of the template. Keys the template does not
  mention become dbt variables, dumped as YAML into `{vars_block}`. `{project_name}` gets a default.
- `indent_yaml_block` re-indents the dumped YAML, with list items two columns deeper than keys.
- The names of the intermediate JSON file and of the profile file are derived from the input file.

The Python class becomes the class `Mapper.TemplateProcessor`:

- The values its constructor loads (mapping table, template text, input record, directories) are
  constant fields.
- `intermediate_input` is the one field a method assigns.
- Each modelled Python method is a Dafny method with the same loops. Each is proved equal to a
  specification function: `Extracted`, `RenderedMappings`, `IndentBlock`, `RenderedProfile`,
  `OutputFileName` and `IntermediateFileName`.
- The lemmas in `RenderLemmas` and `ProfileLemmas` state what those functions guarantee.

Python dictionaries are association lists in insertion order (`Values.Entries`). `d[k] = v`
(`Values.Set`) keeps an existing key in its place and appends a new one. The Python code also
shares one `unknown_json` dictionary under `updated_json["unknown"]`. The model stores the updated
bucket again under `"unknown"` after each unresolved key, which yields the same final dictionary.

Modules:

- `Values`: values, dictionaries and Python truthiness.
- `PyStrings`: the string methods used (`lstrip`, `strip`, `split`, `splitlines`, `replace`), and `re.search` of a key as substring containment.
- `PyFormat`: `str()` and `repr()`.
- `YamlDump`: the YAML writer, in block style down to the items of a list.
- `PosixPath`: `basename`, `splitext` and `join`.
- `Mapper`: the processor.
- Three lemma modules.

The code keeps every unresolved key in the `"unknown"` entry, not only the last one. The model
follows the code.

## Model

| member | source | states |
|---|---|---|
| Mapper.TemplateProcessor.constructor | AUTO-DBT-PROFILE/utils/mapper.py:32-45 | the loaded configuration, mapping, template and input are kept as given; the intermediate input starts empty |
| Mapper.TemplateProcessor.ExtractValue | AUTO-DBT-PROFILE/utils/mapper.py:207-215 | the loop over the key's segments returns the value at the dotted path, or `""` once a step is not a mapping or lacks the key |
| RenderLemmas.ExtractedPlainKey | AUTO-DBT-PROFILE/utils/mapper.py:207-215 | a key without a dot yields the mapping's entry for it, or `""` when the table is not a mapping or has no such key |
| RenderLemmas.ExtractedDotted | AUTO-DBT-PROFILE/utils/mapper.py:207-212 | `a.b` looks `a` up first, then `b` in what that gave; a miss on `a` gives `""` |
| RenderLemmas.ResolveAppend | AUTO-DBT-PROFILE/utils/mapper.py:210-211 | walking a path `p + q` is walking `p` and then `q`, failing if either fails |
| Values.Get | AUTO-DBT-PROFILE/utils/mapper.py:211 | a lookup finds a value exactly when the key is among the dictionary's keys |
| Values.Set | AUTO-DBT-PROFILE/utils/mapper.py:125-126 | after `d[k] = v`, `k` holds `v` and every other key holds what it held |
| Values.SetKeys | AUTO-DBT-PROFILE/utils/mapper.py:125-126 | after `d[k] = v` the key order is kept, and a key not present before comes last |
| Values.SetNew | AUTO-DBT-PROFILE/utils/mapper.py:172 | assigning a key not yet present appends exactly that entry |
| Values.GetAt | AUTO-DBT-PROFILE/utils/mapper.py:164 | in a dictionary with unique keys, the entry at each position is the one a lookup of its key finds |
| Values.SetKeepsUnique | AUTO-DBT-PROFILE/utils/mapper.py:128 | assignment never makes a key appear twice |
| Mapper.Normalize | AUTO-DBT-PROFILE/utils/mapper.py:128-132 | `"yes"` becomes `True` and `"no"` becomes `False`; no other value is changed, and a stored value is never one of those two strings |
| Mapper.Step | AUTO-DBT-PROFILE/utils/mapper.py:123-143 | a resolved key sets its mapped name to the normalised value; an unresolved key is set in the bucket, which is stored again under `"unknown"`; nothing else changes; an unusable target, and only that, is an error |
| Mapper.Classify | AUTO-DBT-PROFILE/utils/mapper.py:123-128 | a key goes to the unknown bucket exactly when its lookup is falsy or the string `"unknown"`; a truthy string other than `"unknown"` renames the key to exactly that string; the key is rejected exactly when what was found is truthy and not a string |
| Mapper.TemplateProcessor.Place | AUTO-DBT-PROFILE/utils/mapper.py:134-143 | placing one top-level key gives the specification step: the unknown bucket, or the mapped name with the normalised value |
| Mapper.TemplateProcessor.PlaceAll | AUTO-DBT-PROFILE/utils/mapper.py:122-132 | the inner loop over `user_set_variables` places its keys one after the other and stops at the first error |
| Mapper.TemplateProcessor.RenderMappings | AUTO-DBT-PROFILE/utils/mapper.py:108-149 | on success the field becomes the renamed dictionary and the intermediate file's path is returned; on error the field keeps its old value |
| RenderLemmas.FoldFieldsAppend | AUTO-DBT-PROFILE/utils/mapper.py:120-143 | placing `a + b` is placing `a` and then `b` from where `a` left off |
| RenderLemmas.FoldRecordFlat | AUTO-DBT-PROFILE/utils/mapper.py:120-132 | the nested loop places the same keys, in the same order, as one flat loop over the keys with `user_set_variables` opened up; a non-mapping `user_set_variables` is an error |
| RenderLemmas.FoldFieldsOutcome | AUTO-DBT-PROFILE/utils/mapper.py:120-143 | placing succeeds exactly when every mapped name is usable; each name then holds the normalised value of its last key, the bucket holds every unresolved key with its last value, and `"unknown"` is present exactly when some key was unresolved |
| RenderLemmas.RenderClassification | AUTO-DBT-PROFILE/utils/mapper.py:116-145 | the same, stated for `render_mappings` on the whole input record |
| RenderLemmas.RenderRejectsBadVariables | AUTO-DBT-PROFILE/utils/mapper.py:121-122 | an input whose `user_set_variables` is not a mapping cannot be rendered |
| RenderLemmas.NoKeyDropped | AUTO-DBT-PROFILE/utils/mapper.py:120-143 | every placed key is either a key of the result under its mapped name or a key of the bucket stored under `"unknown"` |
| RenderLemmas.LastWriteWins | AUTO-DBT-PROFILE/utils/mapper.py:139-143 | of several keys mapped to one name, the value kept is the normalised value of the last one |
| RenderLemmas.LastResolvedAt | AUTO-DBT-PROFILE/utils/mapper.py:128-132 | the last key mapped to a name decides that name's value |
| RenderLemmas.LastUnknownAt | AUTO-DBT-PROFILE/utils/mapper.py:136 | the bucket keeps the last value of each unresolved key |
| RenderLemmas.LastResolvedSome | AUTO-DBT-PROFILE/utils/mapper.py:139 | a name some key maps to is defined in the result |
| RenderLemmas.LastUnknownSome | AUTO-DBT-PROFILE/utils/mapper.py:125 | an unresolved key is present in the bucket |
| RenderLemmas.FoldFieldsUnique | AUTO-DBT-PROFILE/utils/mapper.py:116-143 | the renamed dictionary and the bucket never hold a key twice |
| RenderLemmas.RenderedMappingsUnique | AUTO-DBT-PROFILE/utils/mapper.py:116-145 | the intermediate input `render_mappings` stores never holds a key twice, as the variable results about `create_dbt_profile` require |
| Mapper.TemplateProcessor.IndentYamlBlock | AUTO-DBT-PROFILE/utils/mapper.py:93-106 | the loop over the lines builds the indented text the specification function describes |
| Mapper.IndentLines | AUTO-DBT-PROFILE/utils/mapper.py:99-104 | there is one output line per input line |
| ProfileLemmas.IndentLineShape | AUTO-DBT-PROFILE/utils/mapper.py:100-104 | each line keeps its stripped content, indented by exactly `base_indent`, or `base_indent + 2` when it starts with `-` |
| ProfileLemmas.IndentLineNoBreaks | AUTO-DBT-PROFILE/utils/mapper.py:100-104 | indenting a line adds no line boundary |
| ProfileLemmas.IndentBlockLines | AUTO-DBT-PROFILE/utils/mapper.py:94-106 | for a non-empty text, the lines of the result are exactly the indented input lines |
| ProfileLemmas.IndentBlockEmpty | AUTO-DBT-PROFILE/utils/mapper.py:94-106 | an empty text becomes a single newline |
| ProfileLemmas.IndentLineTwice | AUTO-DBT-PROFILE/utils/mapper.py:100-104 | indenting an indented line changes nothing |
| ProfileLemmas.IndentBlockTwice | AUTO-DBT-PROFILE/utils/mapper.py:93-106 | indenting an indented block changes nothing |
| PyStrings.SplitLines | AUTO-DBT-PROFILE/utils/mapper.py:94 | `splitlines` gives no line exactly for the empty text |
| StringLemmas.SplitLinesOfJoined | AUTO-DBT-PROFILE/utils/mapper.py:94 | splitting lines joined by newlines with a final newline gives back the lines |
| StringLemmas.SplitLinesHaveNoBreaks | AUTO-DBT-PROFILE/utils/mapper.py:94 | no line produced by `splitlines` holds a line boundary |
| StringLemmas.CharOnSomeLine | AUTO-DBT-PROFILE/utils/mapper.py:94 | every character that is not a line boundary lands on some line |
| StringLemmas.LStripTwice | AUTO-DBT-PROFILE/utils/mapper.py:100 | stripping leading whitespace twice is stripping it once |
| StringLemmas.LStripAfterSpaces | AUTO-DBT-PROFILE/utils/mapper.py:102-104 | leading spaces added before a text are removed again by `lstrip` |
| PyStrings.LStrip | AUTO-DBT-PROFILE/utils/mapper.py:100 | the result is a suffix of the line; everything removed is whitespace, and the result does not start with whitespace |
| PyStrings.Split | AUTO-DBT-PROFILE/utils/mapper.py:207 | `split(".")` gives at least one segment and no segment holds a dot |
| StringLemmas.JoinOfSplit | AUTO-DBT-PROFILE/utils/mapper.py:207 | joining the segments with the separator gives back the key |
| StringLemmas.SplitOfJoin | AUTO-DBT-PROFILE/utils/mapper.py:207 | splitting segments joined by a separator they lack gives back the segments |
| Mapper.TemplateProcessor.CreateDbtProfile | AUTO-DBT-PROFILE/utils/mapper.py:156-194 | the loop over the intermediate input, the vars block and the two final replacements give the specified profile text; the returned path is the specified output name |
| ProfileLemmas.ProfileVariables | AUTO-DBT-PROFILE/utils/mapper.py:164-180 | the variables are intermediate entries in their order, with their values; an entry is among them exactly when its key is not `"unknown"` and the text left by the entries before it does not mention the key; the vars block is empty exactly when there are none |
| ProfileLemmas.VarsAreUnplacedEntries | AUTO-DBT-PROFILE/utils/mapper.py:164-172 | the loop only appends: the variables grow by a subsequence of the entries visited, holding exactly those entries that are not `"unknown"` and whose key the text did not mention at their turn |
| ProfileLemmas.AppendedStep | AUTO-DBT-PROFILE/utils/mapper.py:171-172 | a key that is neither `"unknown"` nor mentioned, and not yet a variable, is appended to the variables as exactly its own entry |
| Mapper.Substitute | AUTO-DBT-PROFILE/utils/mapper.py:165-172 | `"unknown"` changes nothing; a mentioned key leaves the variables as they were; an unmentioned key leaves the text as it was and sets that variable to its value, every other variable unchanged |
| Mapper.VarsBlock | AUTO-DBT-PROFILE/utils/mapper.py:174-180 | the block is empty or starts with `vars:` and a newline (when it is empty: `ProfileLemmas.VarsBlockEmptyIff`) |
| PyStrings.Strip | AUTO-DBT-PROFILE/utils/mapper.py:179 | the result neither starts nor ends with whitespace, is empty exactly when the text is all whitespace, and occurs in the text |
| StringLemmas.StripBetweenSpaces | AUTO-DBT-PROFILE/utils/mapper.py:179 | `strip` of a text between two runs of whitespace gives exactly that text, when it neither starts nor ends with whitespace |
| StringLemmas.RStripBeforeSpaces | AUTO-DBT-PROFILE/utils/mapper.py:179 | trailing whitespace makes no difference to `rstrip` |
| ProfileLemmas.PlaceholderMentionsKey | AUTO-DBT-PROFILE/utils/mapper.py:167 | a text holding `{key}` mentions `key`, so a key with a placeholder never becomes a variable |
| ProfileLemmas.MentionedWithoutPlaceholder | AUTO-DBT-PROFILE/utils/mapper.py:167-172 | a key the text mentions without braces is dropped: the text is unchanged and no variable is added |
| ProfileLemmas.PlaceholderReplaced | AUTO-DBT-PROFILE/utils/mapper.py:167-170 | after substituting a key, no `{key}` is left and no variable is added, provided the value's text holds no brace and does not occur inside `key` |
| StringLemmas.ReplaceAllRemoves | AUTO-DBT-PROFILE/utils/mapper.py:168-170 | `replace` leaves no occurrence of the pattern when the replacement holds neither the pattern's first nor its last character and does not occur between them |
| PyFormat.Repr | AUTO-DBT-PROFILE/utils/mapper.py:169 | the text of `None`, a boolean or an integer holds no brace, which meets the two brace conditions of `ProfileLemmas.PlaceholderReplaced` |
| ProfileLemmas.ScalarPlaceholderReplaced | AUTO-DBT-PROFILE/utils/mapper.py:167-170 | substituting `None`, a boolean or an integer leaves no `{key}` and adds no variable, provided the value's text does not occur inside the key |
| StringLemmas.ReplaceAllAbsent | AUTO-DBT-PROFILE/utils/mapper.py:168-170 | `replace` of an absent pattern changes nothing |
| StringLemmas.ContainsIsOccurs | AUTO-DBT-PROFILE/utils/mapper.py:167 | the containment test succeeds exactly when the key occurs somewhere in the text |
| PyStrings.FindSpec | AUTO-DBT-PROFILE/utils/mapper.py:167 | the search returns the first position where the pattern occurs, or -1 when it occurs nowhere |
| PyFormat.PyStr | AUTO-DBT-PROFILE/utils/mapper.py:169 | `str` of a string is the string itself; only the empty string gives the empty text |
| YamlDump.Dump | AUTO-DBT-PROFILE/utils/mapper.py:174-176 | the dump of an empty mapping is `{}` and a newline |
| YamlDump.DumpHasColon | AUTO-DBT-PROFILE/utils/mapper.py:174-176 | the dump of a non-empty mapping has a `:` right after its first key |
| ProfileLemmas.EmptyDumpStrips | AUTO-DBT-PROFILE/utils/mapper.py:177-179 | with no variables, the indented dump strips to `{}` |
| ProfileLemmas.ColonSurvivesIndent | AUTO-DBT-PROFILE/utils/mapper.py:177-179 | a `:` in the dump survives indentation and stripping, so a non-empty dump never strips to `{}` |
| ProfileLemmas.VarsBlockEmptyIff | AUTO-DBT-PROFILE/utils/mapper.py:174-182 | the vars block is empty exactly when there are no variables |
| Mapper.RenderedProfile | AUTO-DBT-PROFILE/utils/mapper.py:182-183 | the rendered profile holds no `{project_name}` |
| ProfileLemmas.EmptyInputProfile | AUTO-DBT-PROFILE/utils/mapper.py:160-183 | with an empty intermediate record no key is substituted: `{vars_block}` becomes the empty text and `{project_name}` the default name |
| ProfileLemmas.EmptyInputPlainTemplate | AUTO-DBT-PROFILE/utils/mapper.py:160-183 | with an empty intermediate record a template without `{vars_block}` and `{project_name}` is returned unchanged |
| Mapper.ProjectNameReplaced | AUTO-DBT-PROFILE/utils/mapper.py:183 | replacing `{project_name}` by the default name leaves none, whatever the text |
| PyStrings.ReplaceAll | AUTO-DBT-PROFILE/utils/mapper.py:168-170 | replacing an absent pattern changes nothing; when the pattern occurs, the replacement occurs in the result |
| StringLemmas.ReplaceAllFirst | AUTO-DBT-PROFILE/utils/mapper.py:168-170 | `replace` puts the replacement in place of the leftmost occurrence (as `PyStrings.FindSpec` fixes it) and goes on with the text after that occurrence |
| ProfileLemmas.OutputFileNameSpec | AUTO-DBT-PROFILE/utils/mapper.py:185-190 | the profile lies in the output directory and is named after the input's base name without its extension, plus `_profile.yml` |
| ProfileLemmas.IntermediateFileNameSpec | AUTO-DBT-PROFILE/utils/mapper.py:146-149 | the intermediate file lies in the intermediate directory and is named `updated_` plus the input's base name |
| PosixPath.Basename | AUTO-DBT-PROFILE/utils/mapper.py:188 | the base name is a suffix of the path and holds no `/` |
| PosixPath.SplitExt | AUTO-DBT-PROFILE/utils/mapper.py:187-189 | the root and the extension put together give the name back |
| PosixPath.SplitExtSpec | AUTO-DBT-PROFILE/utils/mapper.py:187-189 | the extension is empty, or a dot followed by neither `/` nor another dot |
| PosixPath.SplitExtAtDot | AUTO-DBT-PROFILE/utils/mapper.py:187-189 | a dot followed by neither `/` nor another dot starts the extension when some character before it in the last component is not a dot |
| PosixPath.BasenameOfJoin | AUTO-DBT-PROFILE/utils/mapper.py:185-190 | the base name of a directory joined with a plain name is that name |
| PosixPath.JoinPath | AUTO-DBT-PROFILE/utils/mapper.py:185-190 | the joined path ends with the name, and starts with the directory unless the name is absolute |
| ProfileLemmas.JoinKeepsDirectory | AUTO-DBT-PROFILE/utils/mapper.py:185-186 | joining a plain name keeps the directory as a prefix |

## Left out

- Loading files (`_read_file`, `_read_txt` and the constructor's reads): the loaded configuration, mapping, template and input are constructor parameters. A missing file and the unsupported file type error are not modelled.
- Writing files: the intermediate JSON dump and the profile write. `RenderMappings` returns the intermediate file's path and `CreateDbtProfile` returns the profile text with its path.
- Logging: it has no effect on the results.
- Mapper.Classify: a number or boolean found in the mapping table is rejected at rename time (`NonStringTarget`). The code stores it as a dictionary key, and that key fails later in the search of `create_dbt_profile`.
- Floating-point numbers, and JSON/YAML mapping keys that are not strings: values hold no floats, and mapping keys are strings.
- Regular expressions: `re.search(key, text)` is modelled as substring containment. Keys with regex metacharacters, and the error an invalid pattern raises, are not modelled.
- YamlDump.Dump: quoting and escaping of strings that YAML would quote (`"yes"`, strings with `:`, `#`, leading spaces) and line folding are not modelled. Strings are written plain.
- YamlDump.Dump: a list or mapping nested inside a list item is written in flow style (`- [1, 2]`, `- {b: 1}`), where `default_flow_style=False` writes block style (`- - 1` then `  - 2`, `- b: 1`). So the `vars:` block differs for such values. The model's results about the block (empty exactly when there are no variables, a colon after the first key) do not depend on it.
- PyFormat.PyStr: `repr` always uses single quotes and escapes nothing, whereas Python switches to double quotes for strings holding a single quote and escapes control characters.
- The test scenario of `AUTO-DBT-PROFILE/test/test_mapping_renderer.py` is not evaluated on its concrete strings. Its properties (renaming, yes/no to booleans, the vars block, the project name) are covered by the general lemmas above.
- `AUTO-DBT-PROFILE/utils/dbt_project.py` and `AUTO-DBT-PROFILE/solution.py` are not part of this model. They create directories, scan folders and write files.
