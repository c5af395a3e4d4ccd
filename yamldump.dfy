/** `yaml.dump(d, default_flow_style=False, sort_keys=False)` for the mappings the processor dumps:
    keys in insertion order, an empty mapping written as `{}`. Mappings and the lists under a key
    are written in block style; a list or mapping nested inside a list item is written in flow
    style, where PyYAML would use block style there too. */
module YamlDump {
  import opened Values
  import opened PyStrings

  /** A scalar as YAML writes it. */
  function Scalar(v: Value): string {
    match v
    case Null => "null"
    case Bool(b) => if b then "true" else "false"
    case Int(i) => IntToDecimal(i)
    case Str(s) => s
    case _ => ""
  }

  /** A collection nested inside a list item, in flow style. */
  function Flow(v: Value): string
    decreases v
  {
    match v
    case List(items) =>
      "[" + JoinWith(seq(|items|, k requires 0 <= k < |items| => Flow(items[k])), ", ") + "]"
    case Dict(es) =>
      "{" + JoinWith(seq(|es|, k requires 0 <= k < |es| => es[k].0 + ": " + Flow(es[k].1)), ", ") + "}"
    case _ => Scalar(v)
  }

  /** One `key: value` entry at the given indentation, with its nested lines. */
  function Entry(key: string, v: Value, indent: nat): (r: string)
    ensures StartsWith(r, Spaces(indent) + key + ":")
    decreases v, 1
  {
    var head := Spaces(indent) + key + ":";
    head + (
      match v
      case List(items) =>
        if items == [] then " []\n"
        else "\n" + Concat(seq(|items|, k requires 0 <= k < |items| => Spaces(indent) + "- " + Flow(items[k]) + "\n"))
      case Dict(es) =>
        if es == [] then " {}\n" else "\n" + Mapping(v, indent + 2)
      case _ => " " + Scalar(v) + "\n")
  }

  /** The entries of a mapping, one after the other. */
  function Mapping(m: Value, indent: nat): string
    requires m.Dict?
    decreases m, 0
  {
    Concat(seq(|m.entries|, k requires 0 <= k < |m.entries| => Entry(m.entries[k].0, m.entries[k].1, indent)))
  }

  /** The whole document for a top-level mapping. */
  function Dump(es: Entries): (r: string)
    ensures es == [] ==> r == "{}\n"
  {
    if es == [] then "{}\n" else Mapping(Dict(es), 0)
  }

  /** A non-empty mapping dumps to text holding a `:` right after its first key. */
  lemma DumpHasColon(es: Entries)
    requires es != []
    ensures |es[0].0| < |Dump(es)| && Dump(es)[|es[0].0|] == ':'
  {
    var parts := seq(|es|, k requires 0 <= k < |es| => Entry(es[k].0, es[k].1, 0));
    assert Dump(es) == Concat(parts) == parts[0] + Concat(parts[1..]);
    var head := Spaces(0) + es[0].0 + ":";
    assert StartsWith(parts[0], head);
    assert parts[0][..|head|] == head;
    assert head[|es[0].0|] == ':';
  }
}
