/** Python's `str()` and `repr()` of the values the processor substitutes into a template. */
module PyFormat {
  import opened Values
  import opened PyStrings

  /** `"".join` of pieces separated by `", "`. */
  function CommaJoin(parts: seq<string>): string {
    JoinWith(parts, ", ")
  }

  /** `repr(s)` of a string. */
  function Quoted(s: string): string {
    "'" + s + "'"
  }

  /** `repr(v)`: strings in single quotes, containers as Python displays them. */
  function Repr(v: Value): (r: string)
    ensures |r| >= 1
    ensures (v.Null? || v.Bool? || v.Int?) ==> '{' !in r && '}' !in r
    decreases v
  {
    match v
    case Null => "None"
    case Bool(b) => if b then "True" else "False"
    case Int(i) => IntToDecimal(i)
    case Str(s) => Quoted(s)
    case List(items) =>
      "[" + CommaJoin(seq(|items|, k requires 0 <= k < |items| => Repr(items[k]))) + "]"
    case Dict(es) =>
      "{" + CommaJoin(seq(|es|, k requires 0 <= k < |es| => Quoted(es[k].0) + ": " + Repr(es[k].1))) + "}"
  }

  /** `str(v)`: a string is itself, anything else is its `repr`; only the empty string prints as nothing. */
  function PyStr(v: Value): (r: string)
    ensures r == [] <==> v == Str([])
    ensures v.Str? ==> r == v.s
  {
    if v.Str? then v.s else Repr(v)
  }
}
