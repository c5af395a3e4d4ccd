/** The data the template processor handles: values loaded from JSON and YAML, and Python's
    insertion-ordered dictionaries, written as association lists. */
module Values {

  datatype Option<T> = None | Some(value: T)

  datatype Result<T, E> = Ok(value: T) | Err(error: E)

  /** A JSON or YAML value. Mappings keep their entries in insertion order, as Python's `dict` does. */
  datatype Value =
    | Null
    | Bool(b: bool)
    | Int(i: int)
    | Str(s: string)
    | List(items: seq<Value>)
    | Dict(entries: Entries)

  type Entries = seq<(string, Value)>

  /** Python's truth value: `None`, `False`, `0` and empty strings and collections are false. */
  predicate Truthy(v: Value) {
    match v
    case Null => false
    case Bool(b) => b
    case Int(i) => i != 0
    case Str(s) => s != []
    case List(items) => items != []
    case Dict(es) => es != []
  }

  /** `list(d.keys())`, in insertion order. */
  function Keys(m: Entries): (r: seq<string>)
    ensures |r| == |m|
    ensures forall i :: 0 <= i < |m| ==> r[i] == m[i].0
  {
    if m == [] then [] else [m[0].0] + Keys(m[1..])
  }

  /** No key occurs twice, which holds of every Python `dict`. */
  predicate UniqueKeys(m: Entries) {
    forall i, j :: 0 <= i < j < |m| ==> m[i].0 != m[j].0
  }

  /** `d.get(k)`: the value stored under `k`, if any. */
  function Get(m: Entries, k: string): (r: Option<Value>)
    ensures r.Some? <==> k in Keys(m)
  {
    if m == [] then None
    else if m[0].0 == k then Some(m[0].1)
    else Get(m[1..], k)
  }

  /** `d[k] = v`: an existing key keeps its position and takes the new value; a new key goes last. */
  function Set(m: Entries, k: string, v: Value): (r: Entries)
    ensures Get(r, k) == Some(v)
    ensures forall k' :: k' != k ==> Get(r, k') == Get(m, k')
  {
    if m == [] then [(k, v)]
    else if m[0].0 == k then [(k, v)] + m[1..]
    else [m[0]] + Set(m[1..], k, v)
  }

  /** The entry at index `i` is the one `Get` finds when keys are unique. */
  lemma GetAt(m: Entries, i: nat)
    requires UniqueKeys(m) && i < |m|
    ensures Get(m, m[i].0) == Some(m[i].1)
  {
    if i > 0 {
      assert m[0].0 != m[i].0;
      assert UniqueKeys(m[1..]) by {
        assert forall j :: 0 <= j < |m| - 1 ==> m[1..][j] == m[j + 1];
      }
      GetAt(m[1..], i - 1);
    }
  }

  /** An existing key keeps its position; a new key is added last. */
  lemma {:induction false} SetKeys(m: Entries, k: string, v: Value)
    ensures Keys(Set(m, k, v)) == if k in Keys(m) then Keys(m) else Keys(m) + [k]
    decreases |m|, 1
  {
    if m != [] && m[0].0 != k {
      SetKeysBeyondHead(m, k, v);
    } else if m != [] {
      var r := [(k, v)] + m[1..];
      assert r[1..] == m[1..];
    }
  }

  lemma {:induction false} SetKeysBeyondHead(m: Entries, k: string, v: Value)
    requires m != [] && m[0].0 != k
    ensures Keys(Set(m, k, v)) == if k in Keys(m) then Keys(m) else Keys(m) + [k]
    decreases |m|, 0
  {
    var tail := Set(m[1..], k, v);
    var rest := Keys(m[1..]);
    SetKeys(m[1..], k, v);
    assert Keys(m) == [m[0].0] + rest;
    assert Keys(Set(m, k, v)) == [m[0].0] + Keys(tail) by {
      var r := [m[0]] + tail;
      assert r[1..] == tail;
    }
    if k in rest {
      assert k in Keys(m);
    } else {
      assert k !in Keys(m);
      KeysConsThenAppend(m[0].0, rest, k);
    }
  }

  lemma KeysConsThenAppend(a: string, ks: seq<string>, last: string)
    ensures [a] + (ks + [last]) == ([a] + ks) + [last]
  {
  }

  /** Assignment keeps the keys of a dictionary unique. */
  lemma SetKeepsUnique(m: Entries, k: string, v: Value)
    requires UniqueKeys(m)
    ensures UniqueKeys(Set(m, k, v))
  {
    var r := Set(m, k, v);
    SetKeys(m, k, v);
    forall i, j | 0 <= i < j < |r|
      ensures r[i].0 != r[j].0
    {
      assert Keys(r)[i] == r[i].0 && Keys(r)[j] == r[j].0;
      if j < |m| {
        assert Keys(m)[i] == m[i].0 && Keys(m)[j] == m[j].0;
      } else {
        assert Keys(m)[i] == m[i].0;
      }
    }
  }

  /** Assigning a new key appends it. */
  lemma SetNew(m: Entries, k: string, v: Value)
    requires k !in Keys(m)
    ensures Set(m, k, v) == m + [(k, v)]
  {
    if m != [] {
      var tail := m[1..];
      assert m[0].0 != k by {
        assert Keys(m)[0] == m[0].0;
      }
      assert k !in Keys(tail) by {
        assert forall i :: 0 <= i < |tail| ==> Keys(tail)[i] == Keys(m)[i + 1];
      }
      SetNew(tail, k, v);
      assert m == [m[0]] + tail;
      ConsThenAppend(m[0], tail, (k, v));
    }
  }

  lemma ConsThenAppend(e: (string, Value), m: Entries, last: (string, Value))
    ensures ([e] + m) + [last] == [e] + (m + [last])
  {
  }
}
