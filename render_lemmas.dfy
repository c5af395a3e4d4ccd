/** What `render_mappings` makes of an input: where each key goes, which value wins, and when the
    "unknown" entry appears. */
module RenderLemmas {
  import opened Values
  import opened PyStrings
  import opened StringLemmas
  import opened Mapper

  /* ---------- The mapping lookup ---------- */

  /** A lookup along `p + q` is a lookup along `p`, continued along `q`. */
  lemma {:induction false} ResolveAppend(v: Value, p: seq<string>, q: seq<string>)
    ensures Resolve(v, p + q) == match Resolve(v, p) case Some(w) => Resolve(w, q) case None => None
    decreases |p|
  {
    if p == [] {
      assert p + q == q;
    } else {
      assert (p + q)[0] == p[0] && (p + q)[1..] == p[1..] + q;
      if v.Dict? {
        match Get(v.entries, p[0])
        case Some(w) => ResolveAppend(w, p[1..], q);
        case None =>
      }
    }
  }

  /** Splitting at a separator that the first part lacks splits off that part whole. */
  lemma SplitAround(a: string, b: string, c: char)
    requires c !in a
    ensures Split(a + [c] + b, c) == [a] + Split(b, c)
  {
    var s := a + [c] + b;
    var i := IndexOfChar(s, c);
    assert s[|a|] == c;
    assert forall j :: 0 <= j < |a| ==> s[j] == a[j];
    assert i == |a|;
    assert s[..i] == a && s[i + 1..] == b;
  }

  /** A key without a dot is looked up directly in the mapping; a failed lookup gives `""`. */
  lemma ExtractedPlainKey(table: Value, key: string)
    requires '.' !in key
    ensures Extracted(table, key) ==
      if table.Dict? && Get(table.entries, key).Some? then Get(table.entries, key).value else Str("")
  {
    assert forall j :: 0 <= j < |key| ==> key[j] != '.';
    assert IndexOfChar(key, '.') == |key|;
    assert Split(key, '.') == [key];
    assert [key][1..] == [];
    if table.Dict? && Get(table.entries, key).Some? {
      assert Resolve(table, [key]) == Resolve(Get(table.entries, key).value, []);
    }
  }

  /** `a.b` looks `a` up in the mapping, then `b` in what that gives. */
  lemma ExtractedDotted(table: Value, a: string, b: string)
    requires '.' !in a
    ensures Extracted(table, a + "." + b) ==
      match Resolve(table, [a]) case Some(w) => Extracted(w, b) case None => Str("")
  {
    SplitAround(a, b, '.');
    ResolveAppend(table, [a], Split(b, '.'));
  }

  /* ---------- The keys `render_mappings` visits ---------- */

  /** The key/value pairs placed, in order: `user_set_variables` stands for its own pairs. */
  function Fields(es: Entries): Result<Entries, Error>
    decreases |es|
  {
    if es == [] then Ok([])
    else
      var (key, value) := es[0];
      match Fields(es[1..])
      case Err(e) => Err(e)
      case Ok(rest) =>
        if key != UserSetVariables then Ok([es[0]] + rest)
        else if value.Dict? then Ok(value.entries + rest)
        else Err(NotAMapping)
  }

  /** Placing `a + b` is placing `a`, then `b`. */
  lemma {:induction false} FoldFieldsAppend(t: Value, acc: Buckets, a: Entries, b: Entries)
    ensures FoldFields(t, acc, a + b) ==
      match FoldFields(t, acc, a) case Ok(x) => FoldFields(t, x, b) case Err(e) => Err(e)
    decreases |a|
  {
    if a == [] {
      assert a + b == b;
    } else {
      assert (a + b)[0] == a[0] && (a + b)[1..] == a[1..] + b;
      match Step(t, acc, a[0].0, a[0].1)
      case Ok(next) => FoldFieldsAppend(t, next, a[1..], b);
      case Err(e) =>
    }
  }

  /** The nested loop over `user_set_variables` places the same pairs as one flat loop would. */
  lemma {:induction false} FoldRecordFlat(t: Value, acc: Buckets, es: Entries)
    ensures Fields(es).Ok? ==> FoldRecord(t, acc, es) == FoldFields(t, acc, Fields(es).value)
    ensures Fields(es).Err? ==> FoldRecord(t, acc, es).Err?
    decreases |es|
  {
    if es != [] {
      var (key, value) := es[0];
      var next :=
        if key == UserSetVariables then
          (if value.Dict? then FoldFields(t, acc, value.entries) else Err(NotAMapping))
        else Step(t, acc, key, value);
      if next.Ok? {
        FoldRecordFlat(t, next.value, es[1..]);
      }
      if Fields(es).Ok? {
        var rest := Fields(es[1..]).value;
        if key == UserSetVariables {
          FoldFieldsAppend(t, acc, value.entries, rest);
        } else {
          FoldFieldsAppend(t, acc, [es[0]], rest);
          assert FoldFields(t, acc, [es[0]]) == next by {
            assert [es[0]][1..] == [];
          }
        }
      }
    }
  }

  /* ---------- Where each key goes ---------- */

  function TargetOf(t: Value, key: string): Target {
    Classify(Extracted(t, key))
  }

  /** The normalized value of the last pair whose key maps to `name`. */
  function LastResolved(t: Value, fs: Entries, name: string): Option<Value>
    decreases |fs|
  {
    if fs == [] then None
    else
      var last := fs[|fs| - 1];
      if TargetOf(t, last.0) == Resolved(name) then Some(Normalize(last.1))
      else LastResolved(t, fs[..|fs| - 1], name)
  }

  /** The value of the last pair with key `key` whose lookup is falsy or the string `"unknown"`. */
  function LastUnknown(t: Value, fs: Entries, key: string): Option<Value>
    decreases |fs|
  {
    if fs == [] then None
    else
      var last := fs[|fs| - 1];
      if last.0 == key && TargetOf(t, key) == Unknown then Some(last.1)
      else LastUnknown(t, fs[..|fs| - 1], key)
  }

  predicate AnyUnknown(t: Value, fs: Entries) {
    exists i :: 0 <= i < |fs| && TargetOf(t, fs[i].0) == Unknown
  }

  predicate AllUsable(t: Value, fs: Entries) {
    forall i :: 0 <= i < |fs| ==> !TargetOf(t, fs[i].0).Unusable?
  }

  /** What the dictionary built from `fs` holds: each name the value of its last pair, and an
      "unknown" entry, present exactly when some key had no mapping, holding the unknown bucket. */
  ghost predicate Describes(t: Value, fs: Entries, a: Buckets) {
    && (forall n :: n != UnknownKey ==> Get(a.updated, n) == LastResolved(t, fs, n))
    && (forall k :: Get(a.unknown, k) == LastUnknown(t, fs, k))
    && Get(a.updated, UnknownKey) == (if AnyUnknown(t, fs) then Some(Dict(a.unknown)) else None)
  }

  /** Placing the pairs one by one succeeds exactly when every mapped name is usable, and then
      builds the dictionary `Describes` tells of. */
  lemma {:induction false} FoldFieldsOutcome(t: Value, fs: Entries)
    ensures FoldFields(t, NoBuckets, fs).Ok? <==> AllUsable(t, fs)
    ensures FoldFields(t, NoBuckets, fs).Ok? ==> Describes(t, fs, FoldFields(t, NoBuckets, fs).value)
    decreases |fs|
  {
    if fs == [] {
      assert Get([], UnknownKey) == None;
    } else {
      var init := fs[..|fs| - 1];
      var p := fs[|fs| - 1];
      assert fs == init + [p];
      FoldFieldsOutcome(t, init);
      FoldFieldsAppend(t, NoBuckets, init, [p]);
      SnocFacts(t, init, p);
      var prev := FoldFields(t, NoBuckets, init);
      if prev.Ok? {
        var x := prev.value;
        FoldOne(t, x, p);
        if !TargetOf(t, p.0).Unusable? {
          PlaceOne(t, init, p, x);
        }
      }
    }
  }

  /** Placing a single pair is one step. */
  lemma FoldOne(t: Value, acc: Buckets, p: (string, Value))
    ensures FoldFields(t, acc, [p]) == Step(t, acc, p.0, p.1)
  {
    assert [p][1..] == [];
  }

  /** Which keys are usable or unknown, one pair longer. */
  lemma SnocFacts(t: Value, init: Entries, p: (string, Value))
    ensures AllUsable(t, init + [p]) <==> AllUsable(t, init) && !TargetOf(t, p.0).Unusable?
    ensures AnyUnknown(t, init + [p]) <==> AnyUnknown(t, init) || TargetOf(t, p.0) == Unknown
  {
    var fs := init + [p];
    assert forall i :: 0 <= i < |init| ==> init[i] == fs[i];
    assert fs[|init|] == p;
    if AnyUnknown(t, fs) && TargetOf(t, p.0) != Unknown {
      var i :| 0 <= i < |fs| && TargetOf(t, fs[i].0) == Unknown;
      assert i < |init|;
    }
  }

  /** How the last value for each name, and for each unknown key, changes with one more pair. */
  ghost predicate LastsExtend(t: Value, init: Entries, p: (string, Value)) {
    && (forall n :: LastResolved(t, init + [p], n) ==
          (if TargetOf(t, p.0) == Resolved(n) then Some(Normalize(p.1)) else LastResolved(t, init, n)))
    && (forall k :: LastUnknown(t, init + [p], k) ==
          (if p.0 == k && TargetOf(t, k) == Unknown then Some(p.1) else LastUnknown(t, init, k)))
  }

  /** One more pair: the last value for each name and each unknown key. */
  lemma SnocLast(t: Value, init: Entries, p: (string, Value))
    ensures LastsExtend(t, init, p)
  {
    var fs := init + [p];
    assert fs[..|fs| - 1] == init && fs[|fs| - 1] == p;
  }

  /** One more pair keeps the description true. */
  lemma PlaceOne(t: Value, init: Entries, p: (string, Value), x: Buckets)
    requires Describes(t, init, x)
    requires !TargetOf(t, p.0).Unusable?
    requires AnyUnknown(t, init + [p]) <==> AnyUnknown(t, init) || TargetOf(t, p.0) == Unknown
    ensures Step(t, x, p.0, p.1).Ok? && Describes(t, init + [p], Step(t, x, p.0, p.1).value)
  {
    SnocLast(t, init, p);
    if TargetOf(t, p.0) == Unknown {
      PlaceUnknown(t, init, p, x);
    } else {
      PlaceResolved(t, init, p, x, TargetOf(t, p.0).name);
    }
  }

  lemma PlaceUnknown(t: Value, init: Entries, p: (string, Value), x: Buckets)
    requires Describes(t, init, x)
    requires TargetOf(t, p.0) == Unknown && AnyUnknown(t, init + [p])
    requires LastsExtend(t, init, p)
    ensures Step(t, x, p.0, p.1).Ok? && Describes(t, init + [p], Step(t, x, p.0, p.1).value)
  {
    var fs := init + [p];
    var unknown := Set(x.unknown, p.0, p.1);
    var a := Buckets(Set(x.updated, UnknownKey, Dict(unknown)), unknown);
    assert Step(t, x, p.0, p.1) == Ok(a);
    forall n | n != UnknownKey
      ensures Get(a.updated, n) == LastResolved(t, fs, n)
    {
      assert Get(a.updated, n) == Get(x.updated, n);
    }
    forall k
      ensures Get(a.unknown, k) == LastUnknown(t, fs, k)
    {
      if k != p.0 {
        assert Get(a.unknown, k) == Get(x.unknown, k);
      }
    }
  }

  lemma PlaceResolved(t: Value, init: Entries, p: (string, Value), x: Buckets, name: string)
    requires Describes(t, init, x)
    requires TargetOf(t, p.0) == Resolved(name)
    requires AnyUnknown(t, init + [p]) <==> AnyUnknown(t, init)
    requires LastsExtend(t, init, p)
    ensures Step(t, x, p.0, p.1).Ok? && Describes(t, init + [p], Step(t, x, p.0, p.1).value)
  {
    var fs := init + [p];
    var a := Buckets(Set(x.updated, name, Normalize(p.1)), x.unknown);
    assert Step(t, x, p.0, p.1) == Ok(a);
    forall n | n != UnknownKey
      ensures Get(a.updated, n) == LastResolved(t, fs, n)
    {
      if n != name {
        assert Get(a.updated, n) == Get(x.updated, n);
      }
    }
    assert Get(a.updated, UnknownKey) == Get(x.updated, UnknownKey);
  }

  /** `render_mappings`, stated on the flat sequence of pairs it places. */
  lemma RenderClassification(t: Value, input: Value)
    requires input.Dict? && Fields(input.entries).Ok?
    ensures var fs := Fields(input.entries).value;
      && (RenderedMappings(t, input).Ok? <==> AllUsable(t, fs))
      && (RenderedMappings(t, input).Ok? ==>
            var u := RenderedMappings(t, input).value;
            && (forall n :: n != UnknownKey ==> Get(u, n) == LastResolved(t, fs, n))
            && (Get(u, UnknownKey).Some? <==> AnyUnknown(t, fs))
            && (Get(u, UnknownKey).Some? ==>
                  Get(u, UnknownKey).value.Dict? &&
                  forall k :: Get(Get(u, UnknownKey).value.entries, k) == LastUnknown(t, fs, k)))
  {
    var fs := Fields(input.entries).value;
    FoldRecordFlat(t, NoBuckets, input.entries);
    FoldFieldsOutcome(t, fs);
  }

  /** An input whose `user_set_variables` is not a mapping cannot be rendered. */
  lemma RenderRejectsBadVariables(t: Value, input: Value)
    requires input.Dict? && Fields(input.entries).Err?
    ensures RenderedMappings(t, input).Err?
  {
    FoldRecordFlat(t, NoBuckets, input.entries);
  }

  /* ---------- Consequences ---------- */

  /** The intermediate input `render_mappings` stores never holds a key twice, like any dictionary. */
  lemma RenderedMappingsUnique(t: Value, input: Value)
    ensures RenderedMappings(t, input).Ok? ==> UniqueKeys(RenderedMappings(t, input).value)
  {
    if input.Dict? {
      FoldRecordFlat(t, NoBuckets, input.entries);
      if Fields(input.entries).Ok? {
        FoldFieldsUnique(t, NoBuckets, Fields(input.entries).value);
      }
    }
  }

  /** The pair at `j` is the last one mapping to `name`: its value is the one kept. */
  lemma {:induction false} LastResolvedAt(t: Value, fs: Entries, j: nat, name: string)
    requires j < |fs| && TargetOf(t, fs[j].0) == Resolved(name)
    requires forall l :: j < l < |fs| ==> TargetOf(t, fs[l].0) != Resolved(name)
    ensures LastResolved(t, fs, name) == Some(Normalize(fs[j].1))
    decreases |fs|
  {
    if j < |fs| - 1 {
      var init := fs[..|fs| - 1];
      assert forall l :: 0 <= l < |init| ==> init[l] == fs[l];
      LastResolvedAt(t, init, j, name);
    }
  }

  /** The pair at `j` is the last unknown one with its key: its value is the one kept. */
  lemma {:induction false} LastUnknownAt(t: Value, fs: Entries, j: nat)
    requires j < |fs| && TargetOf(t, fs[j].0) == Unknown
    requires forall l :: j < l < |fs| ==> fs[l].0 != fs[j].0
    ensures LastUnknown(t, fs, fs[j].0) == Some(fs[j].1)
    decreases |fs|
  {
    if j < |fs| - 1 {
      var init := fs[..|fs| - 1];
      assert forall l :: 0 <= l < |init| ==> init[l] == fs[l];
      LastUnknownAt(t, init, j);
    }
  }

  /** A pair whose key maps to `name` leaves `name` defined. */
  lemma {:induction false} LastResolvedSome(t: Value, fs: Entries, j: nat, name: string)
    requires j < |fs| && TargetOf(t, fs[j].0) == Resolved(name)
    ensures LastResolved(t, fs, name).Some?
    decreases |fs|
  {
    if j < |fs| - 1 {
      var init := fs[..|fs| - 1];
      assert init[j] == fs[j];
      LastResolvedSome(t, init, j, name);
    }
  }

  /** An unknown pair leaves its key in the unknown bucket. */
  lemma {:induction false} LastUnknownSome(t: Value, fs: Entries, j: nat)
    requires j < |fs| && TargetOf(t, fs[j].0) == Unknown
    ensures LastUnknown(t, fs, fs[j].0).Some?
    decreases |fs|
  {
    if j < |fs| - 1 && fs[|fs| - 1].0 != fs[j].0 {
      var init := fs[..|fs| - 1];
      assert init[j] == fs[j];
      LastUnknownSome(t, init, j);
    }
  }

  /** No key is dropped: each placed pair ends up under its mapped name, or in the unknown bucket
      (every one of them, not only the last). */
  lemma NoKeyDropped(t: Value, fs: Entries, j: nat)
    requires j < |fs| && FoldFields(t, NoBuckets, fs).Ok?
    ensures var a := FoldFields(t, NoBuckets, fs).value;
      match TargetOf(t, fs[j].0)
      case Resolved(name) => name in Keys(a.updated)
      case Unknown => fs[j].0 in Keys(a.unknown) && Get(a.updated, UnknownKey) == Some(Dict(a.unknown))
      case Unusable(_) => false
  {
    FoldFieldsOutcome(t, fs);
    match TargetOf(t, fs[j].0)
    case Resolved(name) =>
      LastResolvedSome(t, fs, j, name);
    case Unknown =>
      LastUnknownSome(t, fs, j);
    case Unusable(_) =>
  }

  /** Last write wins: of two pairs mapping to the same name, the later one's value is kept. */
  lemma LastWriteWins(t: Value, fs: Entries, j: nat, name: string)
    requires FoldFields(t, NoBuckets, fs).Ok?
    requires j < |fs| && TargetOf(t, fs[j].0) == Resolved(name)
    requires forall l :: j < l < |fs| ==> TargetOf(t, fs[l].0) != Resolved(name)
    ensures Get(FoldFields(t, NoBuckets, fs).value.updated, name) == Some(Normalize(fs[j].1))
  {
    FoldFieldsOutcome(t, fs);
    LastResolvedAt(t, fs, j, name);
  }

  /** The dictionary built is a real dictionary: no name appears twice. */
  lemma {:induction false} FoldFieldsUnique(t: Value, acc: Buckets, fs: Entries)
    requires UniqueKeys(acc.updated) && UniqueKeys(acc.unknown)
    ensures FoldFields(t, acc, fs).Ok? ==>
      UniqueKeys(FoldFields(t, acc, fs).value.updated) && UniqueKeys(FoldFields(t, acc, fs).value.unknown)
    decreases |fs|
  {
    if fs != [] {
      var (key, value) := fs[0];
      match Classify(Extracted(t, key))
      case Unknown =>
        var unknown := Set(acc.unknown, key, value);
        SetKeepsUnique(acc.unknown, key, value);
        SetKeepsUnique(acc.updated, UnknownKey, Dict(unknown));
        FoldFieldsUnique(t, Buckets(Set(acc.updated, UnknownKey, Dict(unknown)), unknown), fs[1..]);
      case Resolved(name) =>
        SetKeepsUnique(acc.updated, name, Normalize(value));
        FoldFieldsUnique(t, Buckets(Set(acc.updated, name, Normalize(value)), acc.unknown), fs[1..]);
      case Unusable(_) =>
    }
  }
}
