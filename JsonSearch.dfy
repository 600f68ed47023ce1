/** The JSON side of the search (`find_in_json`, nested in
    `ParserApp.parse_json`): every key of every object, at any depth, is
    compared with the query, and matching `(key, value)` pairs are
    collected depth first, in the order the decoded document keeps. */
module JsonSearch {
  import opened PyText

  /** What `json.loads` produces. An object keeps its items in insertion
      order, as a Python dict does. */
  datatype Json =
    | Null
    | Bool(b: bool)
    | Int(i: int)
    | Float(f: real)
    | Str(s: string)
    | Arr(items: seq<Json>)
    | Obj(entries: seq<(string, Json)>)

  /** `type(value).__name__` for each kind of decoded value. */
  function TypeName(v: Json): string {
    match v
    case Null => "NoneType"
    case Bool(_) => "bool"
    case Int(_) => "int"
    case Float(_) => "float"
    case Str(_) => "str"
    case Arr(_) => "list"
    case Obj(_) => "dict"
  }

  /** The type name tells the kinds of value apart. */
  lemma TypeNameTellsKind(a: Json, b: Json)
    ensures TypeName(a) == TypeName(b) <==>
      (a.Null? && b.Null?) || (a.Bool? && b.Bool?) || (a.Int? && b.Int?)
      || (a.Float? && b.Float?) || (a.Str? && b.Str?) || (a.Arr? && b.Arr?)
      || (a.Obj? && b.Obj?)
  {
  }

  /** `path == '*' or key == path`. */
  predicate KeyMatches(path: string, key: string) {
    path == "*" || key == path
  }

  /** The pairs the search reports: for each item of an object, the item
      itself if its key matches, then what lies inside its value; for an
      array, what lies inside each element; nothing for a scalar. */
  function Find(v: Json, path: string): seq<(string, Json)> {
    match v
    case Obj(es) =>
      Flatten(seq(|es|, i requires 0 <= i < |es| =>
        (if KeyMatches(path, es[i].0) then [es[i]] else []) + Find(es[i].1, path)))
    case Arr(xs) =>
      Flatten(seq(|xs|, i requires 0 <= i < |xs| => Find(xs[i], path)))
    case _ => []
  }

  /** `find_in_json(obj, path)`: loops over items and elements, appending
      matches and extending with the results of the recursive calls. */
  method FindInJson(obj: Json, path: string) returns (results: seq<(string, Json)>)
    ensures results == Find(obj, path)
  {
    results := [];
    match obj {
      case Obj(es) =>
        ghost var chunks := seq(|es|, i requires 0 <= i < |es| =>
          (if KeyMatches(path, es[i].0) then [es[i]] else []) + Find(es[i].1, path));
        for n := 0 to |es|
          invariant results == Flatten(chunks[..n])
        {
          FlattenSnoc(chunks, n);
          ghost var before := results;
          var (key, value) := es[n];
          ghost var own := if KeyMatches(path, key) then [(key, value)] else [];
          if path == "*" || key == path {
            results := results + [(key, value)];
          }
          assert results == before + own;
          if value.Obj? || value.Arr? {
            var inner := FindInJson(value, path);
            results := results + inner;
            AppendAssoc(before, own, inner);
          } else {
            assert own + Find(value, path) == own;
          }
          assert chunks[n] == own + Find(value, path);
        }
        assert chunks[..|es|] == chunks;
      case Arr(xs) =>
        ghost var chunks := seq(|xs|, i requires 0 <= i < |xs| => Find(xs[i], path));
        for n := 0 to |xs|
          invariant results == Flatten(chunks[..n])
        {
          FlattenSnoc(chunks, n);
          var inner := FindInJson(xs[n], path);
          results := results + inner;
        }
        assert chunks[..|xs|] == chunks;
      case _ =>
    }
  }

  // ----- What the search reports -----

  /** The number of keys in all objects nested anywhere in `v`, itself included. */
  function KeyCount(v: Json): nat {
    match v
    case Obj(es) => |es| + Sum(seq(|es|, i requires 0 <= i < |es| => KeyCount(es[i].1)))
    case Arr(xs) => Sum(seq(|xs|, i requires 0 <= i < |xs| => KeyCount(xs[i])))
    case _ => 0
  }

  /** The pairs of `rs` whose key matches `path`, in order. */
  function KeepMatching(rs: seq<(string, Json)>, path: string): (kept: seq<(string, Json)>)
    ensures forall r :: r in kept <==> r in rs && KeyMatches(path, r.0)
  {
    if rs == [] then []
    else
      KeepMatching(rs[..|rs| - 1], path)
      + (if KeyMatches(path, rs[|rs| - 1].0) then [rs[|rs| - 1]] else [])
  }

  lemma {:induction false} KeepMatchingAppend(a: seq<(string, Json)>, b: seq<(string, Json)>, path: string)
    ensures KeepMatching(a + b, path) == KeepMatching(a, path) + KeepMatching(b, path)
  {
    if b != [] {
      assert (a + b)[..|a + b| - 1] == a + b[..|b| - 1];
      KeepMatchingAppend(a, b[..|b| - 1], path);
    } else {
      assert a + b == a;
    }
  }

  /** Filtering a concatenation piece by piece. */
  lemma {:induction false} KeepMatchingFlatten(ss: seq<seq<(string, Json)>>, ts: seq<seq<(string, Json)>>, path: string)
    requires |ss| == |ts|
    requires forall i :: 0 <= i < |ss| ==> KeepMatching(ss[i], path) == ts[i]
    ensures KeepMatching(Flatten(ss), path) == Flatten(ts)
  {
    if ss != [] {
      KeepMatchingFlatten(ss[..|ss| - 1], ts[..|ts| - 1], path);
      KeepMatchingAppend(Flatten(ss[..|ss| - 1]), ss[|ss| - 1], path);
    }
  }

  /** With `*` every key of every nested object is reported. */
  lemma {:induction false} WildcardCountsEveryKey(v: Json)
    ensures |Find(v, "*")| == KeyCount(v)
  {
    match v
    case Obj(es) =>
      var chunks := seq(|es|, i requires 0 <= i < |es| =>
        (if KeyMatches("*", es[i].0) then [es[i]] else []) + Find(es[i].1, "*"));
      var counts := seq(|es|, i requires 0 <= i < |es| => KeyCount(es[i].1));
      var sizes := seq(|es|, i requires 0 <= i < |es| => 1 + counts[i]);
      forall i | 0 <= i < |es|
        ensures |chunks[i]| == sizes[i]
      {
        WildcardCountsEveryKey(es[i].1);
      }
      FlattenLength(chunks, sizes);
      SumShift(counts, sizes);
    case Arr(xs) =>
      var chunks := seq(|xs|, i requires 0 <= i < |xs| => Find(xs[i], "*"));
      var counts := seq(|xs|, i requires 0 <= i < |xs| => KeyCount(xs[i]));
      forall i | 0 <= i < |xs|
        ensures |chunks[i]| == counts[i]
      {
        WildcardCountsEveryKey(xs[i]);
      }
      FlattenLength(chunks, counts);
    case _ =>
  }

  /** Adding one to every term adds the number of terms to the sum. */
  lemma {:induction false} SumShift(ns: seq<nat>, ms: seq<nat>)
    requires |ns| == |ms| && forall i :: 0 <= i < |ns| ==> ms[i] == 1 + ns[i]
    ensures Sum(ms) == |ns| + Sum(ns)
  {
    if ns != [] {
      SumShift(ns[..|ns| - 1], ms[..|ms| - 1]);
    }
  }

  /** The search for one key is the wildcard search, the pre-order list
      of every pair, filtered to that key. */
  lemma {:induction false} FindIsFilteredWildcard(v: Json, path: string)
    ensures Find(v, path) == KeepMatching(Find(v, "*"), path)
  {
    match v
    case Obj(es) =>
      var all := seq(|es|, i requires 0 <= i < |es| =>
        (if KeyMatches("*", es[i].0) then [es[i]] else []) + Find(es[i].1, "*"));
      var some := seq(|es|, i requires 0 <= i < |es| =>
        (if KeyMatches(path, es[i].0) then [es[i]] else []) + Find(es[i].1, path));
      forall i | 0 <= i < |es|
        ensures KeepMatching(all[i], path) == some[i]
      {
        FindIsFilteredWildcard(es[i].1, path);
        KeepMatchingItem(es[i], Find(es[i].1, "*"), path);
      }
      KeepMatchingFlatten(all, some, path);
    case Arr(xs) =>
      var all := seq(|xs|, i requires 0 <= i < |xs| => Find(xs[i], "*"));
      var some := seq(|xs|, i requires 0 <= i < |xs| => Find(xs[i], path));
      forall i | 0 <= i < |xs|
        ensures KeepMatching(all[i], path) == some[i]
      {
        FindIsFilteredWildcard(xs[i], path);
      }
      KeepMatchingFlatten(all, some, path);
    case _ =>
  }

  /** Filtering one item followed by what lies inside it. */
  lemma KeepMatchingItem(r: (string, Json), inside: seq<(string, Json)>, path: string)
    ensures KeepMatching([r] + inside, path)
            == (if KeyMatches(path, r.0) then [r] else []) + KeepMatching(inside, path)
  {
    KeepMatchingAppend([r], inside, path);
    assert [r][..0] == [];
  }

  /** Every reported pair has the queried key, unless the query is `*`;
      and a pair is reported exactly when the wildcard search reports it
      and its key matches. */
  lemma ReportedKeysMatch(v: Json, path: string)
    ensures forall r :: r in Find(v, path) <==> r in Find(v, "*") && KeyMatches(path, r.0)
    ensures path != "*" ==> forall r :: r in Find(v, path) ==> r.0 == path
  {
    FindIsFilteredWildcard(v, path);
  }

  /** Depth-first order: within an object, the results of item `i` come
      after everything found in the items before it, its own pair comes
      before whatever lies inside its value, and the later items follow. */
  lemma PreOrderAtItem(es: seq<(string, Json)>, path: string, i: nat)
    requires i < |es|
    ensures Find(Obj(es), path)
            == Find(Obj(es[..i]), path)
               + (if KeyMatches(path, es[i].0) then [es[i]] else []) + Find(es[i].1, path)
               + Find(Obj(es[i + 1..]), path)
  {
    var chunks := seq(|es|, j requires 0 <= j < |es| =>
      (if KeyMatches(path, es[j].0) then [es[j]] else []) + Find(es[j].1, path));
    var before, after := es[..i], es[i + 1..];
    var cb := seq(|before|, j requires 0 <= j < |before| =>
      (if KeyMatches(path, before[j].0) then [before[j]] else []) + Find(before[j].1, path));
    var ca := seq(|after|, j requires 0 <= j < |after| =>
      (if KeyMatches(path, after[j].0) then [after[j]] else []) + Find(after[j].1, path));
    assert cb == chunks[..i];
    assert ca == chunks[i + 1..];
    FlattenAround(chunks, i);
  }

  /** An array of scalars contributes no pair. */
  lemma {:induction false} ScalarsContributeNothing(xs: seq<Json>, path: string)
    requires forall i :: 0 <= i < |xs| ==> !xs[i].Obj? && !xs[i].Arr?
    ensures Find(Arr(xs), path) == []
  {
    if xs != [] {
      var init := xs[..|xs| - 1];
      ScalarsContributeNothing(init, path);
      var chunks := seq(|xs|, i requires 0 <= i < |xs| => Find(xs[i], path));
      var ci := seq(|init|, i requires 0 <= i < |init| => Find(init[i], path));
      assert ci == chunks[..|xs| - 1];
      assert chunks[|xs| - 1] == [];
    }
  }

  /** `{"a": {"name": "x"}, "b": [{"name": "y"}]}` searched for `name`
      reports `("name", "x")` then `("name", "y")`. */
  lemma NestedNameExample()
    ensures Find(Obj([("a", Obj([("name", Str("x"))])), ("b", Arr([Obj([("name", Str("y"))])]))]), "name")
            == [("name", Str("x")), ("name", Str("y"))]
  {
    var inner1 := Obj([("name", Str("x"))]);
    var inner2 := Obj([("name", Str("y"))]);
    OneScalarItem("name", Str("x"));
    OneScalarItem("name", Str("y"));
    OneElement(inner2, "name");
    assert !KeyMatches("name", "a") && !KeyMatches("name", "b");
    TwoItems(("a", inner1), ("b", Arr([inner2])), "name");
    assert [("name", Str("x"))] + [("name", Str("y"))] == [("name", Str("x")), ("name", Str("y"))];
  }

  /** A one-item object whose value is a scalar reports that item for its key. */
  lemma OneScalarItem(key: string, v: Json)
    requires !v.Obj? && !v.Arr?
    ensures Find(Obj([(key, v)]), key) == [(key, v)]
  {
    PreOrderAtItem([(key, v)], key, 0);
  }

  /** A one-element array reports what its element does. */
  lemma OneElement(x: Json, path: string)
    ensures Find(Arr([x]), path) == Find(x, path)
  {
    var xs := [x];
    var chunks := seq(|xs|, i requires 0 <= i < |xs| => Find(xs[i], path));
    assert Find(Arr(xs), path) == Flatten(chunks);
    assert chunks[..0] == [] && chunks[0] == Find(x, path);
    assert Flatten(chunks) == Flatten(chunks[..0]) + chunks[0];
  }

  /** A two-item object whose keys do not match reports what lies inside
      the first value, then what lies inside the second. */
  lemma TwoItems(r: (string, Json), t: (string, Json), path: string)
    requires !KeyMatches(path, r.0) && !KeyMatches(path, t.0)
    ensures Find(Obj([r, t]), path) == Find(r.1, path) + Find(t.1, path)
  {
    var es := [r, t];
    assert es[..1] == [r] && es[2..] == [];
    assert Find(Obj([]), path) == [];
    PreOrderAtItem(es, path, 1);
    assert Find(Obj(es), path) == Find(Obj([r]), path) + Find(t.1, path);
    assert [r][..0] == [] && [r][1..] == [];
    PreOrderAtItem([r], path, 0);
  }
}
