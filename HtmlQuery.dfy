/** The query mini-language of the HTML search (`ParserApp.parse_html`):
    `tag.seg.seg...`, split on `.`; the first piece is the tag, a later
    piece `key=value` asks for attribute `key` to equal `value`, and any
    other later piece adds a name to the `class` filter. */
module HtmlQuery {
  import opened Results
  import opened PyText

  /** A value of the `attrs` dict: a string, or the list built for `class`. */
  datatype AttrVal = Str(s: string) | ClassList(names: seq<string>)

  /** What `find_all` is given: the base tag and the `attrs` dict. */
  datatype Query = Query(tag: string, attrs: map<string, AttrVal>)

  /** A tag that `find_all` returns, as the formatter reads it: its
      `name`, its `get_text(strip=True)`, and its `attrs` items in
      document order, each value as the text `f"{value}"` renders. */
  datatype Tag = Tag(name: string, text: string, attrs: seq<(string, string)>)

  /** One piece after the tag, as the loop body sees it. */
  datatype Segment = Assign(key: string, value: string) | Bare(name: string)

  /** `str(e)` of the AttributeError raised by `attrs['class'].append(...)`
      once `attrs['class']` holds a string. */
  const APPEND_ON_STR := "'str' object has no attribute 'append'"

  /** `'=' in part`, then `part.split('=', 1)` with both halves stripped;
      otherwise the stripped piece is a class name. */
  function Classify(part: string): Segment {
    if '=' in part then
      var i := IndexOf(part, '=');
      Assign(Strip(part[..i]), Strip(part[i + 1..]))
    else Bare(Strip(part))
  }

  /** The classified pieces after the first, in query order (`parts[1:]`). */
  function Segments(query: string): seq<Segment> {
    var parts := Split(query, '.');
    seq(|parts| - 1, i requires 0 <= i < |parts| - 1 => Classify(parts[i + 1]))
  }

  /** One iteration of the loop over `parts[1:]`, on the dict built so far. */
  function Step(m: map<string, AttrVal>, seg: Segment): Result<map<string, AttrVal>> {
    match seg
    case Assign(k, v) => Ok(m[k := Str(v)])
    case Bare(c) =>
      if "class" !in m then Ok(m["class" := ClassList([c])])
      else if m["class"].ClassList? then Ok(m["class" := ClassList(m["class"].names + [c])])
      else Err(APPEND_ON_STR)
  }

  /** The dict after the loop has run over `segs`, or the exception it raised. */
  function Attrs(segs: seq<Segment>): Result<map<string, AttrVal>> {
    if segs == [] then Ok(map[])
    else
      match Attrs(segs[..|segs| - 1])
      case Err(e) => Err(e)
      case Ok(m) => Step(m, segs[|segs| - 1])
  }

  /** The whole query parse: the stripped first piece and the dict. */
  function Parse(query: string): Result<Query> {
    var parts := Split(query, '.');
    match Attrs(Segments(query))
    case Ok(m) => Ok(Query(Strip(parts[0]), m))
    case Err(e) => Err(e)
  }

  /** The loop of `parse_html` that builds `attrs` in place. */
  method ParseQuery(query: string) returns (r: Result<Query>)
    ensures r == Parse(query)
  {
    var parts := Split(query, '.');
    var baseTag := Strip(parts[0]);
    var attrs: map<string, AttrVal> := map[];
    ghost var segs := Segments(query);
    for n := 1 to |parts|
      invariant Attrs(segs[..n - 1]) == Ok(attrs)
    {
      AttrsSnoc(segs, n);
      var part := parts[n];
      assert segs[n - 1] == Classify(part);
      if '=' in part {
        var i := IndexOf(part, '=');
        var key := Strip(part[..i]);
        var value := Strip(part[i + 1..]);
        attrs := attrs[key := Str(value)];
      } else if "class" in attrs {
        match attrs["class"] {
          case ClassList(names) =>
            attrs := attrs["class" := ClassList(names + [Strip(part)])];
          case Str(_) =>
            AttrsErrPersists(segs, n);
            return Err(APPEND_ON_STR);
        }
      } else {
        attrs := attrs["class" := ClassList([Strip(part)])];
      }
    }
    assert segs[..|parts| - 1] == segs;
    return Ok(Query(baseTag, attrs));
  }

  // ----- An independent description of the dict the loop builds -----

  predicate AssignsTo(seg: Segment, key: string) {
    seg.Assign? && seg.key == key
  }

  /** The value of the last `key=value` segment, if there is one. */
  function LastValue(segs: seq<Segment>, key: string): (r: Option<string>)
    ensures r.None? <==> forall i :: 0 <= i < |segs| ==> !AssignsTo(segs[i], key)
    ensures r.Some? ==> exists i :: 0 <= i < |segs| && segs[i] == Assign(key, r.value)
                          && forall j :: i < j < |segs| ==> !AssignsTo(segs[j], key)
  {
    if segs == [] then None
    else
      var last := segs[|segs| - 1];
      if AssignsTo(last, key) then Some(last.value)
      else LastValue(segs[..|segs| - 1], key)
  }

  /** The names of the bare segments, in query order, duplicates and empty names kept. */
  function BareNames(segs: seq<Segment>): (names: seq<string>)
    ensures names == [] <==> forall i :: 0 <= i < |segs| ==> segs[i].Assign?
  {
    if segs == [] then []
    else
      var last := segs[|segs| - 1];
      BareNames(segs[..|segs| - 1]) + (if last.Bare? then [last.name] else [])
  }

  /** Some `class=...` segment comes before some bare segment. */
  predicate ClassAfterAssign(segs: seq<Segment>) {
    exists i, j :: 0 <= i < j < |segs| && AssignsTo(segs[i], "class") && segs[j].Bare?
  }

  /** What `class` ends up holding: the last `class=` value if there is
      one, else the bare names if there are any, else nothing. */
  function ClassEntry(segs: seq<Segment>): Option<AttrVal> {
    match LastValue(segs, "class")
    case Some(v) => Some(Str(v))
    case None => if BareNames(segs) == [] then None else Some(ClassList(BareNames(segs)))
  }

  /** `m` is what the segments ask for: every key other than `class`
      holds the value of its last assignment, and `class` holds
      `ClassEntry`. */
  ghost predicate Describes(segs: seq<Segment>, m: map<string, AttrVal>) {
    (forall k :: k != "class" ==> (k in m <==> LastValue(segs, k).Some?))
    && (forall k :: k != "class" && k in m ==> m[k] == Str(LastValue(segs, k).value))
    && ("class" in m <==> ClassEntry(segs).Some?)
    && ("class" in m ==> m["class"] == ClassEntry(segs).value)
  }

  /** The dict after one more segment. */
  lemma AttrsSnoc(segs: seq<Segment>, n: nat)
    requires 0 < n <= |segs| && Attrs(segs[..n - 1]).Ok?
    ensures Attrs(segs[..n]) == Step(Attrs(segs[..n - 1]).value, segs[n - 1])
  {
    assert segs[..n][..n - 1] == segs[..n - 1];
  }

  /** Once the loop has raised, the rest of the query does not matter. */
  lemma {:induction false} AttrsErrPersists(segs: seq<Segment>, n: nat)
    requires n <= |segs| && Attrs(segs[..n]).Err?
    ensures Attrs(segs) == Attrs(segs[..n])
  {
    if n < |segs| {
      var init := segs[..|segs| - 1];
      assert init[..n] == segs[..n];
      AttrsErrPersists(init, n);
    } else {
      assert segs[..n] == segs;
    }
  }

  /** Appending one segment: a `class=` before a bare segment appears
      exactly when it was already there, or the new segment is bare and
      some `class=` came before it. */
  lemma ClassAfterAssignSnoc(init: seq<Segment>, last: Segment)
    ensures ClassAfterAssign(init + [last])
            <==> ClassAfterAssign(init) || (last.Bare? && LastValue(init, "class").Some?)
  {
    var segs := init + [last];
    assert forall i :: 0 <= i < |init| ==> segs[i] == init[i];
    if ClassAfterAssign(segs) && !ClassAfterAssign(init) {
      var i, j :| 0 <= i < j < |segs| && AssignsTo(segs[i], "class") && segs[j].Bare?;
      assert AssignsTo(init[i], "class");
    }
    if ClassAfterAssign(init) {
      var i, j :| 0 <= i < j < |init| && AssignsTo(init[i], "class") && init[j].Bare?;
      assert AssignsTo(segs[i], "class") && segs[j].Bare?;
    }
    if last.Bare? && LastValue(init, "class").Some? {
      var i :| 0 <= i < |init| && init[i] == Assign("class", LastValue(init, "class").value);
      assert AssignsTo(segs[i], "class") && segs[|init|].Bare?;
    }
  }

  /** Every key other than `class` holds the value of its last assignment. */
  lemma {:induction false} OtherKeyValue(segs: seq<Segment>, k: string)
    requires k != "class" && Attrs(segs).Ok?
    ensures k in Attrs(segs).value <==> LastValue(segs, k).Some?
    ensures k in Attrs(segs).value ==> Attrs(segs).value[k] == Str(LastValue(segs, k).value)
  {
    if segs != [] {
      OtherKeyValue(segs[..|segs| - 1], k);
    }
  }

  /** The loop raises, with the AttributeError text, exactly when a
      `class=` segment precedes a bare one; otherwise `class` holds
      `ClassEntry`. */
  lemma {:induction false} ClassValue(segs: seq<Segment>)
    ensures Attrs(segs).Err? <==> ClassAfterAssign(segs)
    ensures Attrs(segs).Err? ==> Attrs(segs).msg == APPEND_ON_STR
    ensures Attrs(segs).Ok? ==> ("class" in Attrs(segs).value <==> ClassEntry(segs).Some?)
    ensures Attrs(segs).Ok? && "class" in Attrs(segs).value
            ==> Attrs(segs).value["class"] == ClassEntry(segs).value
  {
    if segs != [] {
      var init, last := segs[..|segs| - 1], segs[|segs| - 1];
      assert segs == init + [last];
      ClassValue(init);
      ClassAfterAssignSnoc(init, last);
      if !last.Bare? {
        assert BareNames(segs) == BareNames(init);
      } else {
        assert LastValue(segs, "class") == LastValue(init, "class");
      }
    }
  }

  /** The loop fails exactly when a `class=...` segment precedes a bare
      segment, and otherwise builds the dict `Describes` gives. */
  lemma AttrsCharacterized(segs: seq<Segment>)
    ensures Attrs(segs).Err? <==> ClassAfterAssign(segs)
    ensures Attrs(segs).Err? ==> Attrs(segs).msg == APPEND_ON_STR
    ensures Attrs(segs).Ok? ==> Describes(segs, Attrs(segs).value)
  {
    ClassValue(segs);
    if Attrs(segs).Ok? {
      forall k | k != "class"
        ensures k in Attrs(segs).value <==> LastValue(segs, k).Some?
        ensures k in Attrs(segs).value ==> Attrs(segs).value[k] == Str(LastValue(segs, k).value)
      {
        OtherKeyValue(segs, k);
      }
    }
  }

  // ----- What a parse yields, stated on the query text -----

  /** The tag is the text before the first `.`, stripped (all of it
      stripped when there is no `.`). */
  lemma TagIsFirstPiece(query: string)
    requires Parse(query).Ok?
    ensures Parse(query).value.tag
            == if '.' in query then Strip(query[..IndexOf(query, '.')]) else Strip(query)
  {
    if '.' in query {
      SplitHeadBeforeFirst(query, '.');
    } else {
      SplitWithout(query, '.');
    }
  }

  /** A query without `.` is a bare tag and an empty dict. */
  lemma NoDotMeansNoFilters(query: string)
    requires '.' !in query
    ensures Parse(query) == Ok(Query(Strip(query), map[]))
  {
    SplitWithout(query, '.');
    assert Segments(query) == [];
  }

  /** The parse fails, with the AttributeError text, exactly when a
      `class=...` piece precedes a bare piece. */
  lemma ParseFailsIff(query: string)
    ensures Parse(query).Err? <==> ClassAfterAssign(Segments(query))
    ensures Parse(query).Err? ==> Parse(query).msg == APPEND_ON_STR
  {
    AttrsCharacterized(Segments(query));
  }

  /** A successful parse yields the dict `Describes`: last assignment
      wins, bare names accumulate in order under `class`. */
  lemma ParseAttrs(query: string)
    requires Parse(query).Ok?
    ensures Describes(Segments(query), Parse(query).value.attrs)
  {
    AttrsCharacterized(Segments(query));
  }

  /** A piece splits only at its first `=`: the value keeps any later `=`. */
  lemma SplitsAtFirstEquals(key: string, value: string)
    requires '=' !in key
    ensures Classify(key + "=" + value) == Assign(Strip(key), Strip(value))
  {
    IndexOfAfter(key, value, '=');
    var part := key + "=" + value;
    assert part[..|key|] == key && part[|key| + 1..] == value;
  }

  /** A trailing `.` (as in `div.`) asks for the single empty class name. */
  lemma TrailingDotIsEmptyClass(tag: string)
    requires '.' !in tag
    ensures Parse(tag + ".") == Ok(Query(Strip(tag), map["class" := ClassList([""])]))
  {
    assert Split(tag + ".", '.') == [tag, ""] by {
      assert tag + "." == tag + ['.'] + "";
      SplitAt(tag, "", '.');
    }
    assert Classify("") == Bare("");
    assert Segments(tag + ".")[0] == Classify("");
    assert Segments(tag + ".") == [Bare("")];
    assert [Bare("")][..0] == [];
  }
}
