/** The XML side of the search: elements as `xml.etree` hands them out,
    the `//tag[@name=value]` predicate of `ParserApp.match_xml_path`, and
    the filter over `root.iter()` that the `//` branch of `parse_xml` was
    written to perform. */
module XmlQuery {
  import opened Results
  import opened PyText

  /** An element: `tag`, `attrib` items in document order, `text` (None
      when the element has no leading text) and its children. */
  datatype Element = Element(tag: string, attrib: seq<(string, string)>,
                             text: Option<string>, children: seq<Element>)

  /** The characters `attr_value.strip("'\"")` removes. */
  const QUOTES: set<char> := {'\'', '"'}

  /** `str(e)` of the ValueError raised by `attr_name, attr_value = ...`
      when the bracket text has no `=` or more than one. */
  const NOT_ENOUGH_VALUES := "not enough values to unpack (expected 2, got 1)"
  const TOO_MANY_VALUES := "too many values to unpack (expected 2)"

  /** `query.split('[')[0]`. */
  function TagPart(q: string): string {
    Split(q, '[')[0]
  }

  /** `query.split('[')[1].split(']')[0]`. */
  function AttrPart(q: string): string
    requires '[' in q
  {
    Split(Split(q, '[')[1], ']')[0]
  }

  /** The `@name=value` test on an element whose tag matched: unpack the
      two sides of the `=`, drop every `@` from the name and strip it,
      strip quotes (only quotes) from the value, compare with `get`. */
  function AttrTest(e: Element, attrPart: string): (r: Result<bool>)
    ensures r.Err? <==> multiset(attrPart)['='] != 1
    ensures r == Err(NOT_ENOUGH_VALUES) <==> '=' !in attrPart
  {
    var pieces := Split(attrPart, '=');
    if |pieces| == 1 then Err(NOT_ENOUGH_VALUES)
    else if |pieces| > 2 then Err(TOO_MANY_VALUES)
    else
      var name := Strip(RemoveAll(pieces[0], '@'));
      var value := StripChars(pieces[1], QUOTES);
      Ok(Lookup(e.attrib, name) == Some(value))
  }

  /** `match_xml_path(element, query)`: `True`/`False`, or the exception it
      raises, which is only ever one of the two unpacking errors; it holds
      only of an element whose tag is the query after `//`, or the part of
      it before the first `[`. */
  function Match(e: Element, query: string): (r: Result<bool>)
    ensures r.Err? ==> r.msg == NOT_ENOUGH_VALUES || r.msg == TOO_MANY_VALUES
    ensures r == Ok(true) ==> e.tag == Drop(query, 2) || e.tag == TagPart(Drop(query, 2))
  {
    var q := Drop(query, 2);
    if '[' in q && ']' in q then
      var attrPart := AttrPart(q);
      if e.tag == TagPart(q) && '@' in attrPart then AttrTest(e, attrPart)
      else Ok(false)
    else Ok(e.tag == q)
  }

  // ----- The predicate, stated on the query text -----

  /** When the query minus its first two characters lacks a `[` or a `]`,
      the predicate is tag equality with that text. */
  lemma MatchWithoutBrackets(e: Element, query: string)
    requires var q := Drop(query, 2); '[' !in q || ']' !in q
    ensures Match(e, query) == Ok(e.tag == Drop(query, 2))
  {
  }

  /** The tag part is the text before the first `[`; the bracket text runs
      from just after it up to the next `[` or `]`, or to the end. */
  lemma BracketParts(q: string)
    requires '[' in q
    ensures var i := IndexOf(q, '['); var rest := q[i + 1..]; var a := AttrPart(q);
            && TagPart(q) == q[..i]
            && |a| <= |rest| && a == rest[..|a|]
            && '[' !in a && ']' !in a
            && (|a| < |rest| ==> rest[|a|] == '[' || rest[|a|] == ']')
  {
    var i := IndexOf(q, '[');
    SplitHeadBeforeFirst(q, '[');
    SecondPiece(q, i);
    NestedFirstPieces(q[i + 1..]);
  }

  /** The second piece of `q.split('[')` is the first piece of the text
      after the first `[`. */
  lemma SecondPiece(q: string, i: nat)
    requires i < |q| && q[i] == '[' && '[' !in q[..i]
    ensures Split(q, '[')[1] == Split(q[i + 1..], '[')[0]
  {
    var a, b := q[..i], q[i + 1..];
    assert q == a + ['['] + b;
    SplitAt(a, b, '[');
    var parts := Split(b, '[');
    assert ([a] + parts)[1] == parts[0];
  }

  /** The first `]`-piece of the first `[`-piece of `rest` is a prefix of
      `rest` free of brackets, ended by a bracket or by the end of `rest`. */
  lemma NestedFirstPieces(rest: string)
    ensures var a := Split(Split(rest, '[')[0], ']')[0];
            && |a| <= |rest| && a == rest[..|a|]
            && '[' !in a && ']' !in a
            && (|a| < |rest| ==> rest[|a|] == '[' || rest[|a|] == ']')
  {
    var h := Split(rest, '[')[0];
    var a := Split(h, ']')[0];
    PrefixChain(a, h, rest);
  }

  /** A prefix `a` of a prefix `h` of `r`, where `h` lacks `[` and ends
      where `r` has one, and `a` lacks `]` and ends where `h` has one. */
  lemma PrefixChain(a: string, h: string, r: string)
    requires |h| <= |r| && h == r[..|h|] && '[' !in h && (|h| < |r| ==> r[|h|] == '[')
    requires |a| <= |h| && a == h[..|a|] && ']' !in a && (|a| < |h| ==> h[|a|] == ']')
    ensures a == r[..|a|] && '[' !in a
    ensures |a| < |r| ==> r[|a|] == '[' || r[|a|] == ']'
  {
    assert '[' !in a by {
      forall k | 0 <= k < |a|
        ensures a[k] != '['
      {
        assert a[k] == h[k];
      }
    }
    if |a| < |h| {
      assert r[|a|] == h[|a|];
    }
  }

  /** With brackets, a differing tag or bracket text without `@` gives
      `False` (positional predicates such as `//item[1]` never hold). */
  lemma BracketsNeedTagAndAt(e: Element, query: string)
    requires var q := Drop(query, 2); '[' in q && ']' in q
    requires var q := Drop(query, 2); e.tag != TagPart(q) || '@' !in AttrPart(q)
    ensures Match(e, query) == Ok(false)
  {
  }

  /** The predicate raises exactly when the brackets are there, the tag
      matches, the bracket text has an `@`, and it has other than one `=`. */
  lemma MatchFailsIff(e: Element, query: string)
    ensures Match(e, query).Err?
            <==> var q := Drop(query, 2);
                 && '[' in q && ']' in q && e.tag == TagPart(q) && '@' in AttrPart(q)
                 && multiset(AttrPart(q))['='] != 1
    ensures Match(e, query).Err? ==> Match(e, query).msg in {NOT_ENOUGH_VALUES, TOO_MANY_VALUES}
  {
  }

  /** In `tag[inner]` with no other brackets, the tag part is `tag` and
      the bracket text is `inner`. */
  lemma SimpleBrackets(tag: string, inner: string)
    requires '[' !in tag && '[' !in inner && ']' !in inner
    ensures var q := tag + "[" + inner + "]";
            '[' in q && ']' in q && TagPart(q) == tag && AttrPart(q) == inner
  {
    var q := tag + "[" + inner + "]";
    assert q[|tag|] == '[' && q[|q| - 1] == ']';
    OneOpeningBracket(tag, inner);
    assert Split(inner + "]", ']')[0] == inner by {
      assert inner + "]" == inner + [']'] + "";
      SplitAt(inner, "", ']');
    }
  }

  lemma OneOpeningBracket(tag: string, inner: string)
    requires '[' !in tag && '[' !in inner
    ensures Split(tag + "[" + inner + "]", '[') == [tag, inner + "]"]
  {
    var tail := inner + "]";
    assert tag + "[" + inner + "]" == tag + ['['] + tail;
    assert '[' !in tail by {
      assert tail == inner + [']'];
    }
    SplitAt(tag, tail, '[');
    SplitWithout(tail, '[');
  }

  /** `//tag[inner]` with no other brackets: the `@` test on `inner` for
      an element with that tag, `False` otherwise. */
  lemma MatchSimpleBrackets(e: Element, tag: string, inner: string)
    requires '[' !in tag && '[' !in inner && ']' !in inner
    ensures Match(e, "//" + tag + "[" + inner + "]")
            == if e.tag == tag && '@' in inner then AttrTest(e, inner) else Ok(false)
  {
    var q := tag + "[" + inner + "]";
    assert Drop("//" + tag + "[" + inner + "]", 2) == q by {
      assert "//" + tag + "[" + inner + "]" == "//" + q;
    }
    SimpleBrackets(tag, inner);
  }

  /** `//tag[text]` with no `@` in `text` holds of no element. */
  lemma PositionalNeverMatches(e: Element, tag: string, text: string)
    requires '[' !in tag && '[' !in text && ']' !in text && '@' !in text
    ensures Match(e, "//" + tag + "[" + text + "]") == Ok(false)
  {
    MatchSimpleBrackets(e, tag, text);
  }

  /** `//item[1]` selects nothing, whatever the element. */
  lemma ItemOneNeverMatches(e: Element)
    ensures Match(e, "//item[1]") == Ok(false)
  {
    assert "//item[1]" == "//" + "item" + "[" + "1" + "]";
    PositionalNeverMatches(e, "item", "1");
  }

  /** `//tag[@name=value]`: true exactly when the element has that tag and
      an attribute called `name` (every `@` removed, whitespace stripped)
      whose value is `value` with quotes, and only quotes, stripped. */
  lemma AttributePredicate(e: Element, tag: string, name: string, value: string)
    requires '[' !in tag && '@' in name
    requires '[' !in name && ']' !in name && '=' !in name
    requires '[' !in value && ']' !in value && '=' !in value
    ensures Match(e, "//" + tag + "[" + name + "=" + value + "]")
            == Ok(e.tag == tag
                  && Lookup(e.attrib, Strip(RemoveAll(name, '@'))) == Some(StripChars(value, QUOTES)))
  {
    var nv := name + "=" + value;
    AppendAssoc("//" + tag + "[" + name, "=", value);
    AppendAssoc("//" + tag + "[", name, "=" + value);
    AppendAssoc(name, "=", value);
    NameValueShape(name, value);
    MatchSimpleBrackets(e, tag, nv);
    NameValueTest(e, name, value);
  }

  /** `name=value` keeps the brackets and the `@` its sides have. */
  lemma NameValueShape(name: string, value: string)
    requires '@' in name
    requires '[' !in name && ']' !in name && '[' !in value && ']' !in value
    ensures var nv := name + "=" + value; '[' !in nv && ']' !in nv && '@' in nv
  {
    assert name + "=" + value == name + ['='] + value;
  }

  /** The `@` test on `name=value` with one `=` compares the named
      attribute with the unquoted value. */
  lemma NameValueTest(e: Element, name: string, value: string)
    requires '=' !in name && '=' !in value
    ensures AttrTest(e, name + "=" + value)
            == Ok(Lookup(e.attrib, Strip(RemoveAll(name, '@'))) == Some(StripChars(value, QUOTES)))
  {
    var nv := name + ['='] + value;
    assert name + "=" + value == nv;
    SplitPair(name, value, '=');
    var pieces := Split(nv, '=');
    assert |pieces| == 2 && pieces[0] == name && pieces[1] == value;
  }

  // ----- The walk over `root.iter()` -----

  /** `root.iter()`: the element, then each child's subtree in document order. */
  function Iter(root: Element): (ns: seq<Element>)
    ensures |ns| >= 1 && ns[0] == root
  {
    [root] + Flatten(seq(|root.children|, i requires 0 <= i < |root.children| => Iter(root.children[i])))
  }

  /** The elements of `ns` a test accepts, in order, or the first
      exception it raises. */
  function Filter(ns: seq<Element>, test: Element -> Result<bool>): Result<seq<Element>> {
    if ns == [] then Ok([])
    else
      match Filter(ns[..|ns| - 1], test)
      case Err(msg) => Err(msg)
      case Ok(ms) =>
        match test(ns[|ns| - 1])
        case Err(msg) => Err(msg)
        case Ok(b) => Ok(if b then ms + [ns[|ns| - 1]] else ms)
  }

  /** The elements of `ns` the predicate accepts, in order, or the first
      exception it raises. */
  function Select(ns: seq<Element>, query: string): Result<seq<Element>> {
    Filter(ns, e => Match(e, query))
  }

  /** The loop `for elem in root.iter(): if match: results.append(elem)`. */
  method SelectDescendants(root: Element, query: string) returns (r: Result<seq<Element>>)
    ensures r == Select(Iter(root), query)
  {
    var nodes := Iter(root);
    var results: seq<Element> := [];
    for k := 0 to |nodes|
      invariant Select(nodes[..k], query) == Ok(results)
    {
      SelectStep(nodes, query, k);
      var m := Match(nodes[k], query);
      if m.Err? {
        SelectErrPersists(nodes, query, k + 1);
        return Err(m.msg);
      }
      if m.value {
        results := results + [nodes[k]];
      }
    }
    assert nodes[..|nodes|] == nodes;
    return Ok(results);
  }

  /** The filter over one more element. */
  lemma SelectStep(ns: seq<Element>, query: string, k: nat)
    requires k < |ns| && Select(ns[..k], query).Ok?
    ensures Select(ns[..k + 1], query)
            == match Match(ns[k], query)
               case Err(msg) => Err(msg)
               case Ok(b) => Ok(if b then Select(ns[..k], query).value + [ns[k]]
                                else Select(ns[..k], query).value)
  {
    assert ns[..k + 1][..k] == ns[..k];
  }

  /** Once the predicate has raised, later elements do not matter. */
  lemma {:induction false} SelectErrPersists(ns: seq<Element>, query: string, n: nat)
    requires n <= |ns| && Select(ns[..n], query).Err?
    ensures Select(ns, query) == Select(ns[..n], query)
  {
    if n < |ns| {
      var init := ns[..|ns| - 1];
      assert init[..n] == ns[..n];
      SelectErrPersists(init, query, n);
    } else {
      assert ns[..n] == ns;
    }
  }

  /** The filter raises exactly when the predicate raises on some
      element, and then with the message of the first such element. */
  lemma SelectFirstError(ns: seq<Element>, query: string)
    ensures Select(ns, query).Err? <==> exists i :: 0 <= i < |ns| && Match(ns[i], query).Err?
    ensures Select(ns, query).Err? ==>
              exists i :: 0 <= i < |ns| && Match(ns[i], query) == Err(Select(ns, query).msg)
                          && forall j :: 0 <= j < i ==> Match(ns[j], query).Ok?
  {
    FilterFirstError(ns, e => Match(e, query));
  }

  lemma {:induction false} FilterFirstError(ns: seq<Element>, test: Element -> Result<bool>)
    ensures Filter(ns, test).Err? <==> exists i :: 0 <= i < |ns| && test(ns[i]).Err?
    ensures Filter(ns, test).Err? ==>
              exists i :: 0 <= i < |ns| && test(ns[i]) == Err(Filter(ns, test).msg)
                          && forall j :: 0 <= j < i ==> test(ns[j]).Ok?
  {
    if ns != [] {
      var init := ns[..|ns| - 1];
      FilterFirstError(init, test);
      assert forall i :: 0 <= i < |init| ==> ns[i] == init[i];
      if Filter(init, test).Err? {
        var i :| 0 <= i < |init| && test(init[i]) == Err(Filter(init, test).msg)
                 && forall j :: 0 <= j < i ==> test(init[j]).Ok?;
        assert test(ns[i]) == Err(Filter(ns, test).msg);
      } else if test(ns[|init|]).Err? {
        assert test(ns[|init|]) == Err(Filter(ns, test).msg);
      }
    }
  }

  /** When the filter does not raise, it keeps exactly the accepted
      elements, and no more of them than there are. */
  lemma {:induction false} SelectKeepsAccepted(ns: seq<Element>, query: string)
    ensures Select(ns, query).Ok? ==>
              |Select(ns, query).value| <= |ns|
              && forall x :: x in Select(ns, query).value <==> x in ns && Match(x, query) == Ok(true)
  {
    if ns != [] {
      var init, last := ns[..|ns| - 1], ns[|ns| - 1];
      SelectKeepsAccepted(init, query);
      assert ns == init + [last];
    }
  }

  /** The elements `test` accepts, in order, computed front to back: the
      reference the filter is compared with. */
  function Accepted(ns: seq<Element>, test: Element -> Result<bool>): seq<Element> {
    if ns == [] then []
    else (if test(ns[0]) == Ok(true) then [ns[0]] else []) + Accepted(ns[1..], test)
  }

  /** The filter of a single element. */
  lemma FilterOne(x: Element, test: Element -> Result<bool>)
    ensures Filter([x], test)
            == match test(x)
               case Err(msg) => Err(msg)
               case Ok(b) => Ok(if b then [x] else [])
  {
    var none: seq<Element> := [];
    assert [x][..0] == none && [x][0] == x && none + [x] == [x];
    assert Filter([x][..0], test) == Ok(none);
  }

  /** The filter of two stretches of elements: the first one's error, else
      the second one's error, else the two selections one after the other. */
  lemma {:induction false} FilterAppend(a: seq<Element>, b: seq<Element>, test: Element -> Result<bool>)
    ensures Filter(a + b, test)
            == match Filter(a, test)
               case Err(msg) => Err(msg)
               case Ok(xs) =>
                 match Filter(b, test)
                 case Err(msg) => Err(msg)
                 case Ok(ys) => Ok(xs + ys)
  {
    if b == [] {
      assert a + b == a;
      if Filter(a, test).Ok? {
        assert Filter(a, test).value + [] == Filter(a, test).value;
      }
    } else {
      var init, last := b[..|b| - 1], b[|b| - 1];
      assert (a + b)[..|a + b| - 1] == a + init;
      assert (a + b)[|a + b| - 1] == last;
      FilterAppend(a, init, test);
      if Filter(a, test).Ok? && Filter(init, test).Ok? {
        AppendAssoc(Filter(a, test).value, Filter(init, test).value, [last]);
      }
    }
  }

  /** A filter that does not raise yields exactly `Accepted`. */
  lemma {:induction false} FilterIsAccepted(ns: seq<Element>, test: Element -> Result<bool>)
    ensures Filter(ns, test).Ok? ==> Filter(ns, test).value == Accepted(ns, test)
  {
    if ns != [] {
      assert [ns[0]] + ns[1..] == ns;
      FilterAppend([ns[0]], ns[1..], test);
      FilterOne(ns[0], test);
      FilterIsAccepted(ns[1..], test);
    }
  }

  /** The `//` selection of a single element. */
  lemma SelectOne(x: Element, query: string)
    ensures Select([x], query)
            == match Match(x, query)
               case Err(msg) => Err(msg)
               case Ok(b) => Ok(if b then [x] else [])
  {
    FilterOne(x, e => Match(e, query));
  }

  /** Selecting from two stretches of the document: when neither raises,
      the first stretch's selection followed by the second's, so the
      selection keeps document order and repeated elements. */
  lemma SelectAppend(a: seq<Element>, b: seq<Element>, query: string)
    ensures Select(a + b, query)
            == match Select(a, query)
               case Err(msg) => Err(msg)
               case Ok(xs) =>
                 match Select(b, query)
                 case Err(msg) => Err(msg)
                 case Ok(ys) => Ok(xs + ys)
  {
    FilterAppend(a, b, e => Match(e, query));
  }

  /** When the selection does not raise, it is the accepted elements in
      the order of `ns`, each as often as it occurs there. */
  lemma SelectInOrder(ns: seq<Element>, query: string)
    ensures Select(ns, query).Ok? ==> Select(ns, query).value == Accepted(ns, e => Match(e, query))
  {
    FilterIsAccepted(ns, e => Match(e, query));
  }

  /** The elements with tag `tag`, in order. */
  function WithTag(ns: seq<Element>, tag: string): (r: seq<Element>)
    ensures forall x :: x in r <==> x in ns && x.tag == tag
  {
    if ns == [] then []
    else
      assert ns == [ns[0]] + ns[1..];
      (if ns[0].tag == tag then [ns[0]] else []) + WithTag(ns[1..], tag)
  }

  /** `//tag` selects, in order, the elements with that tag. */
  lemma {:induction false} SelectTag(ns: seq<Element>, tag: string)
    requires '[' !in tag
    ensures Select(ns, "//" + tag) == Ok(WithTag(ns, tag))
  {
    var query := "//" + tag;
    if ns != [] {
      assert Drop(query, 2) == tag && '[' !in query;
      assert [ns[0]] + ns[1..] == ns;
      SelectAppend([ns[0]], ns[1..], query);
      MatchWithoutBrackets(ns[0], query);
      SelectOne(ns[0], query);
      SelectTag(ns[1..], tag);
    }
  }

  /** An element list the predicate rejects throughout selects nothing. */
  lemma {:induction false} SelectNone(ns: seq<Element>, query: string)
    requires forall i :: 0 <= i < |ns| ==> Match(ns[i], query) == Ok(false)
    ensures Select(ns, query) == Ok([])
  {
    if ns != [] {
      SelectNone(ns[..|ns| - 1], query);
    }
  }

  /** `//item[1]` selects nothing from any tree. */
  lemma ItemOneSelectsNothing(root: Element)
    ensures Select(Iter(root), "//item[1]") == Ok([])
  {
    var ns := Iter(root);
    forall i | 0 <= i < |ns|
      ensures Match(ns[i], "//item[1]") == Ok(false)
    {
      ItemOneNeverMatches(ns[i]);
    }
    SelectNone(ns, "//item[1]");
  }

  /** `//tag` (no brackets) selects exactly the elements of the tree with
      that tag, in document order. */
  lemma TagQuerySelectsTag(root: Element, tag: string)
    requires '[' !in tag
    ensures Select(Iter(root), "//" + tag) == Ok(WithTag(Iter(root), tag))
    ensures forall x :: x in Select(Iter(root), "//" + tag).value <==> x in Iter(root) && x.tag == tag
  {
    SelectTag(Iter(root), tag);
  }
}
