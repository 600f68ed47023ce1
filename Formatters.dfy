/** The three result formatters (`format_html_result`,
    `format_xml_result`, `format_json_result`): a report is either the
    "nothing found" line, or a header with the number of results followed
    by one numbered block per result, each ending in a blank line. */
module Formatters {
  import opened Results
  import opened PyText
  import opened HtmlQuery
  import opened XmlQuery
  import opened JsonSearch

  const NOT_FOUND := "Элементы не найдены\n"
  const COUNT_PREFIX := "Найдено элементов: "
  /** Longer texts are cut to this many characters and marked with `...`. */
  const MAX_TEXT := 200

  const ATTRS_HEADING := "Атрибуты:\n"
  const TEXT_LABEL := "Текст: "
  const TAG_LABEL := "Тег: "
  const LINK_LABEL := "Ссылка: "
  const NO_LINK := "нет ссылки"
  const SRC_LABEL := "Источник: "
  const NO_SRC := "нет источника"
  const ALT_LABEL := "Описание: "
  const NO_ALT := "нет описания"
  const KEY_LABEL := "Ключ: "
  const TYPE_LABEL := "Тип: "
  const VALUE_LABEL := "Значение: "

  function Header(n: nat): string {
    COUNT_PREFIX + NatToString(n) + "\n\n"
  }

  /** The first line of the block for result number `i` (counted from 1). */
  function Title(i: nat): string {
    "--- Элемент " + NatToString(i) + " ---\n"
  }

  /** `text[:200] + "..."` when longer than 200 characters: at most 203
      characters, and the first 200 (or all, when fewer) are kept. */
  function Truncate(s: string): (r: string)
    ensures |r| <= MAX_TEXT + 3
    ensures |s| <= MAX_TEXT ==> r == s
    ensures |s| > MAX_TEXT ==> |r| == MAX_TEXT + 3 && r[..MAX_TEXT] == s[..MAX_TEXT] && r[MAX_TEXT..] == "..."
  {
    if |s| > MAX_TEXT then s[..MAX_TEXT] + "..." else s
  }

  /** `Текст: ...` for a non-empty text, nothing otherwise. */
  function TextLine(text: string): string {
    if text != "" then TEXT_LABEL + Truncate(text) + "\n" else ""
  }

  function AttrLine(attr: (string, string)): string {
    "  " + attr.0 + ": " + attr.1 + "\n"
  }

  function AttrLines(attrs: seq<(string, string)>): string {
    if attrs == [] then ""
    else AttrLines(attrs[..|attrs| - 1]) + AttrLine(attrs[|attrs| - 1])
  }

  lemma AttrLinesSnoc(attrs: seq<(string, string)>, k: nat)
    requires k < |attrs|
    ensures AttrLines(attrs[..k + 1]) == AttrLines(attrs[..k]) + AttrLine(attrs[k])
  {
    assert attrs[..k + 1][..k] == attrs[..k];
  }

  /** `Атрибуты:` and one indented line per attribute, or nothing when
      there are no attributes. */
  function AttrSection(attrs: seq<(string, string)>): string {
    if attrs == [] then "" else ATTRS_HEADING + AttrLines(attrs)
  }

  /** The extra lines of a link (`a`) or an image (`img`). */
  function LinkLines(t: Tag): string {
    if t.name == "a" then
      LINK_LABEL + LookupOr(t.attrs, "href", NO_LINK) + "\n"
    else if t.name == "img" then
      SRC_LABEL + LookupOr(t.attrs, "src", NO_SRC) + "\n"
      + ALT_LABEL + LookupOr(t.attrs, "alt", NO_ALT) + "\n"
    else ""
  }

  function HtmlBlock(t: Tag, i: nat): string {
    Title(i) + TextLine(t.text) + AttrSection(t.attrs) + LinkLines(t) + "\n"
  }

  /** The text line of an XML element reports its stripped text, and only
      when that is not blank. */
  function XmlTextLine(text: Option<string>): string {
    match text
    case Some(s) => TextLine(Strip(s))
    case None => ""
  }

  function TagLine(tag: string): string {
    TAG_LABEL + tag + "\n"
  }

  function XmlBlock(e: Element, i: nat): string {
    Title(i) + TagLine(e.tag) + AttrSection(e.attrib) + XmlTextLine(e.text) + "\n"
  }

  /** `dumps` renders a value as `json.dumps(value, ensure_ascii=False, indent=2)`. */
  function JsonBlock(item: (string, Json), i: nat, dumps: Json -> string): string {
    Title(i) + KeyLine(item.0) + TypeLine(item.1) + ValueLine(dumps(item.1)) + "\n"
  }

  function KeyLine(key: string): string {
    KEY_LABEL + key + "\n"
  }

  function TypeLine(value: Json): string {
    TYPE_LABEL + TypeName(value) + "\n"
  }

  function ValueLine(rendered: string): string {
    VALUE_LABEL + rendered + "\n"
  }

  /** A whole report, given the blocks of the results in order: it is the
      "nothing found" line exactly when there are no results. */
  function Report(blocks: seq<string>): (r: string)
    ensures r == NOT_FOUND <==> blocks == []
  {
    if blocks == [] then NOT_FOUND else Header(|blocks|) + Flatten(blocks)
  }

  function HtmlReport(ts: seq<Tag>): string {
    Report(seq(|ts|, i requires 0 <= i < |ts| => HtmlBlock(ts[i], i + 1)))
  }

  function XmlReport(es: seq<Element>): string {
    Report(seq(|es|, i requires 0 <= i < |es| => XmlBlock(es[i], i + 1)))
  }

  function JsonReport(items: seq<(string, Json)>, dumps: Json -> string): string {
    Report(seq(|items|, i requires 0 <= i < |items| => JsonBlock(items[i], i + 1, dumps)))
  }

  // ----- The formatters, building the report line by line -----

  /** The attributes loop shared by the HTML and XML formatters. */
  method AddAttributes(prefix: string, attrs: seq<(string, string)>) returns (result: string)
    ensures result == prefix + AttrSection(attrs)
  {
    result := prefix;
    if attrs != [] {
      result := result + ATTRS_HEADING;
      ghost var head := result;
      for k := 0 to |attrs|
        invariant result == head + AttrLines(attrs[..k])
      {
        AttrLinesSnoc(attrs, k);
        AppendAssoc(head, AttrLines(attrs[..k]), AttrLine(attrs[k]));
        result := result + AttrLine(attrs[k]);
      }
      assert attrs[..|attrs|] == attrs;
      AppendAssoc(prefix, ATTRS_HEADING, AttrLines(attrs));
    }
  }

  /** Appends `Текст: ...` for a non-empty text, cut to 200 characters. */
  method AddText(prefix: string, text: string) returns (result: string)
    ensures result == prefix + TextLine(text)
  {
    result := prefix;
    if text != "" {
      var shown := text;
      if |shown| > MAX_TEXT {
        shown := shown[..MAX_TEXT] + "...";
      }
      result := result + TEXT_LABEL + shown + "\n";
    }
  }

  /** The link or image lines of `format_html_result`. */
  method AddLinkLines(prefix: string, element: Tag) returns (result: string)
    ensures result == prefix + LinkLines(element)
  {
    result := prefix;
    if element.name == "a" {
      var href := LookupOr(element.attrs, "href", NO_LINK);
      result := result + LINK_LABEL + href + "\n";
    } else if element.name == "img" {
      var src := LookupOr(element.attrs, "src", NO_SRC);
      var alt := LookupOr(element.attrs, "alt", NO_ALT);
      result := result + SRC_LABEL + src + "\n";
      result := result + ALT_LABEL + alt + "\n";
    }
  }

  /** One iteration of the loop of `format_html_result`. */
  method AddHtmlBlock(prefix: string, element: Tag, i: nat) returns (result: string)
    ensures result == prefix + HtmlBlock(element, i)
  {
    var title := Title(i);
    result := prefix + title;
    var withText := AddText(result, element.text);
    var withAttrs := AddAttributes(withText, element.attrs);
    var withLinks := AddLinkLines(withAttrs, element);
    result := withLinks + "\n";
    Regroup(prefix, title, TextLine(element.text), AttrSection(element.attrs), LinkLines(element), "\n");
  }

  /** One iteration of the loop of `format_xml_result`. */
  method AddXmlBlock(prefix: string, element: Element, i: nat) returns (result: string)
    ensures result == prefix + XmlBlock(element, i)
  {
    var title := Title(i);
    result := prefix + title;
    var tagLine := TAG_LABEL + element.tag + "\n";
    result := result + tagLine;
    var withAttrs := AddAttributes(result, element.attrib);
    result := withAttrs;
    if element.text.Some? && Strip(element.text.value) != "" {
      result := AddText(result, Strip(element.text.value));
    }
    assert result == withAttrs + XmlTextLine(element.text);
    result := result + "\n";
    Regroup(prefix, title, tagLine, AttrSection(element.attrib), XmlTextLine(element.text), "\n");
  }

  /** Regrouping the pieces of a block appended to what came before. */
  lemma Regroup(p: string, a: string, b: string, c: string, d: string, e: string)
    ensures p + a + b + c + d + e == p + (a + b + c + d + e)
  {
  }

  method FormatHtmlResult(elements: seq<Tag>) returns (result: string)
    ensures result == HtmlReport(elements)
  {
    if |elements| == 0 {
      return NOT_FOUND;
    }
    ghost var blocks := seq(|elements|, i requires 0 <= i < |elements| => HtmlBlock(elements[i], i + 1));
    result := Header(|elements|);
    ghost var header := result;
    for n := 0 to |elements|
      invariant result == header + Flatten(blocks[..n])
    {
      FlattenStep(header, blocks, n);
      result := AddHtmlBlock(result, elements[n], n + 1);
    }
    assert blocks[..|elements|] == blocks;
  }

  method FormatXmlResult(elements: seq<Element>) returns (result: string)
    ensures result == XmlReport(elements)
  {
    if |elements| == 0 {
      return NOT_FOUND;
    }
    ghost var blocks := seq(|elements|, i requires 0 <= i < |elements| => XmlBlock(elements[i], i + 1));
    result := Header(|elements|);
    ghost var header := result;
    for n := 0 to |elements|
      invariant result == header + Flatten(blocks[..n])
    {
      FlattenStep(header, blocks, n);
      result := AddXmlBlock(result, elements[n], n + 1);
    }
    assert blocks[..|elements|] == blocks;
  }

  /** One iteration of the loop of `format_json_result`. */
  method AddJsonBlock(prefix: string, item: (string, Json), i: nat, dumps: Json -> string) returns (result: string)
    ensures result == prefix + JsonBlock(item, i, dumps)
  {
    var (key, value) := item;
    var title := Title(i);
    var keyLine := KEY_LABEL + key + "\n";
    var typeLine := TYPE_LABEL + TypeName(value) + "\n";
    var valueLine := VALUE_LABEL + dumps(value) + "\n";
    result := prefix + title;
    result := result + keyLine;
    result := result + typeLine;
    result := result + valueLine + "\n";
    Regroup(prefix, title, keyLine, typeLine, valueLine, "\n");
  }

  method FormatJsonResult(elements: seq<(string, Json)>, dumps: Json -> string) returns (result: string)
    ensures result == JsonReport(elements, dumps)
  {
    if |elements| == 0 {
      return NOT_FOUND;
    }
    ghost var blocks := seq(|elements|, i requires 0 <= i < |elements| => JsonBlock(elements[i], i + 1, dumps));
    result := Header(|elements|);
    ghost var header := result;
    for n := 0 to |elements|
      invariant result == header + Flatten(blocks[..n])
    {
      FlattenStep(header, blocks, n);
      result := AddJsonBlock(result, elements[n], n + 1, dumps);
    }
    assert blocks[..|elements|] == blocks;
  }

  /** Appending block `n` to what the first `n` blocks gave. */
  lemma FlattenStep(head: string, blocks: seq<string>, n: nat)
    requires n < |blocks|
    ensures head + Flatten(blocks[..n + 1]) == head + Flatten(blocks[..n]) + blocks[n]
  {
    assert blocks[..n + 1][..n] == blocks[..n];
  }

  // ----- What a report tells its reader -----

  /** Cutting a text that was already cut changes nothing. */
  lemma TruncateIdempotent(s: string)
    ensures Truncate(Truncate(s)) == Truncate(s)
  {
    if |s| > MAX_TEXT {
      var r := Truncate(s);
      assert r[..MAX_TEXT] + "..." == r;
    }
  }

  /** The longest prefix of `s` made of decimal digits. */
  function LeadingDigits(s: string): (d: string)
    ensures IsDigits(d) && |d| <= |s| && d == s[..|d|]
    ensures |d| < |s| ==> !('0' <= s[|d|] <= '9')
  {
    if s != [] && '0' <= s[0] <= '9' then [s[0]] + LeadingDigits(s[1..]) else []
  }

  lemma {:induction false} LeadingDigitsOf(d: string, rest: string)
    requires IsDigits(d)
    requires rest != [] && !('0' <= rest[0] <= '9')
    ensures LeadingDigits(d + rest) == d
  {
    if d != [] {
      assert (d + rest)[1..] == d[1..] + rest;
      LeadingDigitsOf(d[1..], rest);
      assert [d[0]] + d[1..] == d;
    } else {
      assert d + rest == rest;
    }
  }

  /** How a reader gets the number of results back from a report: zero for
      the "nothing found" line, otherwise the number after the count label. */
  function ReadCount(report: string): Option<nat> {
    if report == NOT_FOUND then Some(0)
    else if StartsWith(report, COUNT_PREFIX) then
      var digits := LeadingDigits(report[|COUNT_PREFIX|..]);
      if digits == [] then None else Some(DecimalValue(digits))
    else None
  }

  /** The count a report states is the number of blocks in it. */
  lemma ReportStatesCount(blocks: seq<string>)
    ensures ReadCount(Report(blocks)) == Some(|blocks|)
  {
    if blocks != [] {
      var digits := NatToString(|blocks|);
      var r := Report(blocks);
      var rest := "\n\n" + Flatten(blocks);
      assert r == COUNT_PREFIX + (digits + rest);
      assert r[..|COUNT_PREFIX|] == COUNT_PREFIX;
      assert r[|COUNT_PREFIX|..] == digits + rest;
      LeadingDigitsOf(digits, rest);
      NatToStringRoundTrip(|blocks|);
    }
  }

  /** A report is the "nothing found" line or starts with the count label. */
  predicate OpensAsReport(r: string) {
    r == NOT_FOUND || StartsWith(r, COUNT_PREFIX)
  }

  /** So a report is never empty, and its first letter is that of one of
      the two labels. */
  lemma ReportFirstLetter(r: string)
    requires OpensAsReport(r)
    ensures r != [] && (r[0] == NOT_FOUND[0] || r[0] == COUNT_PREFIX[0])
  {
    if r != NOT_FOUND {
      assert r[0] == r[..|COUNT_PREFIX|][0];
    }
  }

  lemma ReportOpening(blocks: seq<string>)
    ensures OpensAsReport(Report(blocks))
  {
    if blocks != [] {
      var rest := NatToString(|blocks|) + "\n\n" + Flatten(blocks);
      assert Report(blocks) == COUNT_PREFIX + rest;
      assert (COUNT_PREFIX + rest)[..|COUNT_PREFIX|] == COUNT_PREFIX;
    }
  }

  lemma HtmlReportOpening(ts: seq<Tag>)
    ensures OpensAsReport(HtmlReport(ts))
  {
    ReportOpening(seq(|ts|, i requires 0 <= i < |ts| => HtmlBlock(ts[i], i + 1)));
  }

  lemma XmlReportOpening(es: seq<Element>)
    ensures OpensAsReport(XmlReport(es))
  {
    ReportOpening(seq(|es|, i requires 0 <= i < |es| => XmlBlock(es[i], i + 1)));
  }

  lemma JsonReportOpening(items: seq<(string, Json)>, dumps: Json -> string)
    ensures OpensAsReport(JsonReport(items, dumps))
  {
    ReportOpening(seq(|items|, i requires 0 <= i < |items| => JsonBlock(items[i], i + 1, dumps)));
  }

  lemma HtmlReportStatesCount(ts: seq<Tag>)
    ensures ReadCount(HtmlReport(ts)) == Some(|ts|)
  {
    ReportStatesCount(seq(|ts|, i requires 0 <= i < |ts| => HtmlBlock(ts[i], i + 1)));
  }

  lemma XmlReportStatesCount(es: seq<Element>)
    ensures ReadCount(XmlReport(es)) == Some(|es|)
  {
    ReportStatesCount(seq(|es|, i requires 0 <= i < |es| => XmlBlock(es[i], i + 1)));
  }

  lemma JsonReportStatesCount(items: seq<(string, Json)>, dumps: Json -> string)
    ensures ReadCount(JsonReport(items, dumps)) == Some(|items|)
  {
    ReportStatesCount(seq(|items|, i requires 0 <= i < |items| => JsonBlock(items[i], i + 1, dumps)));
  }

  /** Distinct result numbers give distinct block titles. */
  lemma TitleInjective(i: nat, j: nat)
    requires Title(i) == Title(j)
    ensures i == j
  {
    var pre := "--- Элемент ";
    var a, b := NatToString(i), NatToString(j);
    assert Title(i) == pre + a + " ---\n";
    assert Title(j) == pre + b + " ---\n";
    assert |a| == |b|;
    assert a == Title(i)[|pre|..|pre| + |a|];
    assert b == Title(j)[|pre|..|pre| + |b|];
    NatToStringInjective(i, j);
  }

  /** Empty, or ending with a line break. */
  predicate Lines(s: string) {
    s == [] || s[|s| - 1] == '\n'
  }

  /** A block opens with its numbered title and closes with a blank line,
      which is what separates it from the next one. */
  predicate Framed(block: string, i: nat) {
    StartsWith(block, Title(i)) && |block| >= |Title(i)| + 1
    && block[|block| - 2..] == "\n\n"
  }

  lemma LinesAppend(a: string, b: string)
    requires Lines(a) && Lines(b)
    ensures Lines(a + b)
  {
  }

  /** The end of every appended section is a line break. */
  lemma SectionsAreLines(text: string, attrs: seq<(string, string)>)
    ensures Lines(TextLine(text)) && Lines(AttrSection(attrs))
  {
    if attrs != [] {
      var init := attrs[..|attrs| - 1];
      assert AttrLines(attrs) == AttrLines(init) + AttrLine(attrs[|attrs| - 1]);
    }
  }

  lemma FramedFrom(i: nat, body: string)
    requires Lines(body)
    ensures Framed(Title(i) + body + "\n", i)
  {
    var t := Title(i);
    var block := t + body + "\n";
    assert block[..|t|] == t;
    if body == [] {
      assert block[|block| - 2] == t[|t| - 1];
    } else {
      assert block[|block| - 2] == body[|body| - 1];
    }
  }

  /** A title, three sections that each end a line, and the closing
      line break make a framed block. */
  lemma FramedSections(i: nat, a: string, b: string, c: string)
    requires Lines(a) && Lines(b) && Lines(c)
    ensures Framed(Title(i) + a + b + c + "\n", i)
  {
    LinesAppend(a, b);
    LinesAppend(a + b, c);
    FramedFrom(i, a + b + c);
    assert Title(i) + a + b + c == Title(i) + (a + b + c);
  }

  lemma HtmlBlockFramed(t: Tag, i: nat)
    ensures Framed(HtmlBlock(t, i), i)
  {
    SectionsAreLines(t.text, t.attrs);
    FramedSections(i, TextLine(t.text), AttrSection(t.attrs), LinkLines(t));
  }

  lemma XmlBlockFramed(e: Element, i: nat)
    ensures Framed(XmlBlock(e, i), i)
  {
    var text := if e.text.Some? then Strip(e.text.value) else "";
    SectionsAreLines(text, e.attrib);
    assert Lines(XmlTextLine(e.text));
    FramedSections(i, TagLine(e.tag), AttrSection(e.attrib), XmlTextLine(e.text));
  }

  lemma JsonBlockFramed(item: (string, Json), i: nat, dumps: Json -> string)
    ensures Framed(JsonBlock(item, i, dumps), i)
  {
    FramedSections(i, KeyLine(item.0), TypeLine(item.1), ValueLine(dumps(item.1)));
  }

  /** The text line of an XML element is there exactly when the element
      has text that is not blank. */
  lemma XmlTextShownIff(text: Option<string>)
    ensures XmlTextLine(text) != "" <==> text.Some? && Strip(text.value) != ""
  {
  }
}
