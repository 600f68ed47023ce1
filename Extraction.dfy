/** `ParserApp.parse_data` and the three `parse_*` methods it dispatches
    to: the loaded document and the stripped query go to the parser of the
    chosen format, the results to its formatter, and whatever is raised
    on the way becomes an `Ошибка: ...` line in the output. */
module Extraction {
  import opened Results
  import opened PyText
  import opened HtmlQuery
  import opened XmlQuery
  import opened JsonSearch
  import opened Formatters

  /** The data-type radio buttons. */
  datatype Format = HTML | XML | JSON

  /** How the `//` branch of `parse_xml` is read: as written, where it
      calls `.iter()` on the list `root.findall('.')` returns; or as
      intended, filtering the element tree in document order. */
  datatype Walk = AsWritten | PreOrder

  /** The library calls the core makes, as functions of their inputs:
      `findAll(content, tag, attrs)` is `BeautifulSoup(content,
      'html.parser').find_all(tag)` for `None` and with `attrs=attrs`
      otherwise; `fromString` is `ET.fromstring`, failing with the
      `ParseError` text; `findAllPath(root, path)` is `root.findall(path)`,
      failing with the text of what it raises; `loads` is `json.loads`,
      failing with the `JSONDecodeError` text; `dumps` is `json.dumps`
      with `ensure_ascii=False, indent=2`. */
  datatype Library = Library(
    findAll: (string, string, Option<map<string, AttrVal>>) -> seq<Tag>,
    fromString: string -> Result<Element>,
    findAllPath: (Element, string) -> Result<seq<Element>>,
    loads: string -> Result<Json>,
    dumps: Json -> string)

  const ERROR_PREFIX := "Ошибка: "
  const LOAD_PREFIX := "Ошибка загрузки данных: "
  const XML_PARSE_PREFIX := "Ошибка парсинга XML: "
  const JSON_PARSE_PREFIX := "Ошибка парсинга JSON: "
  const ENTER_QUERY := "Введите запрос для поиска"
  /** `str(e)` of the AttributeError raised by `elements.iter()`. */
  const LIST_HAS_NO_ITER := "'list' object has no attribute 'iter'"

  /** `parse_html`: the query is parsed, then `find_all` gets the dict only
      when it is not empty. */
  function ParseHtml(lib: Library, content: string, query: string): Result<seq<Tag>> {
    match Parse(query)
    case Err(msg) => Err(msg)
    case Ok(q) =>
      Ok(if |q.attrs| == 0 then lib.findAll(content, q.tag, None)
         else lib.findAll(content, q.tag, Some(q.attrs)))
  }

  /** `parse_xml`: a parse error is re-raised with its prefix; a `//`
      query goes to the element filter, any other to `findall('.//' + query)`. */
  function ParseXml(lib: Library, walk: Walk, content: string, query: string): Result<seq<Element>> {
    match lib.fromString(content)
    case Err(msg) => Err(XML_PARSE_PREFIX + msg)
    case Ok(root) =>
      if StartsWith(query, "//") then
        match walk
        case AsWritten => Err(LIST_HAS_NO_ITER)
        case PreOrder => Select(Iter(root), query)
      else lib.findAllPath(root, ".//" + query)
  }

  /** `parse_json`: a decode error is re-raised with its prefix, otherwise
      the key search runs over the decoded document. */
  function ParseJson(lib: Library, content: string, query: string): Result<seq<(string, Json)>> {
    match lib.loads(content)
    case Err(msg) => Err(JSON_PARSE_PREFIX + msg)
    case Ok(data) => Ok(Find(data, query))
  }

  /** The report for a non-blank query, or the message of what was raised. */
  function Extract(lib: Library, walk: Walk, content: string, format: Format, query: string): Result<string> {
    match format
    case HTML =>
      (match ParseHtml(lib, content, query)
       case Err(msg) => Err(msg)
       case Ok(es) => Ok(HtmlReport(es)))
    case XML =>
      (match ParseXml(lib, walk, content, query)
       case Err(msg) => Err(msg)
       case Ok(es) => Ok(XmlReport(es)))
    case JSON =>
      (match ParseJson(lib, content, query)
       case Err(msg) => Err(msg)
       case Ok(items) => Ok(JsonReport(items, lib.dumps)))
  }

  /** What `parse_data` inserts for an extraction: the report, or the
      message of what was raised after the error label. */
  function Shown(outcome: Result<string>): string {
    match outcome
    case Err(msg) => ERROR_PREFIX + msg
    case Ok(report) => report
  }

  /** What `parse_data` leaves in the output widget. `loaded` is what
      `get_data_content` returned, or the text of the exception it caught,
      which it re-raises behind the load label; the document is loaded
      before the query is looked at. */
  function Run(lib: Library, walk: Walk, loaded: Result<string>, format: Format, rawQuery: string): string {
    match loaded
    case Err(msg) => ERROR_PREFIX + LOAD_PREFIX + msg
    case Ok(content) =>
      var query := Strip(rawQuery);
      if query == "" then ENTER_QUERY else Shown(Extract(lib, walk, content, format, query))
  }

  /** The HTML branch of `parse_data`: the query loop of `parse_html`,
      `find_all`, then `format_html_result`. */
  method ExtractHtml(lib: Library, content: string, query: string) returns (r: Result<string>)
    ensures r == Extract(lib, AsWritten, content, HTML, query)
  {
    var parsed := ParseQuery(query);
    if parsed.Err? {
      return Err(parsed.msg);
    }
    var q := parsed.value;
    var elements;
    if |q.attrs| == 0 {
      elements := lib.findAll(content, q.tag, None);
    } else {
      elements := lib.findAll(content, q.tag, Some(q.attrs));
    }
    var report := FormatHtmlResult(elements);
    return Ok(report);
  }

  /** The XML branch of `parse_data`: `parse_xml`, then `format_xml_result`. */
  method ExtractXml(lib: Library, walk: Walk, content: string, query: string) returns (r: Result<string>)
    ensures r == Extract(lib, walk, content, XML, query)
  {
    var root := lib.fromString(content);
    if root.Err? {
      return Err(XML_PARSE_PREFIX + root.msg);
    }
    var elements;
    if StartsWith(query, "//") {
      if walk == AsWritten {
        return Err(LIST_HAS_NO_ITER);
      }
      elements := SelectDescendants(root.value, query);
    } else {
      elements := lib.findAllPath(root.value, ".//" + query);
    }
    if elements.Err? {
      return Err(elements.msg);
    }
    var report := FormatXmlResult(elements.value);
    return Ok(report);
  }

  /** The JSON branch of `parse_data`: `parse_json` with `find_in_json`,
      then `format_json_result`. */
  method ExtractJson(lib: Library, content: string, query: string) returns (r: Result<string>)
    ensures r == Extract(lib, AsWritten, content, JSON, query)
  {
    var data := lib.loads(content);
    if data.Err? {
      return Err(JSON_PARSE_PREFIX + data.msg);
    }
    var items := FindInJson(data.value, query);
    var report := FormatJsonResult(items, lib.dumps);
    return Ok(report);
  }

  /** `parse_data` put together from the loop-based pieces. */
  method ParseData(lib: Library, walk: Walk, loaded: Result<string>, format: Format, rawQuery: string)
    returns (output: string)
    ensures output == Run(lib, walk, loaded, format, rawQuery)
  {
    if loaded.Err? {
      return ERROR_PREFIX + LOAD_PREFIX + loaded.msg;
    }
    var query := Strip(rawQuery);
    if query == "" {
      return ENTER_QUERY;
    }
    var outcome;
    match format {
      case HTML =>
        outcome := ExtractHtml(lib, loaded.value, query);
      case XML =>
        outcome := ExtractXml(lib, walk, loaded.value, query);
      case JSON =>
        outcome := ExtractJson(lib, loaded.value, query);
    }
    assert outcome == Extract(lib, walk, loaded.value, format, query);
    output := if outcome.Err? then ERROR_PREFIX + outcome.msg else outcome.value;
  }

  // ----- What the output shows -----

  /** For a loaded document, only the stripped query matters. */
  lemma RunOnStrippedQuery(lib: Library, walk: Walk, content: string, format: Format, rawQuery: string, query: string)
    requires Strip(rawQuery) == query
    ensures Run(lib, walk, Ok(content), format, rawQuery)
            == if query == "" then ENTER_QUERY else Shown(Extract(lib, walk, content, format, query))
  {
  }

  /** An extraction that raised is shown as its message after the label. */
  lemma RunShowsError(lib: Library, walk: Walk, content: string, format: Format, rawQuery: string, msg: string)
    requires Strip(rawQuery) != "" && Extract(lib, walk, content, format, Strip(rawQuery)) == Err(msg)
    ensures Run(lib, walk, Ok(content), format, rawQuery) == ERROR_PREFIX + msg
  {
    RunOnStrippedQuery(lib, walk, content, format, rawQuery, Strip(rawQuery));
  }

  /** A successful extraction is shown as the report itself. */
  lemma RunShowsReport(lib: Library, walk: Walk, content: string, format: Format, rawQuery: string, report: string)
    requires Strip(rawQuery) != "" && Extract(lib, walk, content, format, Strip(rawQuery)) == Ok(report)
    ensures Run(lib, walk, Ok(content), format, rawQuery) == report
  {
    RunOnStrippedQuery(lib, walk, content, format, rawQuery, Strip(rawQuery));
  }

  /** Every report opens with the "nothing found" or the count label. */
  lemma ReportStartsWithLabel(report: string, lib: Library, walk: Walk, content: string, format: Format, query: string)
    requires Extract(lib, walk, content, format, query) == Ok(report)
    ensures OpensAsReport(report)
  {
    match format
    case HTML => HtmlReportOpening(ParseHtml(lib, content, query).value);
    case XML => XmlReportOpening(ParseXml(lib, walk, content, query).value);
    case JSON => JsonReportOpening(ParseJson(lib, content, query).value, lib.dumps);
  }

  /** The output is never empty. */
  lemma RunNeverEmpty(lib: Library, walk: Walk, loaded: Result<string>, format: Format, rawQuery: string)
    ensures Run(lib, walk, loaded, format, rawQuery) != ""
  {
    if loaded.Ok? {
      var query := Strip(rawQuery);
      RunOnStrippedQuery(lib, walk, loaded.value, format, rawQuery, query);
      if query != "" {
        var e := Extract(lib, walk, loaded.value, format, query);
        if e.Ok? {
          ReportStartsWithLabel(e.value, lib, walk, loaded.value, format, query);
          ReportFirstLetter(e.value);
        }
      }
    }
  }

  /** Surrounding whitespace of the query makes no difference. */
  lemma RunIgnoresSurroundingSpace(lib: Library, walk: Walk, loaded: Result<string>, format: Format, rawQuery: string)
    ensures Run(lib, walk, loaded, format, rawQuery) == Run(lib, walk, loaded, format, Strip(rawQuery))
  {
    if loaded.Ok? {
      var query := Strip(rawQuery);
      assert Strip(query) == query by {
        StripIdempotent(rawQuery);
      }
      RunOnStrippedQuery(lib, walk, loaded.value, format, rawQuery, query);
      RunOnStrippedQuery(lib, walk, loaded.value, format, query, query);
    }
  }

  /** A failed load is reported whatever the query, blank or not, and
      whatever the format: the document is fetched first. */
  lemma LoadFailureWins(lib: Library, walk: Walk, msg: string, format: Format, rawQuery: string)
    ensures Run(lib, walk, Err(msg), format, rawQuery) == ERROR_PREFIX + LOAD_PREFIX + msg
  {
  }

  /** A loaded document and a blank query give the "enter a query" line. */
  lemma BlankQueryAsksForQuery(lib: Library, walk: Walk, content: string, format: Format, rawQuery: string)
    requires forall k :: 0 <= k < |rawQuery| ==> rawQuery[k] in WHITESPACE
    ensures Run(lib, walk, Ok(content), format, rawQuery) == ENTER_QUERY
  {
    RunOnStrippedQuery(lib, walk, content, format, rawQuery, Strip(rawQuery));
  }

  /** The output is an error line exactly when the load failed or the
      extraction for a non-blank query raised; otherwise it is the report
      (or the "enter a query" line). */
  lemma ErrorLineIff(lib: Library, walk: Walk, loaded: Result<string>, format: Format, rawQuery: string)
    ensures StartsWith(Run(lib, walk, loaded, format, rawQuery), ERROR_PREFIX)
            <==> loaded.Err?
                 || (Strip(rawQuery) != "" && Extract(lib, walk, loaded.value, format, Strip(rawQuery)).Err?)
  {
    var out := Run(lib, walk, loaded, format, rawQuery);
    if loaded.Err? {
      assert out == ERROR_PREFIX + (LOAD_PREFIX + loaded.msg);
      assert out[..|ERROR_PREFIX|] == ERROR_PREFIX;
    } else {
      var query := Strip(rawQuery);
      RunOnStrippedQuery(lib, walk, loaded.value, format, rawQuery, query);
      if query == "" {
        assert out[0] != ERROR_PREFIX[0];
      } else {
        var e := Extract(lib, walk, loaded.value, format, query);
        if e.Ok? {
          ReportStartsWithLabel(e.value, lib, walk, loaded.value, format, query);
          ReportFirstLetter(e.value);
          assert out[0] != ERROR_PREFIX[0];
        } else {
          assert out[..|ERROR_PREFIX|] == ERROR_PREFIX;
        }
      }
    }
  }

  /** An HTML query where a bare piece follows a `class=...` piece is
      reported as the AttributeError of `str.append`. */
  lemma HtmlClassAfterAssignFails(lib: Library, walk: Walk, content: string, rawQuery: string)
    requires Strip(rawQuery) != "" && ClassAfterAssign(Segments(Strip(rawQuery)))
    ensures Run(lib, walk, Ok(content), HTML, rawQuery) == ERROR_PREFIX + APPEND_ON_STR
  {
    ParseFailsIff(Strip(rawQuery));
    RunShowsError(lib, walk, content, HTML, rawQuery, APPEND_ON_STR);
  }

  /** An HTML query without `.` asks `find_all` for the bare tag, with no
      `attrs` argument. */
  lemma HtmlTagOnlyQuery(lib: Library, walk: Walk, content: string, rawQuery: string)
    requires Strip(rawQuery) != "" && '.' !in rawQuery
    ensures Run(lib, walk, Ok(content), HTML, rawQuery)
            == HtmlReport(lib.findAll(content, Strip(rawQuery), None))
  {
    var query := Strip(rawQuery);
    assert '.' !in query;
    NoDotMeansNoFilters(query);
    StripIdempotent(rawQuery);
    RunShowsReport(lib, walk, content, HTML, rawQuery, HtmlReport(lib.findAll(content, query, None)));
  }

  /** A malformed XML document is reported with the parser's message. */
  lemma XmlParseErrorReported(lib: Library, walk: Walk, content: string, rawQuery: string, msg: string)
    requires Strip(rawQuery) != "" && lib.fromString(content) == Err(msg)
    ensures Run(lib, walk, Ok(content), XML, rawQuery) == ERROR_PREFIX + XML_PARSE_PREFIX + msg
  {
    RunShowsError(lib, walk, content, XML, rawQuery, XML_PARSE_PREFIX + msg);
    AppendAssoc(ERROR_PREFIX, XML_PARSE_PREFIX, msg);
  }

  /** As written, every `//` query on a well-formed XML document fails
      with the AttributeError of `list.iter`. */
  lemma XmlDescendantQueryFailsAsWritten(lib: Library, content: string, rawQuery: string)
    requires StartsWith(Strip(rawQuery), "//") && lib.fromString(content).Ok?
    ensures Run(lib, AsWritten, Ok(content), XML, rawQuery) == ERROR_PREFIX + LIST_HAS_NO_ITER
  {
    RunShowsError(lib, AsWritten, content, XML, rawQuery, LIST_HAS_NO_ITER);
  }

  /** As intended, a `//tag` query reports exactly the elements of the
      tree with that tag, in document order. */
  lemma XmlDescendantQueryAsIntended(lib: Library, content: string, rawQuery: string, tag: string)
    requires lib.fromString(content).Ok?
    requires Strip(rawQuery) == "//" + tag && '[' !in tag
    ensures Run(lib, PreOrder, Ok(content), XML, rawQuery)
            == XmlReport(WithTag(Iter(lib.fromString(content).value), tag))
  {
    var root := lib.fromString(content).value;
    var query := "//" + tag;
    assert StartsWith(query, "//");
    TagQuerySelectsTag(root, tag);
    RunShowsReport(lib, PreOrder, content, XML, rawQuery, XmlReport(WithTag(Iter(root), tag)));
  }

  /** A non-`//` XML query is handed to `findall` as `.//` + the query. */
  lemma XmlTagQueryUsesFindall(lib: Library, walk: Walk, content: string, rawQuery: string)
    requires Strip(rawQuery) != "" && !StartsWith(Strip(rawQuery), "//")
    requires lib.fromString(content).Ok?
    requires lib.findAllPath(lib.fromString(content).value, ".//" + Strip(rawQuery)).Ok?
    ensures Run(lib, walk, Ok(content), XML, rawQuery)
            == XmlReport(lib.findAllPath(lib.fromString(content).value, ".//" + Strip(rawQuery)).value)
  {
    var found := lib.findAllPath(lib.fromString(content).value, ".//" + Strip(rawQuery)).value;
    RunShowsReport(lib, walk, content, XML, rawQuery, XmlReport(found));
  }

  /** A document `json.loads` rejects is reported with its message. */
  lemma JsonParseErrorReported(lib: Library, walk: Walk, content: string, rawQuery: string, msg: string)
    requires Strip(rawQuery) != "" && lib.loads(content) == Err(msg)
    ensures Run(lib, walk, Ok(content), JSON, rawQuery) == ERROR_PREFIX + JSON_PARSE_PREFIX + msg
  {
    RunShowsError(lib, walk, content, JSON, rawQuery, JSON_PARSE_PREFIX + msg);
    AppendAssoc(ERROR_PREFIX, JSON_PARSE_PREFIX, msg);
  }

  /** A decoded JSON document is searched for the stripped query and the
      pairs found are formatted. */
  lemma JsonReportShown(lib: Library, walk: Walk, content: string, data: Json, rawQuery: string)
    requires lib.loads(content) == Ok(data) && Strip(rawQuery) != ""
    ensures Run(lib, walk, Ok(content), JSON, rawQuery) == JsonReport(Find(data, Strip(rawQuery)), lib.dumps)
  {
    var query := Strip(rawQuery);
    JsonExtracted(lib, walk, content, data, query);
    RunShowsReport(lib, walk, content, JSON, rawQuery, JsonReport(Find(data, query), lib.dumps));
  }

  lemma JsonExtracted(lib: Library, walk: Walk, content: string, data: Json, query: string)
    requires lib.loads(content) == Ok(data)
    ensures Extract(lib, walk, content, JSON, query) == Ok(JsonReport(Find(data, query), lib.dumps))
  {
  }

  /** The report of a `*` search states the number of keys. */
  lemma WildcardReportCount(data: Json, dumps: Json -> string)
    ensures ReadCount(JsonReport(Find(data, "*"), dumps)) == Some(KeyCount(data))
  {
    JsonReportStatesCount(Find(data, "*"), dumps);
    WildcardCountsEveryKey(data);
  }

  /** The count in the report of a `*` search over a JSON document is the
      number of keys of all its objects. */
  lemma JsonWildcardCount(lib: Library, walk: Walk, content: string, data: Json, rawQuery: string)
    requires lib.loads(content) == Ok(data) && Strip(rawQuery) == "*"
    ensures ReadCount(Run(lib, walk, Ok(content), JSON, rawQuery)) == Some(KeyCount(data))
  {
    JsonReportShown(lib, walk, content, data, rawQuery);
    WildcardReportCount(data, lib.dumps);
  }

  /** A JSON document without the queried key gives the "nothing found" line. */
  lemma JsonMissingKeyNotFound(lib: Library, walk: Walk, content: string, data: Json, rawQuery: string)
    requires lib.loads(content) == Ok(data) && Strip(rawQuery) != ""
    requires forall r :: r in Find(data, "*") ==> !KeyMatches(Strip(rawQuery), r.0)
    ensures Run(lib, walk, Ok(content), JSON, rawQuery) == NOT_FOUND
  {
    var query := Strip(rawQuery);
    ReportedKeysMatch(data, query);
    assert forall k :: 0 <= k < |Find(data, query)| ==> Find(data, query)[k] !in Find(data, query);
    JsonReportShown(lib, walk, content, data, rawQuery);
  }
}
