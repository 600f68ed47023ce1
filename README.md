# ParserApp query and extraction core, modelled in Dafny

`ParserApp` (main.py) is a small desktop tool. It loads an HTML, XML or JSON
document from a URL or a file, takes a one-line query, and prints a text
report of what the query found. This project models the part between the
loaded document and the printed report:

- the HTML query language of `parse_html`. The text is split on `.`; the first piece
  is the tag, `key=value` pieces become attribute filters and bare pieces
  become class names (module `HtmlQuery`);
- the XML predicate `match_xml_path` (`//tag` and `//tag[@name=value]`),
  and the filter over `root.iter()` that the `//` branch of `parse_xml`
  was written to perform (module `XmlQuery`);
- the recursive key search `find_in_json` over a decoded JSON value
  whose objects keep their insertion order (module `JsonSearch`);
- the three report formatters `format_html_result`, `format_xml_result` and
  `format_json_result`. They cover the "nothing found" sentinel, the count header,
  1-based numbered blocks and the 200-character cut of texts (module `Formatters`);
- `parse_data`. It strips the query, answers a blank query with the "enter a
  query" line, dispatches on the format and turns anything raised into
  an `Ошибка: ...` line (module `Extraction`).

`PyText` models the Python string operations the core relies on:
- `strip()` and `strip(chars)`;
- `split` on one character;
- the first index of a character, with which `HtmlQuery.Classify` writes
  `split('=', 1)` as two slices;
- `replace(c, '')`, `startswith` and slicing;
- `dict.get`;
- the decimal rendering of a count.

`Results` holds the `Option` and `Result` types. A `Result` error
carries the text of the Python exception that would be raised.

The code builds strings and dictionaries step by step. Those parts are
written as methods, with loops where the code has them:
- `HtmlQuery.ParseQuery`, the `for part in parts[1:]` loop;
- `JsonSearch.FindInJson`, with `append`/`extend` inside loops;
- the `Formatters.Format*Result` loops and the `Add*` methods they call,
  which grow the report with `+=`;
- `XmlQuery.SelectDescendants`, the intended `for elem in root.iter()` loop;
- `Extraction.ParseData` and the `Extract*` methods, which call the methods
  above and have no loop of their own.

Each method is proved equal to a specification function. The
properties are proved about those functions. The library calls
(BeautifulSoup `find_all`, `ET.fromstring`, `findall`, `json.loads`,
`json.dumps`) are fields of `Extraction.Library`. They are functions of their
inputs, about which nothing is assumed.

Behaviours of the code a reader might not expect:
- a bare piece after a `class=...` piece makes the HTML loop call `append` on
  a string, which raises AttributeError (main.py:197-200);
- the attribute name of an XML predicate loses every `@`, wherever it
  stands (main.py:242). The bracket text runs up to the next `[` or `]`
  (main.py:237). When the tag matches and the bracket text holds an `@`,
  bracket text with no `=` or with several `=` raises ValueError
  (main.py:239-241). When the tag differs or the bracket text has no `@`,
  the predicate is `False` (main.py:248);
- the `//` branch of `parse_xml` calls `.iter()` on a list, so it raises
  for every query (main.py:221-223). See "## Findings".

## Model

| member | source | states |
|---|---|---|
| PyText.StripChars | main.py:243 | `s.strip(chars)` is the slice of `s` left once a leading and a trailing run of stripped characters are cut off. It neither starts nor ends with a stripped character. It is empty exactly when every character of `s` is stripped. It is `s` itself when neither end of `s` is stripped |
| PyText.Strip | main.py:189 | `s.strip()`: StripChars with `WHITESPACE`, the 29 characters for which Python's `str.isspace` holds, stripped from both ends |
| PyText.StripIdempotent | main.py:355 | stripping a stripped query changes nothing |
| PyText.Split | main.py:188 | `split(sep)` gives one more piece than there are separators. No piece holds the separator. The first piece is the text before the first separator |
| PyText.SplitJoin | main.py:188 | joining the pieces of a split with the separator gives back the original text |
| PyText.SplitAt | main.py:188 | splitting `a + sep + b`, where `a` has no separator, gives `a` and then the pieces of `b` |
| PyText.RemoveAll | main.py:242 | `replace('@', '')` leaves no `@`. Every other character keeps its number of occurrences |
| PyText.RemoveAllAppend | main.py:242 | `replace` of a concatenation is the concatenation of the two replacements, so the kept characters stay in order |
| PyText.RemoveAllSingle | main.py:242 | a single `@` disappears and any other single character stays |
| PyText.IndexOf | main.py:236 | the index found holds the character, and nothing before it does |
| PyText.LookupOr | main.py:298-302 | `element.get(key, default)` is the default when the key is absent. Otherwise it is the value of the key's first pair |
| PyText.Drop | main.py:234 | `query[2:]`: the text after the first two characters, empty when the text is shorter |
| PyText.StartsWith | main.py:220 | `query.startswith(prefix)`: the text is at least as long as the prefix and its first characters are the prefix |
| PyText.Lookup | main.py:244 | `element.get(name)` is `None` exactly when no pair has the key, and otherwise the value of the key's first pair |
| PyText.NatToString | main.py:280 | `f"{n}"` is a non-empty run of decimal digits with no leading zero; NatToStringRoundTrip reads it back as `n` |
| PyText.NatToStringRoundTrip | main.py:280 | the decimal text of a count reads back as that count |
| PyText.NatToStringInjective | main.py:283 | different numbers have different decimal texts |
| HtmlQuery.Segments | main.py:188-192 | the pieces `query.split('.')[1:]`, each classified, in query order: what the loop at main.py:192 iterates over |
| HtmlQuery.Classify | main.py:193-202 | one piece after the tag: with an `=` it assigns the stripped text before the first `=` the stripped rest (see SplitsAtFirstEquals), otherwise it is the stripped class name |
| HtmlQuery.Step | main.py:193-202 | one pass of the loop body: an assignment overwrites the key; a bare name starts the class list, extends it, or raises AttributeError when `class` holds a string |
| HtmlQuery.Attrs | main.py:192-202 | the `attrs` dict after the loop over all pieces, or the first AttributeError; AttrsCharacterized states its content |
| HtmlQuery.Parse | main.py:188-202 | the stripped base tag and the `attrs` dict of a query, or the AttributeError; ParseFailsIff and ParseAttrs characterize it |
| HtmlQuery.ParseQuery | main.py:188-202 | the loop that builds the `attrs` dict in place computes `Parse`: the stripped tag and the dict, or the AttributeError |
| HtmlQuery.LastValue | main.py:193-197 | it is absent exactly when no piece assigns the key. Otherwise it is the value of an assignment to that key that no later assignment overrides |
| HtmlQuery.BareNames | main.py:198-202 | the class names are empty exactly when every piece has an `=` |
| HtmlQuery.AttrsCharacterized | main.py:192-202 | the loop raises the AttributeError of `str.append` exactly when a `class=...` piece comes before a bare piece. Otherwise the dict holds each other key's last value, and `class` holds the last `class=` value, else the bare names, else nothing |
| HtmlQuery.OtherKeyValue | main.py:193-197 | a key other than `class` is in the dict exactly when some piece assigns it, and it holds the last value assigned |
| HtmlQuery.ClassValue | main.py:197-202 | what `class` holds after the loop, and when the loop raises instead |
| HtmlQuery.TagIsFirstPiece | main.py:188-189 | the tag is the stripped text before the first `.`, or the whole stripped query when there is no `.` |
| HtmlQuery.NoDotMeansNoFilters | main.py:188-192 | a query without `.` gives the stripped query as tag and an empty dict |
| HtmlQuery.ParseFailsIff | main.py:197-200 | parsing fails exactly when a `class=...` piece precedes a bare piece. The message is that of the AttributeError |
| HtmlQuery.ParseAttrs | main.py:192-202 | a successful parse yields the dict described by the pieces (last assignment wins; class list or class value) |
| HtmlQuery.SplitsAtFirstEquals | main.py:193-196 | a piece splits at its first `=` only. The value keeps any later `=`, and both halves are stripped |
| HtmlQuery.TrailingDotIsEmptyClass | main.py:198-202 | `div.` asks for the single empty class name `['']` |
| XmlQuery.TagPart | main.py:236 | `query.split('[')[0]`, the text before the first `[` (see BracketParts) |
| XmlQuery.AttrPart | main.py:237 | `query.split('[')[1].split(']')[0]`, the text after the first `[` up to the next bracket (see BracketParts) |
| XmlQuery.AttrTest | main.py:240-244 | the `@` test raises exactly when the bracket text holds other than one `=`, with the not-enough-values error exactly when it holds none. Otherwise it compares the looked-up attribute with the unquoted value |
| XmlQuery.Match | main.py:231-248 | `match_xml_path` raises only one of the two unpacking errors, and holds only of an element whose tag is the query after `//` or its part before the first `[`; the lemmas below pin down every case |
| XmlQuery.MatchWithoutBrackets | main.py:234-235 | if `query[2:]` lacks a `[` or a `]`, the predicate is equality of the tag with `query[2:]` |
| XmlQuery.BracketParts | main.py:236-237 | the tag part is the text before the first `[`. The bracket text is the bracket-free text after it, up to the next `[` or `]` or the end |
| XmlQuery.BracketsNeedTagAndAt | main.py:235-248 | with brackets, a differing tag or bracket text without `@` gives `False` |
| XmlQuery.MatchFailsIff | main.py:239-241 | the predicate raises exactly when the tag matches, the bracket text has `@`, and it holds other than one `=`. The message is then one of the two unpacking ValueErrors |
| XmlQuery.SimpleBrackets | main.py:236-237 | in `tag[inner]` with no other brackets, the tag part is `tag` and the bracket text is `inner` |
| XmlQuery.MatchSimpleBrackets | main.py:234-248 | on `//tag[inner]`, the predicate is the `@` test on `inner` when the tag matches and `inner` has `@`. Otherwise it is `False` |
| XmlQuery.PositionalNeverMatches | main.py:240 | `//tag[text]` with no `@` in `text` holds of no element |
| XmlQuery.ItemOneNeverMatches | main.py:240 | `//item[1]` holds of no element |
| XmlQuery.AttributePredicate | main.py:240-244 | `//tag[@name=value]` holds exactly when the tag matches and the attribute (every `@` removed, whitespace stripped) equals the value with only quotes stripped. A missing attribute gives `False` |
| XmlQuery.NameValueTest | main.py:241-244 | the `@` test on `name=value` compares the named attribute with the unquoted value |
| XmlQuery.Iter | main.py:223 | `root.iter()` is non-empty and starts with the root |
| XmlQuery.Filter | main.py:222-225 | the elements a test accepts, in order, or the first error the test raises, built element by element as the loop does |
| XmlQuery.Select | main.py:222-225 | `Filter` with `match_xml_path` as the test: the result list of the intended loop, or the predicate's first error |
| XmlQuery.Accepted | main.py:222-225 | the accepted elements computed front to back, the reference SelectInOrder compares the selection with |
| XmlQuery.SelectDescendants | main.py:222-226 | the loop appending every element of `root.iter()` that the predicate accepts computes `Select` over the pre-order walk (intended behaviour, see Findings) |
| XmlQuery.SelectStep | main.py:223-225 | one more element extends the selection when the predicate accepts it, keeps it when the predicate rejects it, and raises when the predicate raises |
| XmlQuery.SelectErrPersists | main.py:223-225 | once the predicate has raised, later elements do not change the outcome |
| XmlQuery.SelectFirstError | main.py:223-225 | the filter raises exactly when the predicate raises on some element. The message is that of the first such element |
| XmlQuery.SelectKeepsAccepted | main.py:223-225 | without an error, the filter keeps exactly the elements the predicate accepts. It keeps no more of them than there are |
| XmlQuery.SelectOne | main.py:223-225 | one element is kept when the predicate accepts it, dropped when it rejects it, and the predicate's error is raised |
| XmlQuery.SelectAppend | main.py:223-225 | selecting from two stretches of the walk gives the first stretch's selection followed by the second's, or the first error: document order and repeated elements are kept |
| XmlQuery.SelectInOrder | main.py:223-225 | without an error, the selection is the accepted elements in walk order, each as often as it occurs (`Accepted`, computed front to back) |
| XmlQuery.WithTag | main.py:246 | the elements with a given tag, in order: an element is in it exactly when it is in the list and has that tag |
| XmlQuery.SelectTag | main.py:220-226 | `//tag` on any element list selects exactly `WithTag`, in order, without error |
| XmlQuery.SelectNone | main.py:223-225 | elements the predicate rejects throughout select nothing |
| XmlQuery.ItemOneSelectsNothing | main.py:220-226 | `//item[1]` selects nothing from any tree |
| XmlQuery.TagQuerySelectsTag | main.py:220-226 | `//tag` selects the elements of the tree with that tag in document order (`WithTag` of the walk), without error |
| JsonSearch.KeyMatches | main.py:263 | `path == '*' or key == path` |
| JsonSearch.TypeName | main.py:346 | `type(value).__name__` of a decoded JSON value, written out per kind (`dict`, `list`, `str`, `int`, `float`, `bool`, `NoneType`); TypeNameTellsKind states its property |
| JsonSearch.Find | main.py:258-271 | `find_in_json` as a recursive function: each key's matching pair then the pairs inside its value, list items in order; the lemmas below characterize it |
| JsonSearch.KeyCount | main.py:261-269 | the number of keys in all objects of a value, the independent count the `*` search is compared with |
| JsonSearch.TypeNameTellsKind | main.py:346 | `type(value).__name__` is equal for two values exactly when they are of the same kind |
| JsonSearch.FindInJson | main.py:258-271 | the loop-and-recursion search computes `Find`, the depth-first list of matching pairs |
| JsonSearch.KeepMatching | main.py:263 | a pair is kept exactly when it is in the list and its key matches the path |
| JsonSearch.WildcardCountsEveryKey | main.py:261-266 | with `*` the search reports as many pairs as there are keys in all nested objects |
| JsonSearch.FindIsFilteredWildcard | main.py:261-269 | the search for a key is the `*` search filtered to that key, in the same order |
| JsonSearch.ReportedKeysMatch | main.py:263-264 | a pair is reported exactly when the `*` search reports it and its key matches. Without `*`, every reported key is the path |
| JsonSearch.PreOrderAtItem | main.py:262-266 | in an object, item `i` contributes after the items before it and before the items after it. Its own pair precedes whatever lies inside its value |
| JsonSearch.ScalarsContributeNothing | main.py:265-269 | an array of scalars contributes no pair |
| JsonSearch.NestedNameExample | main.py:258-271 | `{"a": {"name": "x"}, "b": [{"name": "y"}]}` searched for `name` gives the `x` pair, then the `y` pair |
| JsonSearch.OneElement | main.py:267-269 | a one-element array reports what its element does |
| Formatters.TextLine | main.py:286-289 | `Текст: ` and the text cut to 200 characters, only for a non-empty text |
| Formatters.AttrLine | main.py:295 | one indented `attr: value` line |
| Formatters.AttrLines | main.py:294-295 | the attribute lines in order |
| Formatters.AttrSection | main.py:292-295 | the `Атрибуты:` heading and the attribute lines, or nothing when there are no attributes |
| Formatters.LinkLines | main.py:297-304 | the link line of an `a`, the source and description lines of an `img`, with the `get` defaults, nothing for other tags |
| Formatters.TagLine | main.py:319 | the `Тег: ` line |
| Formatters.XmlTextLine | main.py:326-330 | the text line of the stripped text, only when the text exists and is not blank (see XmlTextShownIff) |
| Formatters.KeyLine | main.py:345 | the `Ключ: ` line |
| Formatters.TypeLine | main.py:346 | the `Тип: ` line with `type(value).__name__` |
| Formatters.ValueLine | main.py:347 | the `Значение: ` line with the `json.dumps` text |
| Formatters.HtmlReport | main.py:275-308 | the whole HTML report: the sentinel, or the header and the HTML blocks numbered from 1; HtmlReportStatesCount and HtmlBlockFramed state its properties |
| Formatters.XmlReport | main.py:310-334 | the whole XML report, built the same way from the XML blocks |
| Formatters.JsonReport | main.py:336-349 | the whole JSON report, built the same way from the JSON blocks |
| Formatters.Header | main.py:280 | the count line `Найдено элементов: N` and a blank line; ReportStatesCount reads N back |
| Formatters.Title | main.py:283 | the block title `--- Элемент i ---`; TitleInjective states that titles differ |
| Formatters.HtmlBlock | main.py:283-306 | the HTML block: title, text line, attribute section, link or image lines, blank line; HtmlBlockFramed states its framing |
| Formatters.XmlBlock | main.py:318-332 | the XML block: title, tag line, attribute section, text line, blank line; XmlBlockFramed states its framing |
| Formatters.JsonBlock | main.py:344-347 | the JSON block: title, key, type and value lines, blank line; JsonBlockFramed states its framing |
| Formatters.Truncate | main.py:287-288 | text over 200 characters becomes its first 200 characters and `...`. Shorter text is unchanged |
| Formatters.TruncateIdempotent | main.py:287-288 | cutting a cut text again changes nothing |
| Formatters.Report | main.py:277-280 | a report is the "nothing found" line exactly when there are no results |
| Formatters.AddAttributes | main.py:292-295 | appends the `Атрибуты:` heading and one line per attribute in order, or nothing for no attributes |
| Formatters.AddText | main.py:286-289 | appends the `Текст:` line of a non-empty text, cut to 200 characters |
| Formatters.AddLinkLines | main.py:297-304 | appends the link line of an `a` and the source and description lines of an `img` |
| Formatters.AddHtmlBlock | main.py:283-306 | one iteration of the HTML loop appends that element's block |
| Formatters.AddXmlBlock | main.py:318-332 | one iteration of the XML loop appends that element's block |
| Formatters.AddJsonBlock | main.py:344-347 | one iteration of the JSON loop appends that pair's block |
| Formatters.FormatHtmlResult | main.py:275-308 | the `+=` loop builds the whole HTML report: the sentinel, or the header and blocks 1..N in order |
| Formatters.FormatXmlResult | main.py:310-334 | the `+=` loop builds the whole XML report |
| Formatters.FormatJsonResult | main.py:336-349 | the `+=` loop builds the whole JSON report |
| Formatters.LeadingDigits | main.py:280 | the longest run of digits at the start of a text |
| Formatters.ReportStatesCount | main.py:277-280 | the number a report states is the number of blocks in it (0 for the sentinel) |
| Formatters.ReportOpening | main.py:277-280 | every report is the sentinel or starts with the whole count label |
| Formatters.ReportFirstLetter | main.py:277-280 | such a report is not empty and its first letter is that of the sentinel or of the count label |
| Formatters.HtmlReportStatesCount | main.py:280 | an HTML report states the number of elements |
| Formatters.XmlReportStatesCount | main.py:315 | an XML report states the number of elements |
| Formatters.JsonReportStatesCount | main.py:341 | a JSON report states the number of pairs |
| Formatters.TitleInjective | main.py:283 | different result numbers give different block titles |
| Formatters.HtmlBlockFramed | main.py:283-306 | an HTML block opens with its numbered title and ends with a blank line |
| Formatters.XmlBlockFramed | main.py:318-332 | an XML block opens with its numbered title and ends with a blank line |
| Formatters.JsonBlockFramed | main.py:344-347 | a JSON block opens with its numbered title and ends with a blank line |
| Formatters.XmlTextShownIff | main.py:326-330 | the XML text line is there exactly when the text exists and is not blank after stripping |
| Extraction.ParseHtml | main.py:183-210 | `parse_html`: the parsed query goes to `find_all`, with `attrs` only when the dict is not empty, or the AttributeError is raised |
| Extraction.ParseXml | main.py:212-229 | `parse_xml`: a parse error behind its label; a `//` query raises the `list.iter` AttributeError as written, or filters the walk as intended; any other query goes to `findall('.//' + query)` |
| Extraction.ParseJson | main.py:250-273 | `parse_json`: a decode error behind its label, otherwise `find_in_json` over the decoded value |
| Extraction.Extract | main.py:364-375 | the dispatch on the format: the format's parser, then its formatter, or the message of what was raised |
| Extraction.Shown | main.py:377-381 | the report, or `Ошибка: ` and the message of what was raised |
| Extraction.Run | main.py:351-381 | `parse_data`: the load error behind both labels, the enter-a-query line for a blank query, else what the extraction shows; the lemmas below state its properties |
| Extraction.ExtractHtml | main.py:365-367 | the HTML branch is the query loop, then `find_all` with the dict only when it is non-empty, then the HTML formatter |
| Extraction.ExtractXml | main.py:369-371 | the XML branch is the parse, the `//` branch or `findall('.//' + query)`, then the XML formatter |
| Extraction.ExtractJson | main.py:373-375 | the JSON branch is the decode, the key search, then the JSON formatter |
| Extraction.ParseData | main.py:351-381 | `parse_data`, built from the loop-based pieces, leaves exactly the output `Run` describes |
| Extraction.RunOnStrippedQuery | main.py:355-362 | for a loaded document only the stripped query matters. A blank one gives the "enter a query" line |
| Extraction.RunShowsError | main.py:379-381 | an extraction that raised is shown as `Ошибка: ` followed by its message |
| Extraction.RunShowsReport | main.py:377 | a successful extraction is shown as its report |
| Extraction.ReportStartsWithLabel | main.py:277-280 | every report of every format is the sentinel or starts with the whole count label |
| Extraction.RunNeverEmpty | main.py:351-381 | the output is never empty |
| Extraction.RunIgnoresSurroundingSpace | main.py:355 | whitespace around the query makes no difference |
| Extraction.LoadFailureWins | main.py:354 | a failed load is reported with both labels, whatever the query and format |
| Extraction.BlankQueryAsksForQuery | main.py:360-362 | a whitespace-only query gives the "enter a query" line |
| Extraction.ErrorLineIff | main.py:379-381 | the output starts with `Ошибка: ` exactly when the load failed or the extraction of a non-blank query raised |
| Extraction.HtmlClassAfterAssignFails | main.py:197-200 | an HTML query with a bare piece after `class=...` is reported as the AttributeError |
| Extraction.HtmlTagOnlyQuery | main.py:205-208 | an HTML query without `.` calls `find_all` with the bare tag and no `attrs` |
| Extraction.XmlParseErrorReported | main.py:214-217 | a malformed XML document is reported with the XML parse label and the parser's message |
| Extraction.XmlDescendantQueryFailsAsWritten | main.py:220-223 | as written, every `//` query on well-formed XML is reported as the AttributeError of `list.iter` |
| Extraction.XmlDescendantQueryAsIntended | main.py:220-226 | as intended, `//tag` reports the tree's elements with that tag in document order (the XML report of `WithTag` of the walk) |
| Extraction.XmlTagQueryUsesFindall | main.py:227-229 | any other XML query is handed to `findall` as `.//` + query |
| Extraction.JsonParseErrorReported | main.py:252-255 | a document `json.loads` rejects is reported with the JSON parse label and the message |
| Extraction.JsonReportShown | main.py:373-375 | a decoded document is searched for the stripped query and the pairs are formatted |
| Extraction.JsonWildcardCount | main.py:261-266 | the count in the report of a `*` search is the number of keys in all nested objects |
| Extraction.JsonMissingKeyNotFound | main.py:338-339 | a document without the queried key gives the "nothing found" line |

## Left out

- The Tk interface: widgets, hints, the examples window, the file dialog and the output widget (main.py:10-148, 383-424). These are UI, and they are not part of this model.
- `get_data_content` (main.py:150-181) reads the network and the file system. `Run` takes what it returned, or the text of the exception it caught at main.py:180; `Run` adds the load label that main.py:181 puts in front of it.
- BeautifulSoup parsing, `find_all` matching (list-valued `class`, attribute filters) and `get_text(strip=True)` belong to an external library. `find_all` is an uninterpreted field of `Library`, and a `Tag` carries its text already extracted.
- `ET.fromstring` and `findall('.//tag')` are an external XML parser and path engine. They are uninterpreted fields of `Library`.
- `json.loads` and `json.dumps` belong to the external library. They are fields of `Library`. The decoded value is the `Json` datatype. Floating-point numbers are `real` and are never computed with.
- HTML content fetched over the network is `bytes` (main.py:164-165), not text. The model treats all content as text.
- Attribute values are rendered with `f"{value}"`; the BeautifulSoup `class` value is a list. The model takes attribute values as already-rendered strings.
- A format outside the three radio buttons would leave `result` unbound (main.py:364-377). `Format` has only the three values.
- The exception texts (`too many values to unpack (expected 2)`, the AttributeError texts) follow CPython 3.13 and earlier; newer versions add `, got N` to the unpacking error for lists.
- `Json.Obj`, `Element.attrib` and `Tag.attrs` are sequences of pairs that could repeat a key, which a Python dict cannot. Lookups take the first pair, and `KeyCount` counts pairs, which is the number of keys for every value a parser produces.
- XmlQuery.SelectDescendants: models the loop the `//` branch was meant to run, not the code as written. The code as written raises, as `Extraction.XmlDescendantQueryFailsAsWritten` states.

## Findings

| source | as written | input that shows it | evidently intended | confidence | as-written member | corrected member |
|---|---|---|---|---|---|---|
| main.py:221-223 | the `//` branch calls `.iter()` on the list that `root.findall('.')` returns. Lists have no `iter`, so the branch raises AttributeError for every `//` query on a well-formed document | the document `<root><item/></root>` with the query `//item` gives `Ошибка: 'list' object has no attribute 'iter'` | walk every element of the tree in document order (`root.iter()`) and keep those `match_xml_path` accepts | not executed | Extraction.XmlDescendantQueryFailsAsWritten | XmlQuery.SelectDescendants |
