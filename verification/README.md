# FallParams, modelled in Dafny

FallParams is a command-line tool that collects candidate parameter names from
a web page. It renders the page in a headless browser, parses the result and
runs four extractors over it:

- the `name` and `id` attributes of the `<input>` elements (`get_inputs_names_and_ids`);
- the query-string keys of the `href` of every `<a>` element (`get_href_params`);
- the identifiers declared with `var ` anywhere in the page text (`get_scripts_variables`);
- the top-level and second-level keys of the JSON document in the page's
  `<script type="application/json">` element (`get_multilevel_jsons_keys`).

`parameters_extractor` chains the five resulting sets, and `main` writes them,
one per line, to an output file named after the domain. Before anything else,
`is_valid_domain` checks the URL against an anchored, case-insensitive regular
expression.

The model keeps that pipeline and drops the browser, the HTML parser and the
file system. A page is given as the values the parser would hand over:
- its input elements, with their optional `name` and `id`;
- its anchors, with their optional `href`;
- the raw page text;
- the decoded JSON carrier, if any.

Everything is pure, so every operation is a Dafny function and every promise
is a lemma about it. The modules are:

- `Chars`: the ASCII character classes and the lower-casing that IGNORECASE uses.
- `Strings`: find, span, split and join, with split and join proved inverse.
- `FormFields`: `get_inputs_names_and_ids`.
- `LinkQuery`: `urlsplit` as far as the query component, `parse_qs` key
  extraction, and `get_href_params`.
- `ScriptVars`: `re.findall('var (\w+|\d+)', ...)` as a leftmost,
  non-overlapping scan, and the length filter.
- `JsonState`: `get_multilevel_jsons_keys`, step by step, as written.
- `Collector`: `parameters_extractor` (the `chain` of the five sets) and the
  `'\n'.join` that `main` writes.
- `UrlValidator`: `is_valid_domain`. It is stated twice:
  - as the language the regular expression denotes (`Accepted`, written with
    the expression's own alternatives and repetitions);
  - as a left-to-right decision function (`IsValidDomain`), proved to decide
    exactly that language.

In six places what the code does differs from what its comments, its
docstrings or the design of the tool promise. The model follows the code in
each:

- `get_multilevel_jsons_keys` calls `.values()` on the `set` of top-level keys.
  A Python set has no such method, so the bare `except` always fires and the
  extractor returns two empty sets for every page. `JsonState.MultilevelJsonKeys`
  states this; `NestedKeysMembers` states what lines 101-102 would compute if
  that step succeeded.
- The docstring of `get_multilevel_jsons_keys` (line 95) says the sets will be
  `None` when something goes wrong; line 105 returns two empty sets, and so does
  `JsonState.MultilevelJsonKeys`.
- The comment at line 87 speaks of filtering out variables of length lower than
  1; line 86 drops every name of length 1 or less, and so does
  `ScriptVars.ScriptVariables` (`ShortNamesDropped`).
- The design treats the extractors' results as sets of candidate names, but
  `chain` does not deduplicate. A name found by two extractors is written twice
  (`Collector.CollectCounts`).
- The design expects a malformed link to contribute nothing. Line 73 has no
  `try`, so one `href` that makes `urlparse` raise ends the whole run
  (`Collector.MalformedLinkAborts`, `Collector.BracketLinkAborts`).
- `if values:` tests a `chain` object, which is always true. An empty run still
  writes an empty file (`Collector.EmptyRunWritesEmptyText`), and
  "No parameters found!" is never printed.

## Model

| member | source | states |
|---|---|---|
| FormFields.InputNamesAndIds | FallParams.py:60-61 | no empty string in the result; no elements give the empty set |
| FormFields.InputNamesAndIdsMembers | FallParams.py:60-61 | a string is returned iff it is non-empty and is the name or the id of some input element |
| FormFields.InputNamesAndIdsAppend | FallParams.py:60-61 | the names of two element lists together are the union of their names; order and repetition do not matter |
| FormFields.BlankElementAddsNothing | FallParams.py:61 | an element whose name and id are absent or empty adds nothing (`filter(None, ...)`) |
| LinkQuery.UrlSplit | FallParams.py:73 | the model's `urlparse` fails only on a URL holding a square bracket; its query is given by `UrlSplitQuery` and its failures, for links, by `LinkKeysQuery` |
| LinkQuery.UrlSplitQuery | FallParams.py:73 | when `urlparse` succeeds, its query is the text after the first `?` before the first `#`, whatever the scheme and netloc |
| LinkQuery.PieceKey | FallParams.py:73 | a piece without `=` yields no key, and a key leaves room for `=` and a non-empty value; `PieceKeyOf` states the key exactly |
| LinkQuery.PieceKeyOf | FallParams.py:73 | a `name=value` piece yields the name with `+` read as a space, and nothing when the value is blank |
| LinkQuery.QueryKeys | FallParams.py:73 | the empty query has no keys and a query has at most one key per `&`-separated piece; `QueryKeysMembers` states its members exactly |
| LinkQuery.QueryKeysMembers | FallParams.py:73 | a key is found iff it is the key of some `&`-separated piece of the query |
| LinkQuery.LinkKeys | FallParams.py:73 | the model's link fails only when it has an `href` holding a square bracket (the `urlsplit` errors listed under Left out are not modelled); `LinkKeysQuery` states its keys exactly |
| LinkQuery.UnbalancedNetlocFails | FallParams.py:73 | a scheme-less reference `//host...` whose network location holds one square bracket without the other makes `urlparse` raise (`//[x/`) |
| LinkQuery.NetlocIs | FallParams.py:73 | after `//`, the network location is exactly the characters up to the first `/`, `?` or `#` |
| LinkQuery.SchemedUnbalancedNetlocFails | FallParams.py:73 | the same behind a scheme name: `scheme://host...` with an unbalanced square bracket in the network location makes `urlparse` raise (`http://[x/`) |
| LinkQuery.SplitSchemeAt | FallParams.py:73 | behind a scheme name (an ASCII letter, then letters, digits, `+`, `-` or `.`) and `:`, the split goes on with the rest of the reference |
| LinkQuery.LinkKeysQuery | FallParams.py:73 | a link without `href` contributes nothing; a link raises iff `urlparse` raises; otherwise its keys are those of its query component |
| LinkQuery.MergedKeys | FallParams.py:73-74 | when no link fails, every link's keys are in the merged set; `MergedKeysMembers` states the failure and the members exactly |
| LinkQuery.HrefParams | FallParams.py:74-75 | the merged keys never hold the empty string |
| LinkQuery.HrefParamsMembers | FallParams.py:73-75 | the extractor raises iff some link raises; otherwise a key is returned iff it is non-empty and a key of some link |
| LinkQuery.OneLinkKeys | FallParams.py:73 | a link `path?query`, with no `?`, `#` or square bracket in the path and no `#` in the query, has exactly the keys of `query`; brackets in the query are allowed, since the network location ends at the `?` |
| LinkQuery.SinglePieceQuery | FallParams.py:73 | a query `name=value` with a non-empty name free of `=`, `&` and `+` (brackets allowed, `a[]`) and a non-blank value has the one key `name` |
| LinkQuery.TwoPieceQuery | FallParams.py:73 | a query `n1=v1&n2=v2`, names and values as for a single piece, has exactly the keys `n1` and `n2` |
| LinkQuery.TwoLinks | FallParams.py:73-75 | links `path1?n1=v1&n2=v2` and `path2?n1=v3` give exactly `{n1, n2}`: values are ignored and a key found twice is one member (`/x?foo=1&bar=2` and `/y?foo=3` give `{foo, bar}`) |
| ScriptVars.FindAllVars | FallParams.py:84-85 | every name found is a non-empty run of word characters |
| ScriptVars.FindAllVarsDeclared | FallParams.py:84-85 | every name found occurs right after `var ` and is a maximal word there |
| ScriptVars.ScriptVariables | FallParams.py:86-88 | every name kept has at least two characters, all word characters |
| ScriptVars.ScriptVariablesShape | FallParams.py:84-88 | every name kept is at least two word characters long and is declared with `var ` in the text |
| ScriptVars.NoMatchNoVars | FallParams.py:84-85 | a text where the pattern matches nowhere yields no names |
| ScriptVars.FindAllVarsLeftmost | FallParams.py:85 | the scan takes the leftmost match with its whole word and resumes after it |
| ScriptVars.LeftmostWord | FallParams.py:84-85 | when the leftmost match is at `i` and its word has `w` characters, that word is found first and the scan goes on after it |
| ScriptVars.DeclarationThen | FallParams.py:84-85 | `var v` followed by text that does not continue the word yields `v`, then what that text yields |
| ScriptVars.OneDeclaration | FallParams.py:84-88 | `var v;` with `v` two or more word characters gives exactly `{v}` |
| ScriptVars.NoBoundaryBeforeVar | FallParams.py:84-85 | `myvar ab` yields `ab`: no word boundary is needed before `var` |
| ScriptVars.MatchesDoNotOverlap | FallParams.py:85 | `var var ab` yields only `var` |
| ScriptVars.OnlyVar | FallParams.py:84 | `let` and `const` declarations are not recognised |
| ScriptVars.OnlyOneSpace | FallParams.py:84 | `var` followed by a tab is not recognised |
| ScriptVars.TwoDeclarations | FallParams.py:84-85 | `var u; var v;` yields `u` then `v`, in order (`var a; var token;` yields `a` then `token`) |
| ScriptVars.ShortNamesDropped | FallParams.py:86-88 | a one-character name is dropped: `var u; var v;` with `|u| == 1` gives `{v}` (`var a; var token;` gives `{token}`) |
| JsonState.MultilevelJsonKeys | FallParams.py:99-105 | the extractor returns two empty sets for every page; the documentation lemma `FailingStep` records which step raises: the load for a missing carrier or invalid JSON, `keys` for a non-object, `values` for every object |
| JsonState.NestedKeysMembers | FallParams.py:101-102 | the collection at lines 101-102 holds exactly the keys of the values that are objects, one level down |
| Collector.ExtractAll | FallParams.py:133-136 | the run fails iff `get_href_params` raises; otherwise no input name or query key is empty, every variable has two or more characters, and both JSON sets are empty |
| Collector.ExtractAllParts | FallParams.py:133-136 | documentation lemma: `ExtractAll` with the JSON extractor's two empty sets written in, so the outcome does not depend on the JSON carrier: the run fails iff `get_href_params` raises, and otherwise the five sets are the inputs, the queries, the script variables and two empty sets |
| Collector.Collect | FallParams.py:139 | `chain` drops nothing: its length is the sum of the five lengths; `CollectCounts` states its multiplicities |
| Collector.CollectCounts | FallParams.py:139 | the chained sequence holds each name once per set holding it; its members are the union and its length the sum of sizes |
| Collector.CollectPage | FallParams.py:133-139 | for a page that extracts, the chained sequence has no empty string and is the inputs, then the queries, then the variables |
| Collector.OneLinkParams | FallParams.py:73-75 | a page whose one link is `path?key=value` has the one parameter `key` |
| Collector.EndToEnd | FallParams.py:133-136 | a page with one input `name`, one link `path?key=value`, the text `var v;` and any JSON carrier yields `{name}`, `{key}`, `{v}` and nothing from the JSON (input `user`, link `/?ref=123`, `var csrf_token;` and `{"sid": 1}`, say) |
| Collector.OutputText | FallParams.py:181 | a single name is written alone, with no line feed after it, and two or more names are separated by line feeds; `OutputRoundTrip` states the whole text |
| Collector.OutputRoundTrip | FallParams.py:181 | splitting the written text at line feeds gives back the names, when there is at least one and none holds a line feed |
| Collector.MalformedLinkAborts | FallParams.py:133-136 | one link whose `href` makes `urlparse` raise at line 73 ends the run: nothing is collected from the page |
| Collector.BracketLinkAborts | FallParams.py:133-136 | a page with a link `//host...` or `scheme://host...` whose network location has an unbalanced square bracket yields nothing |
| Collector.BracketExample | FallParams.py:133-136 | a page whose one link is `//[x/` makes `get_href_params` raise, and nothing is collected |
| Collector.SchemedBracketExample | FallParams.py:133-136 | a page whose one link is `http://[x/?k=v` collects nothing |
| Collector.EmptyRunWritesEmptyText | FallParams.py:177-181 | documentation lemma, an instance of `Strings.Join`'s first ensures: with no names, the empty text is written |
| Strings.Split | FallParams.py:181 | at least one piece, and no piece holds the separator; `JoinSplit` shows that joining the pieces gives the text back |
| Strings.Join | FallParams.py:181 | no parts give the empty text; the text starts with the first part, followed by the separator when there is a second; `SplitJoin` shows that splitting gives the parts back |
| Strings.SplitJoin | FallParams.py:181 | splitting the joined parts gives the parts back |
| Strings.JoinSplit | FallParams.py:181 | joining the split parts gives the text back |
| UrlValidator.IsValidDomain | FallParams.py:28-41 | the decision procedure itself: the whole input is checked, or all of it but a final line feed (without one, only the whole input counts, as the documentation lemma `NoLineFeedVerdict` records); `IsValidDomainDecides` shows it accepts exactly the regular expression's language |
| UrlValidator.IsValidDomainDecides | FallParams.py:34-41 | the decision is true iff the regular expression matches the whole input, or all of it but a final line feed |
| UrlValidator.UrlCheckDecides | FallParams.py:35-40 | the left-to-right reading succeeds iff the text is scheme, host, optional port and tail |
| UrlValidator.DomainCheckSound | FallParams.py:36 | whatever the first-dot reading accepts has the `(label\.)+final` domain form |
| UrlValidator.DomainCheckComplete | FallParams.py:36 | every text of the `(label\.)+final` domain form is accepted by the first-dot reading |
| UrlValidator.DomainCheckDecides | FallParams.py:36 | the first-dot reading decides the `(label\.)+final` domain form |
| UrlValidator.OctetsCheckDecides | FallParams.py:38 | the first-dot reading decides the four dotted digit groups |
| UrlValidator.HostCheckDecides | FallParams.py:36-38 | the host check decides the three host alternatives |
| UrlValidator.SchemesExclusive | FallParams.py:35 | a text that begins with one of `http://`, `https://`, `ftp://`, `ftps://`, ignoring case, has a scheme of exactly that length: the order in which the scheme is tried does not matter |
| UrlValidator.IsValidDomainIgnoresCase | FallParams.py:40 | two inputs equal up to the case of their letters get the same verdict |
| UrlValidator.TopLevelAlternativeSubsumed | FallParams.py:36 | the `[A-Z]{2,6}` final alternative adds nothing to `[A-Z0-9-]{2,}` |
| UrlValidator.AcceptedFromParts | FallParams.py:35-40 | a scheme, then a host, an optional port and a tail, is accepted |
| UrlValidator.NoOctetRange | FallParams.py:38 | a scheme followed by any four dot-separated groups of one to three digits is accepted, whatever their values (`http://999.999.999.999`) |
| UrlValidator.LocalhostWithPort | FallParams.py:37-40 | `http://localhost:8000/` is accepted |
| UrlValidator.TrailingLineFeed | FallParams.py:40-41 | `http://a.io` followed by a line feed is accepted |
| UrlValidator.NoDotHostRejected | FallParams.py:36-38 | a host without a dot is rejected unless it is `localhost` in some case |
| UrlValidator.SingleLabelRejected | FallParams.py:36-41 | a scheme followed by a single label of letters and digits other than `localhost` is rejected (`http://example`) |

## Left out

- The headless browser, page loading and the HTML parser (`setup_selenium`, `driver.get`, `BeautifulSoup`, `find_all`). A page is given as the element attributes and text they would produce.
- `json.loads`: the carrier holds the decoded value, or `None` for text that is not JSON.
- `is_live_domain` and `validator`: they perform a network request and print. `is_valid_domain` itself is modelled.
- `setup_argparser`, `check_folder_file`, the file writes and the final print: they are I/O. The text written (`'\n'.join`) is modelled.
- The iteration order of Python sets is not fixed. `Collector.Listed` takes it as a parameter, and the lemmas hold for every order.
- LinkQuery.UrlSplit: does not model the `ValueError` that `urlsplit` raises when a network location holding non-ASCII characters contains `/`, `?`, `#`, `@` or `:` after NFKC normalisation (`http://x℀y/?k=v`, where U+2100 becomes `a/c`). Unicode normalisation is outside the model, so such a link yields its keys instead of ending the run. Nor does it model the bracketed-host validation that newer Python versions add, the stripping of control characters and blanks from the URL, or the pre-3.9 scheme rule. The query and fragment split is modelled.
- LinkQuery.QueryKeys: does not model percent-decoding of keys, the `max_num_fields` limit, or the `;` separator of older Python versions. `+` is decoded to a space.
- `urlparse` also splits `;params` off the path. This does not affect the query, so it is not modelled.
- The character classes are ASCII: `\w`, `\d` and `\s` on non-ASCII characters, and IGNORECASE's special Unicode case pairs, are not modelled.
- A `<input>` attribute given as a list of values is not modelled: HTML parsers give a string for `name` and `id`.
