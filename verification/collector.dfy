/**
 * `parameters_extractor` without the browser: the four extractors run over one
 * rendered page, and `chain` puts their five sets one after another. Then the
 * `'\n'.join` that `main` writes to the output file.
 */
module Collector {
  import opened Wrappers
  import opened Strings
  import opened FormFields
  import opened LinkQuery
  import opened ScriptVars
  import opened JsonState

  /** The rendered page as the extractors see it: the `<input>` and `<a>`
      elements, the raw page text and the JSON carrier element, if any. */
  datatype Page = Page(inputs: seq<InputElement>, anchors: seq<Anchor>, source: string, carrier: Option<Carrier>)

  /** The five sets of lines 133-136, in the order `chain` takes them. */
  datatype Extracted = Extracted(
    inputs: set<string>, queries: set<string>, vars: set<string>,
    jsonTop: set<string>, jsonNested: set<string>)

  /** Lines 133-136: each extractor on its view of the page. `None` when
      `get_href_params` raises, which no `try` contains: the run aborts. */
  function ExtractAll(page: Page): (r: Option<Extracted>)
    ensures r.None? <==> HrefParams(page.anchors).None?
    ensures r.Some? ==> "" !in r.value.inputs && "" !in r.value.queries
    ensures r.Some? ==> forall v | v in r.value.vars :: |v| >= 2
    ensures r.Some? ==> r.value.jsonTop == {} && r.value.jsonNested == {}
  {
    match HrefParams(page.anchors)
    case None => None
    case Some(queries) =>
      var (top, nested) := MultilevelJsonKeys(page.carrier);
      Some(Extracted(InputNamesAndIds(page.inputs), queries, ScriptVariables(page.source), top, nested))
  }

  /** The outcome depends on the links alone: only `get_href_params` can make the
      run fail, and the JSON extractor contributes two empty sets whatever the
      carrier holds, so it never changes what the other extractors find. */
  lemma ExtractAllParts(page: Page)
    ensures ExtractAll(page).None? <==> HrefParams(page.anchors).None?
    ensures ExtractAll(page).Some? ==>
      ExtractAll(page).value ==
        Extracted(InputNamesAndIds(page.inputs), HrefParams(page.anchors).value, ScriptVariables(page.source), {}, {})
  {
  }

  predicate NoDuplicates(s: seq<string>)
  {
    forall i, j | 0 <= i < j < |s| :: s[i] != s[j]
  }

  /** `s` is an iteration order of the set `elems`: each member exactly once. */
  predicate Enumerates(s: seq<string>, elems: set<string>)
  {
    NoDuplicates(s) && (forall x | x in s :: x in elems) && forall x | x in elems :: x in s
  }

  /** The order in which iteration visits each of the five sets; Python leaves it open. */
  datatype Listed = Listed(
    inputs: seq<string>, queries: seq<string>, vars: seq<string>,
    jsonTop: seq<string>, jsonNested: seq<string>)

  predicate ListsAll(l: Listed, e: Extracted)
  {
    && Enumerates(l.inputs, e.inputs)
    && Enumerates(l.queries, e.queries)
    && Enumerates(l.vars, e.vars)
    && Enumerates(l.jsonTop, e.jsonTop)
    && Enumerates(l.jsonNested, e.jsonNested)
  }

  /** Line 139: `chain` yields the five sets one after another and removes nothing. */
  function Collect(l: Listed): (names: seq<string>)
    ensures |names| == |l.inputs| + |l.queries| + |l.vars| + |l.jsonTop| + |l.jsonNested|
  {
    l.inputs + l.queries + l.vars + l.jsonTop + l.jsonNested
  }

  /** An iteration order holds each member of its set once and nothing else. */
  lemma {:induction false} EnumerationCount(s: seq<string>, elems: set<string>)
    requires Enumerates(s, elems)
    ensures |s| == |elems|
    ensures forall x :: multiset(s)[x] == if x in elems then 1 else 0
  {
    if s != [] {
      var rest := s[1..];
      assert s == [s[0]] + rest;
      assert s[0] !in rest by {
        forall k | 0 <= k < |rest| ensures rest[k] != s[0] {
          assert rest[k] == s[k + 1];
        }
      }
      assert Enumerates(rest, elems - {s[0]}) by {
        forall i, j | 0 <= i < j < |rest| ensures rest[i] != rest[j] {
          assert rest[i] == s[i + 1] && rest[j] == s[j + 1];
        }
      }
      EnumerationCount(rest, elems - {s[0]});
    }
  }

  lemma CountOf(s: seq<string>, elems: set<string>, x: string)
    requires Enumerates(s, elems)
    ensures multiset(s)[x] == if x in elems then 1 else 0
  {
    EnumerationCount(s, elems);
  }

  lemma LengthOf(s: seq<string>, elems: set<string>)
    requires Enumerates(s, elems)
    ensures |s| == |elems|
  {
    EnumerationCount(s, elems);
  }

  /** How many of the five sets hold `x`. */
  function Finders(e: Extracted, x: string): nat
  {
    (if x in e.inputs then 1 else 0) + (if x in e.queries then 1 else 0) + (if x in e.vars then 1 else 0) +
    (if x in e.jsonTop then 1 else 0) + (if x in e.jsonNested then 1 else 0)
  }

  /** `chain` keeps every occurrence from each of the five sequences. */
  lemma CollectMultiset(l: Listed)
    ensures multiset(Collect(l)) == multiset(l.inputs) + multiset(l.queries) + multiset(l.vars) +
      multiset(l.jsonTop) + multiset(l.jsonNested)
  {
    assert Collect(l) == l.inputs + l.queries + l.vars + l.jsonTop + l.jsonNested;
  }

  /** The count of each name, and the length, of the merged sequence. */
  lemma CollectMultiplicity(l: Listed, e: Extracted)
    requires ListsAll(l, e)
    ensures forall x :: multiset(Collect(l))[x] == Finders(e, x)
    ensures |Collect(l)| == |e.inputs| + |e.queries| + |e.vars| + |e.jsonTop| + |e.jsonNested|
  {
    CollectMultiset(l);
    forall x ensures multiset(Collect(l))[x] == Finders(e, x) {
      CountOf(l.inputs, e.inputs, x);
      CountOf(l.queries, e.queries, x);
      CountOf(l.vars, e.vars, x);
      CountOf(l.jsonTop, e.jsonTop, x);
      CountOf(l.jsonNested, e.jsonNested, x);
    }
    LengthOf(l.inputs, e.inputs);
    LengthOf(l.queries, e.queries);
    LengthOf(l.vars, e.vars);
    LengthOf(l.jsonTop, e.jsonTop);
    LengthOf(l.jsonNested, e.jsonNested);
  }

  /** Whatever the orders, the merged sequence holds each name once per set that
      holds it: names found by two extractors appear twice. Its members are the
      union of the five sets and its length is the sum of their sizes. */
  lemma CollectCounts(l: Listed, e: Extracted)
    requires ListsAll(l, e)
    ensures forall x :: multiset(Collect(l))[x] == Finders(e, x)
    ensures forall x :: x in Collect(l) <==> x in e.inputs + e.queries + e.vars + e.jsonTop + e.jsonNested
    ensures |Collect(l)| == |e.inputs| + |e.queries| + |e.vars| + |e.jsonTop| + |e.jsonNested|
  {
    CollectMultiplicity(l, e);
    var c := Collect(l);
    forall x ensures x in c <==> x in e.inputs + e.queries + e.vars + e.jsonTop + e.jsonNested {
      assert x in c <==> multiset(c)[x] > 0;
    }
  }

  /** On a page the extraction succeeds for, the merged sequence holds no empty
      string and, since the JSON extractor always returns two empty sets, it is
      the input names, then the query keys, then the script variables. */
  lemma CollectPage(page: Page, l: Listed, e: Extracted)
    requires ExtractAll(page) == Some(e) && ListsAll(l, e)
    ensures "" !in Collect(l)
    ensures e.jsonTop == {} && e.jsonNested == {}
    ensures Collect(l) == l.inputs + l.queries + l.vars
  {
    CollectCounts(l, e);
    ExtractAllParts(page);
    EnumerationCount(l.jsonTop, e.jsonTop);
    EnumerationCount(l.jsonNested, e.jsonNested);
  }

  /** Line 181: the file content is the names joined by line feeds. */
  function OutputText(l: Listed): (text: string)
    ensures |Collect(l)| == 1 ==> text == Collect(l)[0]
    ensures |Collect(l)| >= 2 ==> '\n' in text
  {
    Join(Collect(l), '\n')
  }

  /** Reading the file back line by line gives the merged names, in order, when
      there is at least one and none holds a line feed: no line feed is added
      after the last name. */
  lemma OutputRoundTrip(l: Listed)
    requires Collect(l) != []
    requires forall k | 0 <= k < |Collect(l)| :: '\n' !in Collect(l)[k]
    ensures Split(OutputText(l), '\n') == Collect(l)
  {
    SplitJoin(Collect(l), '\n');
  }

  /** With no names the file is written anyway, empty: `if values:` tests a
      `chain` object, which is always true, so "No parameters found!" is never printed. */
  lemma EmptyRunWritesEmptyText(l: Listed)
    requires Collect(l) == []
    ensures OutputText(l) == ""
  {
  }

  /** A page with one input named `name`, one link `path?key=value`, a script
      declaring `var v;` and any JSON carrier (`user`, `/?ref=123`,
      `var csrf_token;` and `{"sid": 1}`, say) yields `name`, `key` and `v`:
      whatever the JSON holds is lost at line 102. */
  lemma EndToEnd(name: string, path: string, key: string, value: string, v: string, carrier: Option<Carrier>)
    requires name != "" && PlainPath(path) && PlainKey(key) && PlainValue(value)
    requires |v| >= 2 && AllWord(v)
    ensures ExtractAll(Page([InputElement(Some(name), None)], [Anchor(Some(path + "?" + (key + "=" + value)))],
                            "var " + v + ";", carrier))
         == Some(Extracted({name}, {key}, {v}, {}, {}))
  {
    var inputs := [InputElement(Some(name), None)];
    assert inputs[1..] == [];
    OneLinkParams(path, key, value);
    OneDeclaration("var " + v + ";", v);
  }

  /** A page with a single link `path?key=value` has the one parameter `key`. */
  lemma OneLinkParams(path: string, key: string, value: string)
    requires PlainPath(path) && PlainKey(key) && PlainValue(value)
    ensures HrefParams([Anchor(Some(path + "?" + (key + "=" + value)))]) == Some({key})
  {
    var a := Anchor(Some(path + "?" + (key + "=" + value)));
    OnePieceLink(path, key, value);
    MergedKeysCons(a, [], {key}, {});
    assert [a] + [] == [a];
    assert {key} + {} - {""} == {key};
  }

  /** One link whose `href` makes `urlsplit` raise ends the whole run: line 73
      catches nothing, so no parameter at all is collected from the page. */
  lemma MalformedLinkAborts(page: Page, k: nat)
    requires k < |page.anchors| && page.anchors[k].href.Some? && UrlSplit(page.anchors[k].href.value).None?
    ensures ExtractAll(page) == None
  {
    assert LinkKeys(page.anchors[k]).None?;
    MergedKeysMembers(page.anchors, "");
  }

  /** A page with a link `//[x/` or `http://[x/`, whose network location
      holds an unbalanced square bracket, yields nothing, whatever its other
      elements. An empty `scheme` stands for a reference without one. */
  lemma BracketLinkAborts(page: Page, k: nat, scheme: string, host: string, rest: string)
    requires scheme == "" || SchemeName(scheme)
    requires k < |page.anchors|
    requires page.anchors[k].href == Some((if scheme == "" then "" else scheme + ":") + "//" + host + rest)
    requires forall j | 0 <= j < |host| :: IsNetlocChar(host[j])
    requires rest != [] ==> !IsNetlocChar(rest[0])
    requires ('[' in host) != (']' in host)
    ensures ExtractAll(page) == None
  {
    if scheme == "" {
      assert "" + "//" + host + rest == "//" + host + rest;
      UnbalancedNetlocFails(host, rest);
    } else {
      assert scheme + ":" + "//" + host + rest == scheme + "://" + host + rest;
      SchemedUnbalancedNetlocFails(scheme, host, rest);
    }
    MalformedLinkAborts(page, k);
  }

  /** The page whose one link is `//[x/`: `get_href_params` raises, and the
      run collects nothing. */
  lemma BracketExample()
    ensures HrefParams([Anchor(Some("//[x/"))]).None?
    ensures ExtractAll(Page([], [Anchor(Some("//[x/"))], "", None)) == None
  {
    var page := Page([], [Anchor(Some("//[x/"))], "", None);
    assert "//[x/" == "" + "//" + "[x" + "/";
    assert IsNetlocChar('[') && IsNetlocChar('x') && !IsNetlocChar('/');
    BracketLinkAborts(page, 0, "", "[x", "/");
  }

  /** The same behind a scheme: a page whose one link is `http://[x/?k=v`
      collects nothing. */
  lemma SchemedBracketExample()
    ensures ExtractAll(Page([], [Anchor(Some("http://[x/?k=v"))], "", None)) == None
  {
    var page := Page([], [Anchor(Some("http://[x/?k=v"))], "", None);
    assert SchemeName("http");
    assert "http://[x/?k=v" == "http" + ":" + "//" + "[x" + "/?k=v";
    assert IsNetlocChar('[') && IsNetlocChar('x') && !IsNetlocChar('/');
    BracketLinkAborts(page, 0, "http", "[x", "/?k=v");
  }
}
