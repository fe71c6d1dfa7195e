/**
 * `get_href_params`: the query-string keys of the page's `<a href>` values, as
 * `parse_qs(urlparse(href).query).keys()` finds them, merged over all links.
 */
module LinkQuery {
  import opened Wrappers
  import opened Chars
  import opened Strings

  /** One `<a>` element: its `href` attribute, `None` when it has none. */
  datatype Anchor = Anchor(href: Option<string>)

  /** The components `urlsplit` returns. */
  datatype UrlParts = UrlParts(scheme: string, netloc: string, path: string, query: string, fragment: string)

  /** The characters Python's `urllib.parse` allows in a scheme. */
  predicate IsSchemeChar(c: char) { IsAlnum(c) || c == '+' || c == '-' || c == '.' }

  /** The characters that can occur in a network location: it ends at `/`, `?` or `#`. */
  predicate IsNetlocChar(c: char) { c != '/' && c != '?' && c != '#' }

  /** A scheme is the text before the first `:` when that text is non-empty,
      starts with an ASCII letter and has only scheme characters; it is lower-cased. */
  function SplitScheme(url: string): (string, string)
  {
    var i := Find(url, ':');
    if 0 < i < |url| && IsLetter(url[0]) && forall k | 0 <= k < i :: IsSchemeChar(url[k])
    then (LowerStr(url[..i]), url[i + 1..])
    else ("", url)
  }

  /** After `//`, the network location runs to the first `/`, `?` or `#`. */
  function SplitNetloc(rest: string): (string, string)
  {
    if |rest| >= 2 && rest[..2] == "//" then
      var d := 2 + Span(rest[2..], IsNetlocChar);
      (rest[2..d], rest[d..])
    else ("", rest)
  }

  /** `urlsplit(url)`: `None` stands for the `ValueError` it raises when the
      network location holds one square bracket without the other. */
  function UrlSplit(url: string): (parts: Option<UrlParts>)
    ensures parts.None? ==> '[' in url || ']' in url
  {
    var (scheme, afterScheme) := SplitScheme(url);
    var (netloc, rest) := SplitNetloc(afterScheme);
    if ('[' in netloc) != (']' in netloc) then
      SplitSchemeSkipsNoMarks(url);
      SplitNetlocSkipsNoMarks(afterScheme);
      assert forall c | c in afterScheme :: c in url;
      None
    else
      var f := Find(rest, '#');
      var beforeFragment := rest[..f];
      var fragment := if f < |rest| then rest[f + 1..] else "";
      var q := Find(beforeFragment, '?');
      var path := beforeFragment[..q];
      var query := if q < |beforeFragment| then beforeFragment[q + 1..] else "";
      Some(UrlParts(scheme, netloc, path, query, fragment))
  }

  /** The query component in the sense of sections 3.4 and 3.5 of RFC 3986: the
      text after the first `?` in the part before the first `#`. */
  function QueryComponent(url: string): string
  {
    var beforeFragment := url[..Find(url, '#')];
    var q := Find(beforeFragment, '?');
    if q < |beforeFragment| then beforeFragment[q + 1..] else ""
  }

  lemma SplitSchemeSkipsNoMarks(url: string)
    ensures var rest := SplitScheme(url).1;
      |rest| <= |url| && rest == url[|url| - |rest|..] &&
      forall k | 0 <= k < |url| - |rest| :: url[k] != '#' && url[k] != '?'
  {
  }

  lemma SplitNetlocSkipsNoMarks(s: string)
    ensures var (netloc, rest) := SplitNetloc(s);
      |rest| <= |s| && rest == s[|s| - |rest|..] &&
      (forall k | 0 <= k < |s| - |rest| :: s[k] != '#' && s[k] != '?') &&
      forall k | 0 <= k < |netloc| :: netloc[k] in s
  {
    if |s| >= 2 && s[..2] == "//" {
      var d := 2 + Span(s[2..], IsNetlocChar);
      forall k | 2 <= k < d ensures s[k] != '#' && s[k] != '?' {
        assert IsNetlocChar(s[2..][k - 2]);
      }
      forall k | 0 <= k < d - 2 ensures s[2..d][k] in s {
        assert s[2..d][k] == s[k + 2];
      }
    }
  }

  /** One reading of `QueryComponent`, with the part before the first `#` and
      the first `?` in it named. */
  lemma QueryComponentAt(url: string, b: string, q: nat)
    requires b == url[..Find(url, '#')] && q == Find(b, '?')
    ensures QueryComponent(url) == if q < |b| then b[q + 1..] else ""
  {
  }

  /** Text without `#` or `?` in front of a reference does not change its query component. */
  lemma QueryComponentAfter(p: string, rest: string)
    requires '#' !in p && '?' !in p
    ensures QueryComponent(p + rest) == QueryComponent(rest)
  {
    var f := Find(rest, '#');
    var b := rest[..f];
    var q := Find(b, '?');
    FindAfter(p, rest, '#');
    ConcatCut(p, rest, f);
    FindAfter(p, b, '?');
    QueryComponentAt(rest, b, q);
    QueryComponentAt(p + rest, p + b, |p| + q);
    if q < |b| {
      ConcatCut(p, b, q + 1);
    }
  }

  /** The part of a reference in front of what `urlsplit` searches for the
      fragment and the query: the scheme and the network location. */
  function Authority(url: string): (p: string)
  {
    var a := SplitScheme(url).1;
    url[..|url| - |SplitNetloc(a).1|]
  }

  lemma AuthorityHasNoMarks(url: string)
    ensures |SplitNetloc(SplitScheme(url).1).1| <= |url|
    ensures url == Authority(url) + SplitNetloc(SplitScheme(url).1).1
    ensures '#' !in Authority(url) && '?' !in Authority(url)
  {
    var a := SplitScheme(url).1;
    var rest := SplitNetloc(a).1;
    SplitSchemeSkipsNoMarks(url);
    SplitNetlocSkipsNoMarks(a);
    var p := url[..|url| - |rest|];
    assert url == p + rest;
    forall k | 0 <= k < |p| ensures p[k] != '#' && p[k] != '?' {
      if k >= |url| - |a| {
        assert p[k] == a[k - (|url| - |a|)];
      }
    }
  }

  /** Whatever the scheme and network location, the query `urlsplit` returns is
      the RFC 3986 query component of the whole reference. */
  lemma UrlSplitQuery(url: string)
    requires UrlSplit(url).Some?
    ensures UrlSplit(url).value.query == QueryComponent(url)
  {
    var rest := SplitNetloc(SplitScheme(url).1).1;
    assert UrlSplit(url).value.query == QueryComponent(rest);
    AuthorityHasNoMarks(url);
    QueryComponentAfter(Authority(url), rest);
  }

  /** `parse_qs` turns `+` in a key into a space; percent-decoding is not modelled. */
  function DecodeKey(raw: string): (key: string)
    ensures |key| == |raw|
  {
    seq(|raw|, k requires 0 <= k < |raw| => if raw[k] == '+' then ' ' else raw[k])
  }

  /** The key one `&`-separated piece contributes under `keep_blank_values=False`:
      none without `=` or with an empty value, otherwise the text before the first `=`. */
  function PieceKey(piece: string): (key: Option<string>)
    ensures '=' !in piece ==> key.None?
    ensures key.Some? ==> |key.value| + 2 <= |piece|
  {
    var i := Find(piece, '=');
    if i + 1 < |piece| then Some(DecodeKey(piece[..i])) else None
  }

  function PiecesKeys(pieces: seq<string>): (keys: set<string>)
    ensures |keys| <= |pieces|
  {
    if pieces == [] then {}
    else (match PieceKey(pieces[0]) case Some(k) => {k} case None => {}) + PiecesKeys(pieces[1..])
  }

  /** The keys of `parse_qs(query)`. */
  function QueryKeys(query: string): (keys: set<string>)
    ensures query == "" ==> keys == {}
    ensures |keys| <= |Split(query, '&')|
  {
    PiecesKeys(Split(query, '&'))
  }

  /** A piece `name=value` yields the decoded name exactly when the value is non-empty. */
  lemma PieceKeyOf(name: string, value: string)
    requires '=' !in name
    ensures PieceKey(name + "=" + value) == if value == "" then None else Some(DecodeKey(name))
  {
    var piece := name + "=" + value;
    FindIs(piece, '=', |name|);
    assert piece[..|name|] == name;
  }

  lemma {:induction false} PiecesKeysMembers(pieces: seq<string>, x: string)
    ensures x in PiecesKeys(pieces) <==> exists k | 0 <= k < |pieces| :: PieceKey(pieces[k]) == Some(x)
  {
    if pieces != [] {
      PiecesKeysMembers(pieces[1..], x);
      if exists k | 0 <= k < |pieces| :: PieceKey(pieces[k]) == Some(x) {
        var k :| 0 <= k < |pieces| && PieceKey(pieces[k]) == Some(x);
        if k > 0 {
          assert pieces[1..][k - 1] == pieces[k];
        }
      }
      if x in PiecesKeys(pieces[1..]) {
        var k :| 0 <= k < |pieces[1..]| && PieceKey(pieces[1..][k]) == Some(x);
        assert pieces[k + 1] == pieces[1..][k];
      }
    }
  }

  /** A key is found in a query exactly when some `&`-separated piece of it has
      that key and a non-empty value; values are discarded and a repeated key is
      one set member. */
  lemma QueryKeysMembers(query: string, x: string)
    ensures x in QueryKeys(query) <==>
      exists k | 0 <= k < |Split(query, '&')| :: PieceKey(Split(query, '&')[k]) == Some(x)
  {
    var pieces := Split(query, '&');
    assert QueryKeys(query) == PiecesKeys(pieces);
    PiecesKeysMembers(pieces, x);
    if x in QueryKeys(query) {
      var k :| 0 <= k < |pieces| && PieceKey(pieces[k]) == Some(x);
      assert PieceKey(Split(query, '&')[k]) == Some(x);
    }
  }

  /** `parse_qs(urlparse(a.get('href')).query).keys()` for one link: `None` when
      `urlparse` raises; a link without `href` is parsed as an empty reference. */
  function LinkKeys(a: Anchor): (keys: Option<set<string>>)
    ensures keys.None? ==> a.href.Some? && ('[' in a.href.value || ']' in a.href.value)
  {
    match a.href
    case None => Some({})
    case Some(url) =>
      match UrlSplit(url)
      case None => None
      case Some(parts) => Some(QueryKeys(parts.query))
  }

  /** A link contributes the keys of its RFC 3986 query component, and nothing
      when it has no `href`; it fails only when `urlsplit` raises. */
  lemma LinkKeysQuery(a: Anchor)
    ensures a.href.None? ==> LinkKeys(a) == Some({})
    ensures LinkKeys(a).None? <==> a.href.Some? && UrlSplit(a.href.value).None?
    ensures a.href.Some? && LinkKeys(a).Some? ==> LinkKeys(a).value == QueryKeys(QueryComponent(a.href.value))
  {
    if a.href.None? {
      assert PieceKey("") == None;
    } else if UrlSplit(a.href.value).Some? {
      UrlSplitQuery(a.href.value);
    }
  }

  /** The per-link key sets merged over all links; `None` when any link's `href`
      makes `urlparse` raise, which aborts the whole extraction. */
  function MergedKeys(anchors: seq<Anchor>): (keys: Option<set<string>>)
    ensures keys.Some? ==> forall a | a in anchors :: LinkKeys(a).Some? && LinkKeys(a).value <= keys.value
  {
    if anchors == [] then Some({})
    else
      match (LinkKeys(anchors[0]), MergedKeys(anchors[1..]))
      case (Some(first), Some(rest)) => Some(first + rest)
      case _ => None
  }

  /** `get_href_params`: the merged keys without the empty key. */
  function HrefParams(anchors: seq<Anchor>): (params: Option<set<string>>)
    ensures params.Some? ==> "" !in params.value
  {
    match MergedKeys(anchors)
    case None => None
    case Some(keys) => Some(keys - {""})
  }

  lemma {:induction false} MergedKeysMembers(anchors: seq<Anchor>, x: string)
    ensures MergedKeys(anchors).None? <==> exists k | 0 <= k < |anchors| :: LinkKeys(anchors[k]).None?
    ensures MergedKeys(anchors).Some? ==>
      (x in MergedKeys(anchors).value <==>
        exists k | 0 <= k < |anchors| :: LinkKeys(anchors[k]).Some? && x in LinkKeys(anchors[k]).value)
  {
    if anchors != [] {
      var tail := anchors[1..];
      MergedKeysMembers(tail, x);
      forall k | 0 <= k < |tail| ensures tail[k] == anchors[k + 1] { }
      if exists k | 0 <= k < |anchors| :: LinkKeys(anchors[k]).None? {
        var k :| 0 <= k < |anchors| && LinkKeys(anchors[k]).None?;
        if k > 0 {
          assert LinkKeys(tail[k - 1]).None?;
        }
      }
      if MergedKeys(anchors).Some? {
        if exists k | 0 <= k < |anchors| :: LinkKeys(anchors[k]).Some? && x in LinkKeys(anchors[k]).value {
          var k :| 0 <= k < |anchors| && LinkKeys(anchors[k]).Some? && x in LinkKeys(anchors[k]).value;
          if k > 0 {
            assert LinkKeys(tail[k - 1]).Some? && x in LinkKeys(tail[k - 1]).value;
          }
        }
      }
    }
  }

  /** The extraction fails exactly when some link's `href` makes `urlparse` raise;
      otherwise its result is the union of the links' key sets without the empty key. */
  lemma HrefParamsMembers(anchors: seq<Anchor>, x: string)
    ensures HrefParams(anchors).None? <==> exists k | 0 <= k < |anchors| :: LinkKeys(anchors[k]).None?
    ensures HrefParams(anchors).Some? ==>
      (x in HrefParams(anchors).value <==>
        x != "" && exists k | 0 <= k < |anchors| :: LinkKeys(anchors[k]).Some? && x in LinkKeys(anchors[k]).value)
  {
    MergedKeysMembers(anchors, x);
  }

  /** A key `parse_qs` reads back unchanged: non-empty, and no `=`, `&` or `+`.
      Square brackets are allowed (`a[]`, say). */
  predicate QueryKey(name: string)
  {
    name != "" && '=' !in name && '&' !in name && '+' !in name
  }

  /** A non-empty value that does not end its piece. */
  predicate QueryValue(value: string)
  {
    value != "" && '&' !in value
  }

  /** A key that also does not end the query of a link. */
  predicate PlainKey(name: string)
  {
    QueryKey(name) && '#' !in name
  }

  /** A value that also does not end the query of a link. */
  predicate PlainValue(value: string)
  {
    QueryValue(value) && '#' !in value
  }

  /** A path with no character that starts the query or the fragment, and no
      square bracket, which would unbalance a network location. */
  predicate PlainPath(path: string)
  {
    '?' !in path && '#' !in path && '[' !in path && ']' !in path
  }

  /** A network location ends before any `?` after the `//`. */
  lemma NetlocBefore(a: string, q: nat)
    requires q < |a| && a[q] == '?'
    ensures forall c | c in SplitNetloc(a).0 :: c in a[..q]
  {
    if |a| >= 2 && a[..2] == "//" {
      var d := 2 + Span(a[2..], IsNetlocChar);
      assert !IsNetlocChar(a[2..][q - 2]);
      assert d <= q;
      assert a[2..d] == a[..q][2..d];
    }
  }

  /** The network location of a URL ends before its first `?`. */
  lemma NetlocBeforeQuery(url: string, p: nat)
    requires p < |url| && url[p] == '?'
    ensures forall c | c in SplitNetloc(SplitScheme(url).1).0 :: c in url[..p]
  {
    var a := SplitScheme(url).1;
    SplitSchemeSkipsNoMarks(url);
    var o := |url| - |a|;
    assert o <= p;
    assert a[p - o] == url[p];
    NetlocBefore(a, p - o);
    assert a[..p - o] == url[o..p];
    forall c | c in url[o..p] ensures c in url[..p] {
      var k :| 0 <= k < p - o && url[o..p][k] == c;
      assert url[..p][o + k] == c;
    }
  }

  /** After `//`, the network location is the run of network-location
      characters up to the first `/`, `?` or `#`. */
  lemma NetlocIs(host: string, rest: string)
    requires forall k | 0 <= k < |host| :: IsNetlocChar(host[k])
    requires rest != [] ==> !IsNetlocChar(rest[0])
    ensures SplitNetloc("//" + host + rest).0 == host
  {
    var a := "//" + host + rest;
    assert a[..2] == "//" && a[2..] == host + rest;
    forall k | 0 <= k < |host| ensures IsNetlocChar((host + rest)[k]) {
      assert (host + rest)[k] == host[k];
    }
    if rest != [] {
      assert (host + rest)[|host|] == rest[0];
    }
    SpanIs(host + rest, IsNetlocChar, |host|);
    assert a[2..2 + |host|] == host;
  }

  /** A scheme name as `urlsplit` recognises one: an ASCII letter, then scheme characters. */
  predicate SchemeName(scheme: string)
  {
    scheme != "" && IsLetter(scheme[0]) && forall k | 0 <= k < |scheme| :: IsSchemeChar(scheme[k])
  }

  /** A network location that holds one square bracket without the other makes
      `urlsplit` raise (`//[x/`, say). */
  lemma UnbalancedNetlocFails(host: string, rest: string)
    requires forall k | 0 <= k < |host| :: IsNetlocChar(host[k])
    requires rest != [] ==> !IsNetlocChar(rest[0])
    requires ('[' in host) != (']' in host)
    ensures UrlSplit("//" + host + rest).None?
  {
    var url := "//" + host + rest;
    assert !IsLetter(url[0]);
    NetlocIs(host, rest);
  }

  /** Behind a scheme name and `:`, `urlsplit` goes on with the rest of the reference. */
  lemma SplitSchemeAt(scheme: string, a: string)
    requires SchemeName(scheme)
    ensures SplitScheme(scheme + ":" + a).1 == a
  {
    var url := scheme + ":" + a;
    assert url[..|scheme|] == scheme;
    FindIs(url, ':', |scheme|);
    forall k | 0 <= k < |scheme| ensures IsSchemeChar(url[k]) {
      assert url[k] == scheme[k];
    }
    assert url[|scheme| + 1..] == a;
  }

  /** The same behind a scheme: `http://[x/` makes `urlsplit` raise too. */
  lemma SchemedUnbalancedNetlocFails(scheme: string, host: string, rest: string)
    requires SchemeName(scheme)
    requires forall k | 0 <= k < |host| :: IsNetlocChar(host[k])
    requires rest != [] ==> !IsNetlocChar(rest[0])
    requires ('[' in host) != (']' in host)
    ensures UrlSplit(scheme + "://" + host + rest).None?
  {
    var a := "//" + host + rest;
    assert scheme + "://" + host + rest == scheme + ":" + a;
    SplitSchemeAt(scheme, a);
    NetlocIs(host, rest);
  }

  lemma DecodePlainKey(name: string)
    requires '+' !in name
    ensures DecodeKey(name) == name
  {
  }

  /** A link `path?query` has the keys of `query`. */
  lemma OneLinkKeys(path: string, query: string)
    requires PlainPath(path) && '#' !in query
    ensures LinkKeys(Anchor(Some(path + "?" + query))) == Some(QueryKeys(query))
  {
    var url := path + "?" + query;
    NetlocBeforeQuery(url, |path|);
    assert url[..|path|] == path;
    LinkKeysQuery(Anchor(Some(url)));
    FindIs(url, '#', |url|);
    assert url[..|url|] == url;
    FindIs(url, '?', |path|);
    assert url[|path| + 1..] == query;
  }

  /** A query made of one `name=value` piece. */
  lemma SinglePieceQuery(name: string, value: string)
    requires QueryKey(name) && QueryValue(value)
    ensures QueryKeys(name + "=" + value) == {name}
  {
    var query := name + "=" + value;
    FindIs(query, '&', |query|);
    assert query[..|query|] == query;
    assert Split(query, '&') == [query];
    PieceKeyOf(name, value);
    DecodePlainKey(name);
    assert PiecesKeys([query][1..]) == {};
  }

  /** A query made of two pieces, `first&second`. */
  lemma TwoPieceSplit(first: string, second: string)
    requires '&' !in first && '&' !in second
    ensures Split(first + "&" + second, '&') == [first, second]
  {
    var query := first + "&" + second;
    FindIs(query, '&', |first|);
    assert query[..|first|] == first && query[|first| + 1..] == second;
    FindIs(second, '&', |second|);
    assert second[..|second|] == second;
  }

  /** `n1=v1&n2=v2` has the keys `n1` and `n2`. */
  lemma TwoPieceQuery(n1: string, v1: string, n2: string, v2: string)
    requires QueryKey(n1) && QueryValue(v1) && QueryKey(n2) && QueryValue(v2)
    ensures QueryKeys(n1 + "=" + v1 + "&" + (n2 + "=" + v2)) == {n1, n2}
  {
    var first, second := n1 + "=" + v1, n2 + "=" + v2;
    TwoPieceSplit(first, second);
    PieceKeyOf(n1, v1);
    PieceKeyOf(n2, v2);
    DecodePlainKey(n1);
    DecodePlainKey(n2);
    var pieces := [first, second];
    assert pieces[1..] == [second] && pieces[1..][1..] == [];
    assert PiecesKeys(pieces[1..]) == {n2};
    assert PiecesKeys(pieces) == {n1, n2};
  }

  lemma MergedKeysCons(a: Anchor, rest: seq<Anchor>, ka: set<string>, kr: set<string>)
    requires LinkKeys(a) == Some(ka) && MergedKeys(rest) == Some(kr)
    ensures MergedKeys([a] + rest) == Some(ka + kr)
  {
    assert ([a] + rest)[0] == a && ([a] + rest)[1..] == rest;
  }

  /** A link `path?name=value` has the one key `name`. */
  lemma OnePieceLink(path: string, name: string, value: string)
    requires PlainPath(path) && PlainKey(name) && PlainValue(value)
    ensures LinkKeys(Anchor(Some(path + "?" + (name + "=" + value)))) == Some({name})
  {
    SinglePieceQuery(name, value);
    OneLinkKeys(path, name + "=" + value);
  }

  /** A link `path?n1=v1&n2=v2` has the keys `n1` and `n2`. */
  lemma TwoPieceLink(path: string, n1: string, v1: string, n2: string, v2: string)
    requires PlainPath(path) && PlainKey(n1) && PlainKey(n2) && PlainValue(v1) && PlainValue(v2)
    ensures LinkKeys(Anchor(Some(path + "?" + (n1 + "=" + v1 + "&" + (n2 + "=" + v2))))) == Some({n1, n2})
  {
    TwoPieceQuery(n1, v1, n2, v2);
    OneLinkKeys(path, n1 + "=" + v1 + "&" + (n2 + "=" + v2));
  }

  lemma TwoLinksMerge(a1: Anchor, a2: Anchor, k1: set<string>, k2: set<string>)
    requires LinkKeys(a1) == Some(k1) && LinkKeys(a2) == Some(k2)
    ensures HrefParams([a1, a2]) == Some(k1 + k2 - {""})
  {
    MergedKeysCons(a2, [], k2, {});
    MergedKeysCons(a1, [a2], k1, k2 + {});
    assert [a1] + [a2] == [a1, a2] && [a2] + [] == [a2];
    assert k2 + {} == k2;
  }

  /** Two links, `path1?n1=v1&n2=v2` and `path2?n1=v3` (`/x?foo=1&bar=2` and
      `/y?foo=3`, say), give `{n1, n2}`: values are ignored and a key found
      twice is one member. */
  lemma TwoLinks(path1: string, n1: string, v1: string, n2: string, v2: string, path2: string, v3: string)
    requires PlainPath(path1) && PlainPath(path2)
    requires PlainKey(n1) && PlainKey(n2) && PlainValue(v1) && PlainValue(v2) && PlainValue(v3)
    ensures HrefParams([Anchor(Some(path1 + "?" + (n1 + "=" + v1 + "&" + (n2 + "=" + v2)))),
                        Anchor(Some(path2 + "?" + (n1 + "=" + v3)))]) == Some({n1, n2})
  {
    TwoPieceLink(path1, n1, v1, n2, v2);
    OnePieceLink(path2, n1, v3);
    TwoLinksMerge(Anchor(Some(path1 + "?" + (n1 + "=" + v1 + "&" + (n2 + "=" + v2)))),
                  Anchor(Some(path2 + "?" + (n1 + "=" + v3))), {n1, n2}, {n1});
    assert {n1, n2} + {n1} - {""} == {n1, n2};
  }
}
