/**
 * `is_valid_domain`: the anchored, case-insensitive regular expression of
 * FallParams.py:34-40, first as the language it accepts (`Accepted`, stated
 * with the regular expression's own alternatives and repetitions) and then as
 * a left-to-right decision procedure (`IsValidDomain`) proved to decide it.
 */
module UrlValidator {
  import opened Chars
  import opened Strings

  predicate IsAlnumOrHyphen(c: char) { IsAlnum(c) || c == '-' }

  /** The characters a host of any of the three forms is made of. */
  predicate IsHostChar(c: char) { IsAlnumOrHyphen(c) || c == '.' }

  /** `(?:http|ftp)s?://`, ignoring case. */
  predicate IsScheme(t: string)
  {
    LowerStr(t) in {"http://", "https://", "ftp://", "ftps://"}
  }

  /** `[A-Z0-9](?:[A-Z0-9-]{0,61}[A-Z0-9])?`: 1 to 63 characters, alphanumeric at both ends. */
  predicate IsLabel(t: string)
  {
    1 <= |t| <= 63 && IsAlnum(t[0]) && IsAlnum(t[|t| - 1]) &&
    forall k | 0 <= k < |t| :: IsAlnumOrHyphen(t[k])
  }

  /** `[A-Z]{2,6}` or `[A-Z0-9-]{2,}`. */
  predicate IsTopLevel(t: string)
  {
    || (2 <= |t| <= 6 && forall k | 0 <= k < |t| :: IsLetter(t[k]))
    || (2 <= |t| && forall k | 0 <= k < |t| :: IsAlnumOrHyphen(t[k]))
  }

  /** The final part of a domain: a top-level part with an optional trailing dot. */
  predicate IsFinal(t: string)
  {
    IsTopLevel(t) || (|t| >= 1 && t[|t| - 1] == '.' && IsTopLevel(t[..|t| - 1]))
  }

  /** `(?:label\.)+final`: a label and a dot, followed by the final part or by another domain. */
  ghost predicate IsDomain(h: string)
    decreases |h|
  {
    exists i | 0 <= i < |h| :: h[i] == '.' && IsLabel(h[..i]) && (IsFinal(h[i + 1..]) || IsDomain(h[i + 1..]))
  }

  /** `\d{1,3}` */
  predicate IsOctet(t: string)
  {
    1 <= |t| <= 3 && forall k | 0 <= k < |t| :: IsDigit(t[k])
  }

  /** `n` groups `\d{1,3}` separated by dots; the address is the case `n == 4`. */
  ghost predicate IsDottedOctets(h: string, n: nat)
    decreases n
  {
    if n <= 1 then n == 1 && IsOctet(h)
    else exists i | 0 <= i < |h| :: h[i] == '.' && IsOctet(h[..i]) && IsDottedOctets(h[i + 1..], n - 1)
  }

  /** A domain, `localhost` in any case, or four dotted groups of digits (no range check). */
  ghost predicate IsHost(h: string)
  {
    LowerStr(h) == "localhost" || IsDottedOctets(h, 4) || IsDomain(h)
  }

  /** `(?::\d+)?` */
  predicate IsPort(t: string)
  {
    t == "" || (|t| >= 2 && t[0] == ':' && forall k | 1 <= k < |t| :: IsDigit(t[k]))
  }

  /** `(?:/?|[/?]\S+)`: nothing, one slash, or `/` or `?` followed by non-space characters. */
  predicate IsTail(t: string)
  {
    t == "" || t == "/" || (|t| >= 2 && (t[0] == '/' || t[0] == '?') && forall k | 1 <= k < |t| :: !IsSpace(t[k]))
  }

  /** What follows the scheme: a host, an optional port and a tail. */
  ghost predicate IsRest(t: string)
  {
    exists n, j | 0 <= n <= j <= |t| :: IsHost(t[..n]) && IsPort(t[n..j]) && IsTail(t[j..])
  }

  /** The whole of `s` is a scheme followed by a host, an optional port and a tail. */
  ghost predicate IsUrl(s: string)
  {
    exists i: nat | i <= |s| :: IsScheme(s[..i]) && IsRest(s[i..])
  }

  /** `re.match` with `^...$`: `$` matches at the end or before a final line feed. */
  ghost predicate Accepted(s: string)
  {
    IsUrl(s) || (|s| >= 1 && s[|s| - 1] == '\n' && IsUrl(s[..|s| - 1]))
  }

  // The decision procedure.

  /** `s` starts with `p` once lower-cased; `p` is written in lower case. */
  predicate StartsWithFolded(s: string, p: string): (starts: bool)
    ensures starts ==> |p| <= |s|
    decreases |p|
  {
    |p| == 0 || (|s| > 0 && Lower(s[0]) == p[0] && StartsWithFolded(s[1..], p[1..]))
  }

  /** The length of the scheme `s` starts with, 0 when it starts with none. */
  function SchemeLength(s: string): (n: nat)
    ensures n <= |s|
  {
    if StartsWithFolded(s, "http://") then 7
    else if StartsWithFolded(s, "https://") then 8
    else if StartsWithFolded(s, "ftp://") then 6
    else if StartsWithFolded(s, "ftps://") then 7
    else 0
  }

  /** A label can contain no dot, so it ends at the first one. */
  function DomainCheck(h: string): bool
    decreases |h|
  {
    var i := Find(h, '.');
    i < |h| && IsLabel(h[..i]) && (IsFinal(h[i + 1..]) || DomainCheck(h[i + 1..]))
  }

  function OctetsCheck(h: string, n: nat): bool
    decreases n
  {
    if n <= 1 then n == 1 && IsOctet(h)
    else
      var i := Find(h, '.');
      i < |h| && IsOctet(h[..i]) && OctetsCheck(h[i + 1..], n - 1)
  }

  function HostCheck(h: string): bool
  {
    (|h| == 9 && StartsWithFolded(h, "localhost")) || OctetsCheck(h, 4) || DomainCheck(h)
  }

  /** After the host: a port, which runs over all the digits after `:`, then the tail. */
  function PortTailCheck(r: string): bool
  {
    if |r| > 0 && r[0] == ':' then
      var d := Span(r[1..], IsDigit);
      d >= 1 && IsTail(r[1 + d..])
    else IsTail(r)
  }

  function UrlCheck(s: string): bool
  {
    var i := SchemeLength(s);
    i > 0 && AfterScheme(s[i..])
  }

  /** The host is the longest run of host characters after the scheme: neither a
      port nor a tail starts with one. */
  function AfterScheme(t: string): bool
  {
    var n := Span(t, IsHostChar);
    HostCheck(t[..n]) && PortTailCheck(t[n..])
  }

  /** `is_valid_domain(domain)`. */
  function IsValidDomain(domain: string): bool
  {
    UrlCheck(domain) || (|domain| >= 1 && domain[|domain| - 1] == '\n' && UrlCheck(domain[..|domain| - 1]))
  }

  // The proof that the procedure decides the language.

  /** One step of `DomainCheck`, with the first dot named. */
  lemma DomainCheckAt(h: string, i: nat)
    requires i == Find(h, '.')
    ensures DomainCheck(h) == (i < |h| && IsLabel(h[..i]) && (IsFinal(h[i + 1..]) || DomainCheck(h[i + 1..])))
  {
  }

  /** One step of `OctetsCheck`, with the first dot named. */
  lemma OctetsCheckAt(h: string, n: nat, i: nat)
    requires n > 1 && i == Find(h, '.')
    ensures OctetsCheck(h, n) == (i < |h| && IsOctet(h[..i]) && OctetsCheck(h[i + 1..], n - 1))
  {
  }

  /** `PortTailCheck` with the length of the digit run named. */
  lemma PortTailCheckAt(r: string, d: nat)
    requires |r| > 0 && d == Span(r[1..], IsDigit)
    ensures PortTailCheck(r) == if r[0] == ':' then d >= 1 && IsTail(r[1 + d..]) else IsTail(r)
  {
  }

  lemma LabelHasNoDot(t: string)
    requires IsLabel(t) || IsOctet(t)
    ensures '.' !in t
  {
  }

  lemma {:induction false} DomainCheckSound(h: string)
    requires DomainCheck(h)
    ensures IsDomain(h)
    decreases |h|
  {
    var i := Find(h, '.');
    DomainCheckAt(h, i);
    if !IsFinal(h[i + 1..]) {
      DomainCheckSound(h[i + 1..]);
    }
  }

  lemma {:induction false} DomainCheckComplete(h: string)
    requires IsDomain(h)
    ensures DomainCheck(h)
    decreases |h|
  {
    var m :| 0 <= m < |h| && h[m] == '.' && IsLabel(h[..m]) && (IsFinal(h[m + 1..]) || IsDomain(h[m + 1..]));
    LabelHasNoDot(h[..m]);
    FindIs(h, '.', m);
    DomainCheckAt(h, m);
    if !IsFinal(h[m + 1..]) {
      DomainCheckComplete(h[m + 1..]);
    }
  }

  lemma DomainCheckDecides(h: string)
    ensures DomainCheck(h) <==> IsDomain(h)
  {
    if DomainCheck(h) {
      DomainCheckSound(h);
    }
    if IsDomain(h) {
      DomainCheckComplete(h);
    }
  }

  lemma {:induction false} OctetsCheckSound(h: string, n: nat)
    requires OctetsCheck(h, n)
    ensures IsDottedOctets(h, n)
    decreases n
  {
    if n > 1 {
      var i := Find(h, '.');
      OctetsCheckSound(h[i + 1..], n - 1);
    }
  }

  lemma {:induction false} OctetsCheckComplete(h: string, n: nat)
    requires IsDottedOctets(h, n)
    ensures OctetsCheck(h, n)
    decreases n
  {
    if n > 1 {
      var m :| 0 <= m < |h| && h[m] == '.' && IsOctet(h[..m]) && IsDottedOctets(h[m + 1..], n - 1);
      LabelHasNoDot(h[..m]);
      FindIs(h, '.', m);
      OctetsCheckAt(h, n, m);
      OctetsCheckComplete(h[m + 1..], n - 1);
    }
  }

  lemma OctetsCheckDecides(h: string, n: nat)
    ensures OctetsCheck(h, n) <==> IsDottedOctets(h, n)
  {
    if OctetsCheck(h, n) { OctetsCheckSound(h, n); }
    if IsDottedOctets(h, n) { OctetsCheckComplete(h, n); }
  }

  lemma HostCheckDecides(h: string)
    ensures HostCheck(h) <==> IsHost(h)
  {
    StartsWithFoldedIs(h, "localhost");
    assert h[..|h|] == h;
    DomainCheckDecides(h);
    OctetsCheckDecides(h, 4);
  }

  predicate AllHostChars(t: string)
  {
    forall k | 0 <= k < |t| :: IsHostChar(t[k])
  }

  /** Host characters on both sides of a dot. */
  lemma DotJoinHostChars(h: string, m: nat)
    requires m < |h| && h[m] == '.' && AllHostChars(h[..m]) && AllHostChars(h[m + 1..])
    ensures AllHostChars(h)
  {
    forall k | 0 <= k < |h| ensures IsHostChar(h[k]) {
      if k < m {
        assert h[k] == h[..m][k];
      } else if k > m {
        assert h[k] == h[m + 1..][k - m - 1];
      }
    }
  }

  lemma PartHostChars(t: string)
    requires IsLabel(t) || IsOctet(t) || IsFinal(t)
    ensures AllHostChars(t)
  {
    if !IsLabel(t) && !IsOctet(t) && !IsTopLevel(t) {
      var core := t[..|t| - 1];
      forall k | 0 <= k < |t| ensures IsHostChar(t[k]) {
        if k < |t| - 1 {
          assert t[k] == core[k];
        }
      }
    }
  }

  lemma {:induction false} DomainHostChars(h: string)
    requires IsDomain(h)
    ensures AllHostChars(h)
    decreases |h|
  {
    var m :| 0 <= m < |h| && h[m] == '.' && IsLabel(h[..m]) && (IsFinal(h[m + 1..]) || IsDomain(h[m + 1..]));
    if IsFinal(h[m + 1..]) {
      PartHostChars(h[m + 1..]);
    } else {
      DomainHostChars(h[m + 1..]);
    }
    PartHostChars(h[..m]);
    DotJoinHostChars(h, m);
  }

  lemma {:induction false} OctetsHostChars(h: string, n: nat)
    requires OctetsCheck(h, n)
    ensures AllHostChars(h)
    decreases n
  {
    if n <= 1 {
      PartHostChars(h);
    } else {
      var i := Find(h, '.');
      var rest := h[i + 1..];
      assert i < |h| && IsOctet(h[..i]) && OctetsCheck(rest, n - 1);
      OctetsHostChars(rest, n - 1);
      PartHostChars(h[..i]);
      DotJoinHostChars(h, i);
    }
  }

  lemma LocalhostHostChars(h: string)
    requires LowerStr(h) == "localhost"
    ensures AllHostChars(h)
  {
    forall k | 0 <= k < |h| ensures IsHostChar(h[k]) {
      assert IsLetter(LowerStr(h)[k]);
    }
  }

  /** Every host is made of letters, digits, hyphens and dots only. */
  lemma HostChars(h: string)
    requires IsHost(h)
    ensures AllHostChars(h)
  {
    if LowerStr(h) == "localhost" {
      LocalhostHostChars(h);
    } else if IsDottedOctets(h, 4) {
      OctetsCheckDecides(h, 4);
      OctetsHostChars(h, 4);
    } else {
      DomainHostChars(h);
    }
  }

  lemma {:induction false} StartsWithFoldedIs(s: string, p: string)
    ensures StartsWithFolded(s, p) <==> |p| <= |s| && LowerStr(s[..|p|]) == p
    decreases |p|
  {
    if |p| > 0 && |s| > 0 {
      StartsWithFoldedIs(s[1..], p[1..]);
      if |p| <= |s| {
        var l := LowerStr(s[..|p|]);
        assert s[1..][..|p| - 1] == s[..|p|][1..];
        LowerSuffix(s[..|p|], 1);
        assert l == [l[0]] + l[1..];
        assert p == [p[0]] + p[1..];
      }
    }
  }

  lemma SchemeLengthSound(s: string)
    requires SchemeLength(s) > 0
    ensures SchemeLength(s) <= |s| && IsScheme(s[..SchemeLength(s)])
  {
    StartsWithFoldedIs(s, "http://");
    StartsWithFoldedIs(s, "https://");
    StartsWithFoldedIs(s, "ftp://");
    StartsWithFoldedIs(s, "ftps://");
  }

  /** Where `s` starts with `p`, its `k`-th character lower-cases to `p[k]`. */
  lemma {:induction false} FoldedAt(s: string, p: string, k: nat)
    requires StartsWithFolded(s, p) && k < |p|
    ensures k < |s| && Lower(s[k]) == p[k]
    decreases k
  {
    if k > 0 {
      FoldedAt(s[1..], p[1..], k - 1);
    }
  }

  /** Two words that differ at `k` cannot both start a string, ignoring case. */
  lemma NotBoth(s: string, p: string, q: string, k: nat)
    requires k < |p| && k < |q| && p[k] != q[k]
    ensures !(StartsWithFolded(s, p) && StartsWithFolded(s, q))
  {
    if StartsWithFolded(s, p) && StartsWithFolded(s, q) {
      FoldedAt(s, p, k);
      FoldedAt(s, q, k);
    }
  }

  /** The four schemes are such that at most one of them starts a string, so
      the order in which `SchemeLength` tries them does not matter. */
  lemma SchemesExclusive(s: string, l: string)
    requires l in {"http://", "https://", "ftp://", "ftps://"} && StartsWithFolded(s, l)
    ensures SchemeLength(s) == |l|
  {
    NotBoth(s, "http://", "https://", 4);
    NotBoth(s, "http://", "ftp://", 0);
    NotBoth(s, "http://", "ftps://", 0);
    NotBoth(s, "https://", "ftp://", 0);
    NotBoth(s, "https://", "ftps://", 0);
    NotBoth(s, "ftp://", "ftps://", 3);
  }

  lemma SchemeLengthComplete(s: string, i: nat)
    requires i <= |s| && IsScheme(s[..i])
    ensures SchemeLength(s) == i
  {
    var l := LowerStr(s[..i]);
    StartsWithFoldedIs(s, l);
    SchemesExclusive(s, l);
  }

  /** What `PortTailCheck` reads after position `n`: a port, then a tail. */
  lemma PortTailParts(t: string, n: nat) returns (j: nat)
    requires n <= |t| && PortTailCheck(t[n..])
    ensures n <= j <= |t| && IsPort(t[n..j]) && IsTail(t[j..])
  {
    var r := t[n..];
    if |r| > 0 && r[0] == ':' {
      var m := Span(r[1..], IsDigit);
      PortTailCheckAt(r, m);
      j := n + 1 + m;
      forall k | 1 <= k < j - n ensures IsDigit(t[n..j][k]) {
        assert t[n..j][k] == r[1..][k - 1];
      }
      assert t[n..j][0] == r[0];
      assert r[1 + m..] == t[j..];
    } else {
      j := n;
      assert t[n..n] == [];
    }
  }

  /** What `AfterScheme` finds is a host, a port and a tail. */
  lemma AfterSchemeSound(t: string)
    requires AfterScheme(t)
    ensures IsRest(t)
  {
    var n := Span(t, IsHostChar);
    AfterSchemeAt(t, n);
    HostCheckDecides(t[..n]);
    var j := PortTailParts(t, n);
    RestFromParts(t, n, j);
  }

  lemma RestFromParts(t: string, n: nat, j: nat)
    requires n <= j <= |t| && IsHost(t[..n]) && IsPort(t[n..j]) && IsTail(t[j..])
    ensures IsRest(t)
  {
  }

  lemma UrlFromRest(s: string, i: nat)
    requires i <= |s| && IsScheme(s[..i]) && IsRest(s[i..])
    ensures IsUrl(s)
  {
  }

  lemma UrlCheckSound(s: string)
    requires UrlCheck(s)
    ensures IsUrl(s)
  {
    var i := SchemeLength(s);
    SchemeLengthSound(s);
    UrlCheckAt(s, i);
    AfterSchemeSound(s[i..]);
    UrlFromRest(s, i);
  }

  /** The converse of `PortTailParts`: a port followed by a tail is read as such. */
  lemma PortTailFromParts(t: string, n: nat, j: nat)
    requires n <= j <= |t| && IsPort(t[n..j]) && IsTail(t[j..])
    ensures PortTailCheck(t[n..])
  {
    var r := t[n..];
    if j > n {
      assert r[0] == t[n..j][0];
      var u := r[1..];
      forall k | 0 <= k < j - n - 1 ensures IsDigit(u[k]) {
        assert u[k] == t[n..j][k + 1];
      }
      if j < |t| {
        assert u[j - n - 1] == t[j..][0];
      }
      SpanIs(u, IsDigit, j - n - 1);
      PortTailCheckAt(r, j - n - 1);
      assert r[j - n..] == t[j..];
    }
  }

  /** Neither a port nor a non-empty tail starts with a host character. */
  lemma PortTailStart(t: string, n: nat, j: nat)
    requires n <= j <= |t| && IsPort(t[n..j]) && IsTail(t[j..])
    ensures n < |t| ==> !IsHostChar(t[n])
  {
    if j > n {
      assert t[n] == t[n..j][0];
    } else if n < |t| {
      assert t[n] == t[j..][0];
    }
  }

  /** Host characters up to `n`, then none: the span ends at `n`. */
  lemma HostSpanEnds(t: string, n: nat)
    requires n <= |t| && AllHostChars(t[..n]) && (n < |t| ==> !IsHostChar(t[n]))
    ensures Span(t, IsHostChar) == n
  {
    forall m | 0 <= m < n ensures IsHostChar(t[m]) {
      assert t[m] == t[..n][m];
    }
    SpanIs(t, IsHostChar, n);
  }

  /** A host made of host characters and followed by a port and a tail is the
      one `AfterScheme` reads, and the port is the one it reads. */
  lemma AfterSchemeFromParts(t: string, n: nat, j: nat)
    requires n <= j <= |t| && HostCheck(t[..n]) && AllHostChars(t[..n])
    requires IsPort(t[n..j]) && IsTail(t[j..])
    ensures AfterScheme(t)
  {
    PortTailStart(t, n, j);
    HostSpanEnds(t, n);
    PortTailFromParts(t, n, j);
    AfterSchemeAt(t, n);
  }

  lemma AfterSchemeComplete(t: string)
    requires IsRest(t)
    ensures AfterScheme(t)
  {
    var n, j :| 0 <= n <= j <= |t| && IsHost(t[..n]) && IsPort(t[n..j]) && IsTail(t[j..]);
    HostChars(t[..n]);
    HostCheckDecides(t[..n]);
    AfterSchemeFromParts(t, n, j);
  }

  lemma UrlCheckAt(s: string, i: nat)
    requires i == SchemeLength(s)
    ensures UrlCheck(s) == (i > 0 && AfterScheme(s[i..]))
  {
  }

  lemma AfterSchemeAt(t: string, n: nat)
    requires n == Span(t, IsHostChar)
    ensures AfterScheme(t) == (HostCheck(t[..n]) && PortTailCheck(t[n..]))
  {
  }

  lemma UrlCheckComplete(s: string)
    requires IsUrl(s)
    ensures UrlCheck(s)
  {
    var i: nat :| i <= |s| && IsScheme(s[..i]) && IsRest(s[i..]);
    SchemeLengthComplete(s, i);
    AfterSchemeComplete(s[i..]);
    UrlCheckAt(s, i);
  }

  lemma UrlCheckDecides(s: string)
    ensures UrlCheck(s) <==> IsUrl(s)
  {
    if UrlCheck(s) { UrlCheckSound(s); }
    if IsUrl(s) { UrlCheckComplete(s); }
  }

  /** `is_valid_domain` accepts exactly what the regular expression matches. */
  lemma IsValidDomainDecides(domain: string)
    ensures IsValidDomain(domain) <==> Accepted(domain)
  {
    UrlCheckDecides(domain);
    if |domain| >= 1 {
      UrlCheckDecides(domain[..|domain| - 1]);
    }
  }

  // Case.

  /** `a` and `b` are the same string up to the case of their letters. */
  predicate Folds(a: string, b: string)
  {
    |a| == |b| && forall k | 0 <= k < |a| :: Lower(a[k]) == Lower(b[k])
  }

  lemma FoldsPrefix(a: string, b: string, i: nat)
    requires Folds(a, b) && i <= |a|
    ensures Folds(a[..i], b[..i])
  {
    forall k | 0 <= k < i ensures Lower(a[..i][k]) == Lower(b[..i][k]) {
      assert a[..i][k] == a[k] && b[..i][k] == b[k];
    }
  }

  lemma FoldsSuffix(a: string, b: string, i: nat)
    requires Folds(a, b) && i <= |a|
    ensures Folds(a[i..], b[i..])
  {
    forall k | 0 <= k < |a| - i ensures Lower(a[i..][k]) == Lower(b[i..][k]) {
      assert a[i..][k] == a[i + k] && b[i..][k] == b[i + k];
    }
  }

  /** Characters equal up to case fall in the same classes, and the ones that are
      not letters are equal. */
  lemma FoldsChar(c: char, d: char)
    requires Lower(c) == Lower(d)
    ensures IsLetter(c) == IsLetter(d) && IsDigit(c) == IsDigit(d) && IsSpace(c) == IsSpace(d)
    ensures IsAlnum(c) == IsAlnum(d) && IsAlnumOrHyphen(c) == IsAlnumOrHyphen(d) && IsHostChar(c) == IsHostChar(d)
    ensures !IsLetter(c) ==> c == d
  {
  }

  lemma FoldsClasses(a: string, b: string)
    requires Folds(a, b)
    ensures forall k | 0 <= k < |a| ::
      && (IsLetter(a[k]) <==> IsLetter(b[k]))
      && (IsDigit(a[k]) <==> IsDigit(b[k]))
      && (IsSpace(a[k]) <==> IsSpace(b[k]))
      && (IsAlnum(a[k]) <==> IsAlnum(b[k]))
      && (IsAlnumOrHyphen(a[k]) <==> IsAlnumOrHyphen(b[k]))
      && (IsHostChar(a[k]) <==> IsHostChar(b[k]))
      && (!IsLetter(a[k]) ==> a[k] == b[k])
  {
    forall k | 0 <= k < |a|
      ensures IsLetter(a[k]) == IsLetter(b[k]) && IsDigit(a[k]) == IsDigit(b[k]) && IsSpace(a[k]) == IsSpace(b[k])
      ensures IsAlnum(a[k]) == IsAlnum(b[k]) && IsAlnumOrHyphen(a[k]) == IsAlnumOrHyphen(b[k])
      ensures IsHostChar(a[k]) == IsHostChar(b[k]) && (!IsLetter(a[k]) ==> a[k] == b[k])
    {
      FoldsChar(a[k], b[k]);
    }
  }

  lemma FoldsFind(a: string, b: string, c: char)
    requires Folds(a, b) && !IsLetter(c)
    ensures Find(a, c) == Find(b, c)
  {
    FoldsClasses(a, b);
    var i := Find(b, c);
    forall k | 0 <= k < i ensures a[k] != c {
      assert b[k] != c by { assert b[k] == b[..i][k]; }
    }
    assert c !in a[..i] by {
      forall k | 0 <= k < i ensures a[..i][k] != c { assert a[..i][k] == a[k]; }
    }
    FindIs(a, c, i);
  }

  lemma FoldsSpanHost(a: string, b: string)
    requires Folds(a, b)
    ensures Span(a, IsHostChar) == Span(b, IsHostChar)
  {
    FoldsClasses(a, b);
    SpanIs(a, IsHostChar, Span(b, IsHostChar));
  }

  lemma FoldsSpanDigit(a: string, b: string)
    requires Folds(a, b)
    ensures Span(a, IsDigit) == Span(b, IsDigit)
  {
    FoldsClasses(a, b);
    SpanIs(a, IsDigit, Span(b, IsDigit));
  }

  lemma FoldsLabel(a: string, b: string)
    requires Folds(a, b)
    ensures IsLabel(a) == IsLabel(b) && IsOctet(a) == IsOctet(b)
  {
    FoldsClasses(a, b);
  }

  lemma FoldsTopLevel(a: string, b: string)
    requires Folds(a, b)
    ensures IsTopLevel(a) == IsTopLevel(b)
  {
    FoldsClasses(a, b);
  }

  lemma FoldsFinal(a: string, b: string)
    requires Folds(a, b)
    ensures IsFinal(a) == IsFinal(b)
  {
    FoldsClasses(a, b);
    FoldsTopLevel(a, b);
    if |a| >= 1 {
      FoldsPrefix(a, b, |a| - 1);
      FoldsTopLevel(a[..|a| - 1], b[..|b| - 1]);
    }
  }

  lemma FoldsTail(a: string, b: string)
    requires Folds(a, b)
    ensures IsTail(a) == IsTail(b)
  {
    FoldsClasses(a, b);
    if |a| == 1 {
      assert a == [a[0]] && b == [b[0]];
    }
  }

  lemma {:induction false} FoldsDomainCheck(a: string, b: string)
    requires Folds(a, b)
    ensures DomainCheck(a) == DomainCheck(b)
    decreases |a|
  {
    var i := Find(a, '.');
    FoldsFind(a, b, '.');
    DomainCheckAt(a, i);
    DomainCheckAt(b, i);
    if i < |a| {
      FoldsPrefix(a, b, i);
      FoldsSuffix(a, b, i + 1);
      FoldsLabel(a[..i], b[..i]);
      FoldsFinal(a[i + 1..], b[i + 1..]);
      FoldsDomainCheck(a[i + 1..], b[i + 1..]);
    }
  }

  lemma {:induction false} FoldsOctetsCheck(a: string, b: string, n: nat)
    requires Folds(a, b)
    ensures OctetsCheck(a, n) == OctetsCheck(b, n)
    decreases n
  {
    if n <= 1 {
      FoldsLabel(a, b);
    } else {
      var i := Find(a, '.');
      FoldsFind(a, b, '.');
      OctetsCheckAt(a, n, i);
      OctetsCheckAt(b, n, i);
      if i < |a| {
        FoldsPrefix(a, b, i);
        FoldsSuffix(a, b, i + 1);
        FoldsLabel(a[..i], b[..i]);
        FoldsOctetsCheck(a[i + 1..], b[i + 1..], n - 1);
      }
    }
  }

  lemma FoldsHostCheck(a: string, b: string)
    requires Folds(a, b)
    ensures HostCheck(a) == HostCheck(b)
  {
    FoldsStartsWith(a, b, "localhost");
    FoldsOctetsCheck(a, b, 4);
    FoldsDomainCheck(a, b);
  }

  lemma FoldsPortTailCheck(a: string, b: string)
    requires Folds(a, b)
    ensures PortTailCheck(a) == PortTailCheck(b)
  {
    FoldsTail(a, b);
    FoldsClasses(a, b);
    if |a| > 0 {
      FoldsSuffix(a, b, 1);
      var d := Span(a[1..], IsDigit);
      FoldsSpanDigit(a[1..], b[1..]);
      PortTailCheckAt(a, d);
      PortTailCheckAt(b, d);
      if d <= |a| - 1 {
        FoldsSuffix(a, b, 1 + d);
        FoldsTail(a[1 + d..], b[1 + d..]);
      }
    }
  }

  lemma {:induction false} FoldsStartsWith(a: string, b: string, p: string)
    requires Folds(a, b)
    ensures StartsWithFolded(a, p) == StartsWithFolded(b, p)
    decreases |p|
  {
    if |p| > 0 && |a| > 0 {
      FoldsSuffix(a, b, 1);
      FoldsStartsWith(a[1..], b[1..], p[1..]);
    }
  }

  lemma FoldsSchemeLength(a: string, b: string)
    requires Folds(a, b)
    ensures SchemeLength(a) == SchemeLength(b)
  {
    FoldsStartsWith(a, b, "http://");
    FoldsStartsWith(a, b, "https://");
    FoldsStartsWith(a, b, "ftp://");
    FoldsStartsWith(a, b, "ftps://");
  }

  lemma FoldsAfterScheme(a: string, b: string)
    requires Folds(a, b)
    ensures AfterScheme(a) == AfterScheme(b)
  {
    var n := Span(a, IsHostChar);
    FoldsSpanHost(a, b);
    FoldsPrefix(a, b, n);
    FoldsSuffix(a, b, n);
    FoldsHostCheck(a[..n], b[..n]);
    FoldsPortTailCheck(a[n..], b[n..]);
    AfterSchemeAt(a, n);
    AfterSchemeAt(b, n);
  }

  lemma FoldsUrlCheck(a: string, b: string)
    requires Folds(a, b)
    ensures UrlCheck(a) == UrlCheck(b)
  {
    FoldsSchemeLength(a, b);
    var i := SchemeLength(a);
    FoldsSuffix(a, b, i);
    FoldsAfterScheme(a[i..], b[i..]);
    UrlCheckAt(a, i);
    UrlCheckAt(b, i);
  }

  /** IGNORECASE: two inputs that differ only in the case of their letters get
      the same verdict. */
  lemma IsValidDomainIgnoresCase(a: string, b: string)
    requires LowerStr(a) == LowerStr(b)
    ensures IsValidDomain(a) == IsValidDomain(b)
  {
    forall k | 0 <= k < |a| ensures Lower(a[k]) == Lower(b[k]) {
      assert LowerStr(a)[k] == LowerStr(b)[k];
    }
    FoldsUrlCheck(a, b);
    if |a| >= 1 {
      FoldsChar(a[|a| - 1], b[|a| - 1]);
      LowerKeepsOthers(a[|a| - 1], '\n');
      LowerKeepsOthers(b[|a| - 1], '\n');
      FoldsPrefix(a, b, |a| - 1);
      FoldsUrlCheck(a[..|a| - 1], b[..|a| - 1]);
    }
  }

  /** The `[A-Z]{2,6}` alternative of the final part adds nothing to `[A-Z0-9-]{2,}`,
      which also lets the final part begin or end with a hyphen. */
  lemma TopLevelAlternativeSubsumed(t: string)
    ensures IsTopLevel(t) <==> 2 <= |t| && forall k | 0 <= k < |t| :: IsAlnumOrHyphen(t[k])
  {
  }

  // Examples.

  lemma NoUpperLowers(t: string)
    requires forall k | 0 <= k < |t| :: !('A' <= t[k] <= 'Z')
    ensures LowerStr(t) == t
  {
  }

  lemma HttpScheme(t: string)
    requires t == "http://"
    ensures IsScheme(t)
  {
    NoUpperLowers(t);
  }

  /** A scheme, a host, a port and a tail make an accepted URL. */
  lemma AcceptedFromParts(scheme: string, rest: string, n: nat, j: nat)
    requires IsScheme(scheme) && n <= j <= |rest|
    requires IsHost(rest[..n]) && IsPort(rest[n..j]) && IsTail(rest[j..])
    ensures IsValidDomain(scheme + rest)
  {
    var s := scheme + rest;
    ConcatSlices(scheme, rest);
    RestFromParts(rest, n, j);
    UrlFromRest(s, |scheme|);
    IsValidDomainDecides(s);
  }

  /** A scheme followed by a host and nothing else. */
  lemma AcceptedHostOnly(scheme: string, host: string)
    requires IsScheme(scheme) && IsHost(host)
    ensures IsValidDomain(scheme + host)
  {
    assert host[..|host|] == host && host[|host|..|host|] == [] && host[|host|..] == [];
    AcceptedFromParts(scheme, host, |host|, |host|);
  }

  /** An octet, a dot and `n - 1` dotted octets make `n` dotted octets. */
  lemma DottedOctetsCons(octet: string, rest: string, n: nat)
    requires n > 1 && IsOctet(octet) && IsDottedOctets(rest, n - 1)
    ensures IsDottedOctets(octet + "." + rest, n)
  {
    var h := octet + "." + rest;
    assert h[|octet|] == '.' && h[..|octet|] == octet && h[|octet| + 1..] == rest;
  }

  /** Each group is one to three digits, whatever its value: `http://999.999.999.999`
      is accepted, since nothing checks that a group is at most 255. */
  lemma NoOctetRange(scheme: string, a: string, b: string, c: string, d: string)
    requires IsScheme(scheme) && IsOctet(a) && IsOctet(b) && IsOctet(c) && IsOctet(d)
    ensures IsValidDomain(scheme + (a + "." + (b + "." + (c + "." + d))))
  {
    DottedOctetsCons(c, d, 2);
    DottedOctetsCons(b, c + "." + d, 3);
    DottedOctetsCons(a, b + "." + (c + "." + d), 4);
    AcceptedHostOnly(scheme, a + "." + (b + "." + (c + "." + d)));
  }

  /** `localhost` followed by a port and a slash. */
  lemma LocalhostWithPort(s: string)
    requires s == "http://localhost:8000/"
    ensures IsValidDomain(s)
  {
    var r := s[7..];
    assert r[..9] == "localhost";
    NoUpperLowers(r[..9]);
    HttpScheme(s[..7]);
    assert r[9..14] == ":8000";
    assert IsPort(r[9..14]);
    assert r[14..] == "/";
    AcceptedFromParts(s[..7], r, 9, 14);
    assert s[..7] + r == s;
  }

  /** `$` also matches before a final line feed, so one is tolerated there. */
  lemma TrailingLineFeed(s: string)
    requires s == "http://a.io\n"
    ensures IsValidDomain(s)
  {
    var u := s[..|s| - 1];
    assert u == "http://a.io";
    var r := u[7..];
    var h := r[..4];
    assert h[1] == '.' && h[..1] == "a" && h[2..] == "io";
    assert IsLabel(h[..1]) && IsFinal(h[1 + 1..]);
    assert IsDomain(h);
    HttpScheme(u[..7]);
    assert r[4..4] == "" && r[4..] == "";
    RestFromParts(r, 4, 4);
    UrlFromRest(u, 7);
    IsValidDomainDecides(s);
  }

  /** Without a final line feed, the verdict is that of `UrlCheck` alone. */
  lemma NoLineFeedVerdict(d: string)
    requires |d| == 0 || d[|d| - 1] != '\n'
    ensures IsValidDomain(d) == UrlCheck(d)
  {
  }

  /** Other than `localhost`, a host without a dot is rejected. */
  lemma NoDotHostRejected(h: string)
    requires '.' !in h && LowerStr(h) != "localhost"
    ensures !HostCheck(h)
  {
    assert h[..|h|] == h;
    FindIs(h, '.', |h|);
    DomainCheckAt(h, |h|);
    OctetsCheckAt(h, 4, |h|);
    StartsWithFoldedIs(h, "localhost");
  }

  /** A single label of letters and digits, `localhost` aside, is all host
      characters and no host. */
  lemma LabelAfterSchemeRejected(name: string)
    requires |name| > 0 && LowerStr(name) != "localhost"
    requires forall k | 0 <= k < |name| :: IsAlnum(name[k])
    ensures !AfterScheme(name)
  {
    SpanIs(name, IsHostChar, |name|);
    assert name[..|name|] == name;
    AfterSchemeAt(name, |name|);
    NoDotHostRejected(name);
  }

  /** A host needs a dot: a scheme followed by a single label of letters and
      digits, `localhost` aside, is rejected (`http://example`, say). */
  lemma SingleLabelRejected(scheme: string, name: string)
    requires IsScheme(scheme) && |name| > 0 && LowerStr(name) != "localhost"
    requires forall k | 0 <= k < |name| :: IsAlnum(name[k])
    ensures !IsValidDomain(scheme + name)
  {
    var s := scheme + name;
    ConcatSlices(scheme, name);
    SchemeLengthComplete(s, |scheme|);
    UrlCheckAt(s, |scheme|);
    LabelAfterSchemeRejected(name);
    assert s[|s| - 1] == name[|name| - 1];
    NoLineFeedVerdict(s);
  }
}
