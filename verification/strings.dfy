/**
 * The string operations the source takes from Python's `str`: `find` of one
 * character, the length of a run of characters of one class, `split` on one
 * separator and `join`.
 */
module Strings {

  /** Index of the first `c` in `s`, or `|s|` when there is none. */
  function Find(s: string, c: char): (i: nat)
    ensures i <= |s|
    ensures i < |s| ==> s[i] == c
    ensures c !in s[..i]
  {
    if s == [] then 0 else if s[0] == c then 0 else 1 + Find(s[1..], c)
  }

  /** Length of the longest prefix of `s` whose characters all satisfy `p`. */
  function Span(s: string, p: char -> bool): (n: nat)
    ensures n <= |s|
    ensures forall k | 0 <= k < n :: p(s[k])
    ensures n < |s| ==> !p(s[n])
  {
    if s == [] || !p(s[0]) then 0 else 1 + Span(s[1..], p)
  }

  /** `s.split(sep)`: the pieces between separators, possibly empty. */
  function Split(s: string, sep: char): (parts: seq<string>)
    ensures |parts| >= 1
    ensures forall k | 0 <= k < |parts| :: sep !in parts[k]
    decreases |s|
  {
    var i := Find(s, sep);
    if i == |s| then [s] else [s[..i]] + Split(s[i + 1..], sep)
  }

  /** `sep.join(parts)`: no separator before the first part or after the last. */
  function Join(parts: seq<string>, sep: char): (s: string)
    ensures parts == [] ==> s == ""
    ensures |parts| >= 1 ==> |parts[0]| <= |s| && s[..|parts[0]|] == parts[0]
    ensures |parts| >= 2 ==> |parts[0]| < |s| && s[|parts[0]|] == sep
  {
    if |parts| == 0 then ""
    else if |parts| == 1 then parts[0]
    else parts[0] + [sep] + Join(parts[1..], sep)
  }

  lemma ConcatSlices(a: string, b: string)
    ensures (a + b)[..|a|] == a && (a + b)[|a|..] == b
  {
  }

  /** Cutting `a + b` inside `b`. */
  lemma ConcatCut(a: string, b: string, k: nat)
    requires k <= |b|
    ensures (a + b)[..|a| + k] == a + b[..k] && (a + b)[|a| + k..] == b[k..]
  {
  }

  lemma FindIs(s: string, c: char, i: nat)
    requires i <= |s| && c !in s[..i] && (i < |s| ==> s[i] == c)
    ensures Find(s, c) == i
  {
  }

  lemma FindAfter(a: string, b: string, c: char)
    requires c !in a
    ensures Find(a + b, c) == |a| + Find(b, c)
  {
    var f := Find(b, c);
    assert (a + b)[..|a| + f] == a + b[..f];
    FindIs(a + b, c, |a| + f);
  }

  lemma SpanIs(s: string, p: char -> bool, n: nat)
    requires n <= |s| && (forall k | 0 <= k < n :: p(s[k])) && (n < |s| ==> !p(s[n]))
    ensures Span(s, p) == n
  {
  }

  /** Splitting `a`, a separator, then `rest`, when `a` holds no separator. */
  lemma SplitCons(a: string, sep: char, rest: string)
    requires sep !in a
    ensures Split(a + [sep] + rest, sep) == [a] + Split(rest, sep)
  {
    var s := a + [sep] + rest;
    FindIs(s, sep, |a|);
    assert s[..|a|] == a;
    assert s[|a| + 1..] == rest;
  }

  /** Splitting the joined parts gives the parts back when none holds the separator. */
  lemma {:induction false} SplitJoin(parts: seq<string>, sep: char)
    requires |parts| >= 1
    requires forall k | 0 <= k < |parts| :: sep !in parts[k]
    ensures Split(Join(parts, sep), sep) == parts
  {
    if |parts| == 1 {
      FindIs(parts[0], sep, |parts[0]|);
    } else {
      SplitCons(parts[0], sep, Join(parts[1..], sep));
      SplitJoin(parts[1..], sep);
      assert parts == [parts[0]] + parts[1..];
    }
  }

  /** Joining the pieces of a split restores the string. */
  lemma {:induction false} JoinSplit(s: string, sep: char)
    ensures Join(Split(s, sep), sep) == s
    decreases |s|
  {
    var i := Find(s, sep);
    if i < |s| {
      var tail := Split(s[i + 1..], sep);
      JoinSplit(s[i + 1..], sep);
      assert Split(s, sep) == [s[..i]] + tail;
      assert ([s[..i]] + tail)[1..] == tail;
      assert s == s[..i] + [sep] + s[i + 1..];
    }
  }
}
