/**
 * `get_scripts_variables`: the names `re.findall('var (\w+|\d+)', text)` finds
 * in the raw page text, keeping those longer than one character.
 */
module ScriptVars {
  import opened Chars
  import opened Strings

  predicate AllWord(s: string)
  {
    forall j | 0 <= j < |s| :: IsWordChar(s[j])
  }

  /** The literal `var ` (one space) is written at `i`. */
  predicate VarAt(text: string, i: nat)
  {
    i + 4 <= |text| && text[i] == 'v' && text[i + 1] == 'a' && text[i + 2] == 'r' && text[i + 3] == ' '
  }

  /** The pattern matches at `i`: the literal `var ` and then a word character.
      No word boundary is required before `var`. */
  predicate MatchAt(text: string, i: nat)
  {
    VarAt(text, i) && i + 5 <= |text| && IsWordChar(text[i + 4])
  }

  /** How much the greedy group consumes: the maximal run of word characters.
      The `\d+` alternative never applies, since a digit is a word character. */
  function WordRun(s: string): nat
  {
    Span(s, IsWordChar)
  }

  /** `findall`: the leftmost match, then the search resumes where it ended. */
  function FindAllVars(text: string): (names: seq<string>)
    ensures forall k | 0 <= k < |names| :: names[k] != [] && AllWord(names[k])
    decreases |text|
  {
    if |text| < 5 then []
    else if MatchAt(text, 0) then
      var e := 4 + WordRun(text[4..]);
      [text[4..e]] + FindAllVars(text[e..])
    else FindAllVars(text[1..])
  }

  /** The names kept by `get_scripts_variables`: those of length above one. */
  function ScriptVariables(text: string): (vars: set<string>)
    ensures forall v | v in vars :: |v| >= 2 && AllWord(v)
  {
    set v | v in FindAllVars(text) && |v| > 1
  }

  /** `v` is written right after `var ` at `i` and is not followed by a word character. */
  predicate DeclaredAt(text: string, i: nat, v: string)
  {
    VarAt(text, i) && i + 4 + |v| <= |text| && text[i + 4..i + 4 + |v|] == v &&
    (i + 4 + |v| == |text| || !IsWordChar(text[i + 4 + |v|]))
  }

  /** A declaration in a suffix is one in the whole text. */
  lemma DeclaredInSuffix(text: string, k: nat, i: nat, v: string)
    requires k <= |text| && DeclaredAt(text[k..], i, v)
    ensures DeclaredAt(text, k + i, v)
  {
    var rest := text[k..];
    assert rest[i + 4..i + 4 + |v|] == text[k + i + 4..k + i + 4 + |v|];
  }

  lemma {:induction false} FindAllVarsDeclared(text: string, v: string)
    requires v in FindAllVars(text)
    ensures exists i: nat :: DeclaredAt(text, i, v)
    decreases |text|
  {
    if MatchAt(text, 0) {
      var e := 4 + WordRun(text[4..]);
      if v == text[4..e] {
        assert DeclaredAt(text, 0, v);
      } else {
        FindAllVarsDeclared(text[e..], v);
        var i: nat :| DeclaredAt(text[e..], i, v);
        DeclaredInSuffix(text, e, i, v);
      }
    } else {
      FindAllVarsDeclared(text[1..], v);
      var i: nat :| DeclaredAt(text[1..], i, v);
      DeclaredInSuffix(text, 1, i, v);
    }
  }

  /** Every name returned has at least two characters, all word characters, and
      occurs right after `var ` as a maximal word. */
  lemma ScriptVariablesShape(text: string, v: string)
    requires v in ScriptVariables(text)
    ensures |v| >= 2 && AllWord(v)
    ensures exists i: nat :: DeclaredAt(text, i, v)
  {
    FindAllVarsDeclared(text, v);
  }

  /** Text in which the pattern matches nowhere yields no names. */
  lemma {:induction false} NoMatchNoVars(text: string)
    requires forall j: nat :: !MatchAt(text, j)
    ensures FindAllVars(text) == []
    decreases |text|
  {
    if |text| >= 5 {
      forall j: nat ensures !MatchAt(text[1..], j) {
        assert !MatchAt(text, j + 1);
      }
      NoMatchNoVars(text[1..]);
    }
  }

  /** The scan passes over a position where the pattern does not match. */
  lemma SkipNoMatch(text: string)
    requires |text| >= 5 && !MatchAt(text, 0)
    ensures FindAllVars(text) == FindAllVars(text[1..])
  {
  }

  /** A match at the start takes the whole word that follows `var `. */
  lemma TakeMatch(text: string, e: nat)
    requires MatchAt(text, 0) && e == 4 + WordRun(text[4..])
    ensures e <= |text| && FindAllVars(text) == [text[4..e]] + FindAllVars(text[e..])
  {
  }

  /** The scan takes the leftmost match first, with its whole word, and goes on
      after that word: matches never overlap. */
  lemma {:induction false} FindAllVarsLeftmost(text: string, i: nat, e: nat)
    requires MatchAt(text, i)
    requires forall j: nat | j < i :: !MatchAt(text, j)
    requires e == i + 4 + WordRun(text[i + 4..])
    ensures e <= |text| && FindAllVars(text) == [text[i + 4..e]] + FindAllVars(text[e..])
    decreases i
  {
    if i == 0 {
      TakeMatch(text, e);
    } else {
      var rest := text[1..];
      assert !MatchAt(text, 0);
      SkipNoMatch(text);
      forall j: nat | j < i - 1 ensures !MatchAt(rest, j) {
        assert !MatchAt(text, j + 1);
      }
      assert rest[i + 3..] == text[i + 4..];
      FindAllVarsLeftmost(rest, i - 1, e - 1);
      assert rest[i + 3..e - 1] == text[i + 4..e];
      assert rest[e - 1..] == text[e..];
    }
  }

  /** The word starting at `b` has `w` characters. */
  lemma WordRunIs(text: string, b: nat, w: nat)
    requires b + w <= |text| && forall k | b <= k < b + w :: IsWordChar(text[k])
    requires b + w < |text| ==> !IsWordChar(text[b + w])
    ensures WordRun(text[b..]) == w
  {
    var t := text[b..];
    forall k | 0 <= k < w ensures IsWordChar(t[k]) {
      assert t[k] == text[b + k];
    }
    SpanIs(t, IsWordChar, w);
  }

  /** The leftmost match, at `i`, whose word has `w` characters. */
  lemma LeftmostWord(text: string, i: nat, w: nat)
    requires MatchAt(text, i) && forall j: nat | j < i :: !MatchAt(text, j)
    requires i + 4 + w <= |text| && forall k | i + 4 <= k < i + 4 + w :: IsWordChar(text[k])
    requires i + 4 + w < |text| ==> !IsWordChar(text[i + 4 + w])
    ensures FindAllVars(text) == [text[i + 4..i + 4 + w]] + FindAllVars(text[i + 4 + w..])
  {
    WordRunIs(text, i + 4, w);
    FindAllVarsLeftmost(text, i, i + 4 + w);
  }

  /** `var v` followed by text that does not continue the word yields `v`,
      then whatever that text yields. */
  lemma DeclarationThen(text: string, v: string, rest: string)
    requires text == "var " + v + rest && v != [] && AllWord(v)
    requires rest != [] ==> !IsWordChar(rest[0])
    ensures FindAllVars(text) == [v] + FindAllVars(rest)
  {
    var e := 4 + |v|;
    assert text[4..e] == v && text[e..] == rest;
    assert MatchAt(text, 0) by { assert text[4] == v[0]; }
    forall k | 4 <= k < e ensures IsWordChar(text[k]) {
      assert text[k] == v[k - 4];
    }
    if e < |text| {
      assert text[e] == rest[0];
    }
    LeftmostWord(text, 0, |v|);
  }

  /** A declaration `var v;` of a name of two or more word characters yields
      exactly that name (`var csrf_token;`, say). */
  lemma OneDeclaration(text: string, v: string)
    requires text == "var " + v + ";" && |v| >= 2 && AllWord(v)
    ensures ScriptVariables(text) == {v}
  {
    DeclarationThen(text, v, ";");
    assert FindAllVars(text) == [v];
  }

  /** `var u; var v;` yields `u` then `v` (`var a; var token;`, say). */
  lemma TwoDeclarations(text: string, u: string, v: string)
    requires text == "var " + u + ("; " + ("var " + v + ";"))
    requires u != [] && AllWord(u) && v != [] && AllWord(v)
    ensures FindAllVars(text) == [u, v]
  {
    var second := "var " + v + ";";
    var rest := "; " + second;
    DeclarationThen(text, u, rest);
    assert FindAllVars(rest) == FindAllVars(rest[1..]) by {
      assert !MatchAt(rest, 0);
    }
    assert rest[1..][1..] == second;
    assert FindAllVars(rest[1..]) == FindAllVars(second) by {
      assert !MatchAt(rest[1..], 0);
    }
    DeclarationThen(second, v, ";");
  }

  /** Names of one character are dropped: `var a; var token;` gives `{token}`. */
  lemma ShortNamesDropped(text: string, u: string, v: string)
    requires text == "var " + u + ("; " + ("var " + v + ";"))
    requires |u| == 1 && AllWord(u) && |v| >= 2 && AllWord(v)
    ensures ScriptVariables(text) == {v}
  {
    TwoDeclarations(text, u, v);
    assert forall w :: w in FindAllVars(text) <==> w == u || w == v;
  }

  /** `myvar ab` yields `ab`: no word boundary is needed before `var`. */
  lemma NoBoundaryBeforeVar(text: string)
    requires text == "myvar ab"
    ensures FindAllVars(text) == ["ab"]
  {
    LeftmostWord(text, 2, 2);
    assert text[6..8] == "ab";
  }

  /** `var var ab` yields only `var`: the second `var ` lies inside the first match. */
  lemma MatchesDoNotOverlap(text: string)
    requires text == "var var ab"
    ensures FindAllVars(text) == ["var"]
  {
    LeftmostWord(text, 0, 3);
    assert text[4..7] == "var";
    assert FindAllVars(text[7..]) == [];
  }

  /** Other declaration keywords are not recognised. */
  lemma OnlyVar(text: string)
    requires text == "let x1" || text == "const x1"
    ensures FindAllVars(text) == []
  {
    NoMatchNoVars(text);
  }

  /** `var` must be followed by exactly one space, not by a tab. */
  lemma OnlyOneSpace(text: string)
    requires text == "var\tx1"
    ensures FindAllVars(text) == []
  {
    NoMatchNoVars(text);
  }

}
