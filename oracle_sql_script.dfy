/**
 * The Oracle hooks of the SQL script splitter: when to switch to the PL/SQL block
 * delimiter "/", and whether the statement read so far ends inside an open '...' or
 * q'X...X' string literal.
 */
module OracleSqlScript {
  import opened JavaStrings

  /** Delimiter of PL/SQL blocks and statements. */
  const PlsqlDelimiter: string := "/"

  // ---------------------------------------------------------------------------
  // The Java regular expressions used by changeDelimiterIfNecessary.
  // ---------------------------------------------------------------------------

  /** Java's \w: [A-Za-z0-9_]; \W is its complement. */
  predicate IsWordChar(c: char) {
    'a' <= c <= 'z' || 'A' <= c <= 'Z' || '0' <= c <= '9' || c == '_'
  }

  /** Java's \s: space, tab, newline, vertical tab, form feed, carriage return. */
  predicate IsSpace(c: char) {
    c == ' ' || c == '\t' || c == '\n' || c == 11 as char || c == 12 as char || c == '\r'
  }

  /** The line terminators Java's `.` refuses to match. */
  predicate IsLineTerminator(c: char) {
    c == '\n' || c == '\r' || c == 0x85 as char || c == 0x2028 as char || c == 0x2029 as char
  }

  predicate AllNonWord(s: string) {
    forall i :: 0 <= i < |s| ==> !IsWordChar(s[i])
  }

  predicate NoLineTerminator(s: string) {
    forall i :: 0 <= i < |s| ==> !IsLineTerminator(s[i])
  }

  /** One element of the patterns used here. */
  datatype Atom =
    | Lit(text: string)          // the literal text itself
    | Space                      // \s
    | NonWords(atLeastOne: bool) // \W+ when atLeastOne, else \W*
    | RestOfLine                 // .*

  type Pattern = seq<Atom>

  /**
   * What String.matches means for a pattern: the WHOLE string is matched, and each
   * repetition may take any number of characters (backtracking).
   */
  ghost predicate Matches(p: Pattern, s: string)
    decreases |p|
  {
    if p == [] then s == []
    else match p[0]
      case Lit(w) => StartsWith(s, w) && Matches(p[1..], s[|w|..])
      case Space => s != [] && IsSpace(s[0]) && Matches(p[1..], s[1..])
      case NonWords(plus) =>
        exists k :: (if plus then 1 else 0) <= k <= |s| && AllNonWord(s[..k]) && Matches(p[1..], s[k..])
      case RestOfLine =>
        exists k :: 0 <= k <= |s| && NoLineTerminator(s[..k]) && Matches(p[1..], s[k..])
  }

  /** The patterns a greedy matcher handles: \W runs stop at a word, .* comes last. */
  predicate WellFormed(p: Pattern)
    decreases |p|
  {
    p == [] ||
    ((match p[0]
      case NonWords(_) => |p| >= 2 && p[1].Lit? && p[1].text != [] && IsWordChar(p[1].text[0])
      case RestOfLine => |p| == 1
      case _ => true)
     && WellFormed(p[1..]))
  }

  /** The length of the longest prefix of `s` made of \W characters. */
  function NonWordRun(s: string): (n: nat)
    ensures n <= |s| && AllNonWord(s[..n]) && (n == |s| || IsWordChar(s[n]))
  {
    if s != [] && !IsWordChar(s[0]) then
      var n := 1 + NonWordRun(s[1..]);
      assert s[..n] == [s[0]] + s[1..][..n - 1];
      n
    else 0
  }

  lemma AllNonWordIndex(s: string, m: nat)
    requires m <= |s| && AllNonWord(s[..m])
    ensures forall i :: 0 <= i < m ==> !IsWordChar(s[i])
  {
    assert forall i :: 0 <= i < m ==> s[..m][i] == s[i];
  }

  /** A \W prefix that stops at a word character or the end is the maximal one. */
  lemma NonWordRunUnique(s: string, k: nat)
    requires k <= |s| && AllNonWord(s[..k]) && (k == |s| || IsWordChar(s[k]))
    ensures k == NonWordRun(s)
  {
    AllNonWordIndex(s, k);
    AllNonWordIndex(s, NonWordRun(s));
  }

  /** A matcher that never backtracks: each \W run takes all it can. */
  function Match(p: Pattern, s: string): bool
    decreases |p|
  {
    if p == [] then s == []
    else match p[0]
      case Lit(w) => StartsWith(s, w) && Match(p[1..], s[|w|..])
      case Space => s != [] && IsSpace(s[0]) && Match(p[1..], s[1..])
      case NonWords(plus) =>
        var n := NonWordRun(s);
        (!plus || n >= 1) && Match(p[1..], s[n..])
      case RestOfLine => NoLineTerminator(s) && Match(p[1..], [])
  }

  /** On well-formed patterns the greedy matcher decides exactly String.matches. */
  lemma {:induction false} MatchIsMatches(p: Pattern, s: string)
    requires WellFormed(p)
    ensures Match(p, s) == Matches(p, s)
    decreases |p|
  {
    if p == [] {
    } else {
      match p[0]
      case Lit(w) =>
        if StartsWith(s, w) { MatchIsMatches(p[1..], s[|w|..]); }
      case Space =>
        if s != [] { MatchIsMatches(p[1..], s[1..]); }
      case NonWords(plus) =>
        var n := NonWordRun(s);
        MatchIsMatches(p[1..], s[n..]);
        if Matches(p, s) {
          var k :| (if plus then 1 else 0) <= k <= |s| && AllNonWord(s[..k]) && Matches(p[1..], s[k..]);
          var w := p[1].text;
          assert StartsWith(s[k..], w);
          assert k < |s| && IsWordChar(s[k]) by { assert s[k..][0] == w[0]; }
          NonWordRunUnique(s, k);
        }
        if Match(p, s) {
          assert Matches(p, s);
        }
      case RestOfLine =>
        assert p[1..] == [];
        if Matches(p, s) {
          var k :| 0 <= k <= |s| && NoLineTerminator(s[..k]) && Matches(p[1..], s[k..]);
          assert k == |s| && s[..k] == s;
        }
        if Match(p, s) {
          assert s[..|s|] == s && s[|s|..] == [];
          assert Matches(p, s);
        }
    }
  }

  /** Some pattern of `ps` matches `s` in the sense of String.matches. */
  ghost predicate MatchesOneOf(ps: seq<Pattern>, s: string) {
    exists i :: 0 <= i < |ps| && Matches(ps[i], s)
  }

  function MatchAny(ps: seq<Pattern>, s: string): bool {
    ps != [] && (Match(ps[0], s) || MatchAny(ps[1..], s))
  }

  lemma {:induction false} MatchAnyIsMatchesOneOf(ps: seq<Pattern>, s: string)
    requires forall p :: p in ps ==> WellFormed(p)
    ensures MatchAny(ps, s) == MatchesOneOf(ps, s)
  {
    if ps != [] {
      MatchIsMatches(ps[0], s);
      MatchAnyIsMatchesOneOf(ps[1..], s);
      if MatchesOneOf(ps[1..], s) {
        var i :| 0 <= i < |ps[1..]| && Matches(ps[1..][i], s);
        assert Matches(ps[i + 1], s);
      }
      if MatchesOneOf(ps, s) && !Matches(ps[0], s) {
        var i :| 0 <= i < |ps| && Matches(ps[i], s);
        assert i > 0 && Matches(ps[1..][i - 1], s);
      }
    }
  }

  /** DECLARE|DECLARE\s.* and BEGIN|BEGIN\s.*, tested on the upper-cased line. */
  const BlockLinePatterns: seq<Pattern> := [
    [Lit("DECLARE")],
    [Lit("DECLARE"), Space, RestOfLine],
    [Lit("BEGIN")],
    [Lit("BEGIN"), Space, RestOfLine]
  ]

  /** CREATE [OR REPLACE] FUNCTION|PROCEDURE|PACKAGE..., tested on the upper-cased statement. */
  const BlockStatementPatterns: seq<Pattern> := [
    CreatePattern(false, "FUNCTION"),
    CreatePattern(true, "PROCEDURE"),
    CreatePattern(true, "PACKAGE"),
    CreateOrReplacePattern("FUNCTION"),
    CreateOrReplacePattern("PROCEDURE"),
    CreateOrReplacePattern("PACKAGE")
  ]

  /** CREATE\W*<kind>.* when `atLeastOne` is false, CREATE\W+<kind>.* when it is true. */
  function CreatePattern(atLeastOne: bool, kind: string): (p: Pattern)
    requires kind != [] && IsWordChar(kind[0])
    ensures WellFormed(p)
  {
    WordThenKindWellFormed("CREATE", atLeastOne, kind);
    [Lit("CREATE"), NonWords(atLeastOne), Lit(kind), RestOfLine]
  }

  /** CREATE\W+OR\W+REPLACE\W+<kind>.* */
  function CreateOrReplacePattern(kind: string): (p: Pattern)
    requires kind != [] && IsWordChar(kind[0])
    ensures WellFormed(p)
  {
    assert IsWordChar("OR"[0]) && IsWordChar("REPLACE"[0]);
    ThreeWordsThenKindWellFormed("CREATE", "OR", "REPLACE", kind);
    [Lit("CREATE"), NonWords(true), Lit("OR"), NonWords(true), Lit("REPLACE"), NonWords(true), Lit(kind), RestOfLine]
  }

  lemma LitThenWellFormed(w: string, p: Pattern)
    requires WellFormed(p)
    ensures WellFormed([Lit(w)] + p)
  {
    assert ([Lit(w)] + p)[1..] == p;
  }

  lemma NonWordsThenWellFormed(plus: bool, w: string, p: Pattern)
    requires WellFormed(p) && w != [] && IsWordChar(w[0])
    ensures WellFormed([NonWords(plus), Lit(w)] + p)
  {
    LitThenWellFormed(w, p);
    assert ([NonWords(plus), Lit(w)] + p)[1..] == [Lit(w)] + p;
  }

  /** A word, \W* or \W+, a word, and the rest of the line: well formed. */
  lemma WordThenKindWellFormed(a: string, plus: bool, kind: string)
    requires kind != [] && IsWordChar(kind[0])
    ensures WellFormed([Lit(a), NonWords(plus), Lit(kind), RestOfLine])
  {
    var tail := [RestOfLine];
    assert WellFormed(tail);
    NonWordsThenWellFormed(plus, kind, tail);
    LitThenWellFormed(a, [NonWords(plus), Lit(kind)] + tail);
    assert [Lit(a)] + ([NonWords(plus), Lit(kind)] + tail) == [Lit(a), NonWords(plus), Lit(kind), RestOfLine];
  }

  /** Three words separated by \W+, then \W+, a word and the rest of the line: well formed. */
  lemma ThreeWordsThenKindWellFormed(a: string, b: string, c: string, kind: string)
    requires b != [] && IsWordChar(b[0]) && c != [] && IsWordChar(c[0])
    requires kind != [] && IsWordChar(kind[0])
    ensures WellFormed([Lit(a), NonWords(true), Lit(b), NonWords(true), Lit(c), NonWords(true), Lit(kind), RestOfLine])
  {
    var tail := [RestOfLine];
    assert WellFormed(tail);
    NonWordsThenWellFormed(true, kind, tail);
    var t1 := [NonWords(true), Lit(kind)] + tail;
    NonWordsThenWellFormed(true, c, t1);
    var t2 := [NonWords(true), Lit(c)] + t1;
    NonWordsThenWellFormed(true, b, t2);
    LitThenWellFormed(a, [NonWords(true), Lit(b)] + t2);
    assert [Lit(a)] + ([NonWords(true), Lit(b)] + t2)
        == [Lit(a), NonWords(true), Lit(b), NonWords(true), Lit(c), NonWords(true), Lit(kind), RestOfLine];
  }

  lemma LinePatternsWellFormed()
    ensures forall p :: p in BlockLinePatterns ==> WellFormed(p)
  {
    assert WellFormed([RestOfLine]);
    assert WellFormed([Space, RestOfLine]);
    LitThenWellFormed("DECLARE", []);
    LitThenWellFormed("DECLARE", [Space, RestOfLine]);
    LitThenWellFormed("BEGIN", []);
    LitThenWellFormed("BEGIN", [Space, RestOfLine]);
  }

  lemma StatementPatternsWellFormed()
    ensures forall p :: p in BlockStatementPatterns ==> WellFormed(p)
  {
  }

  /**
   * changeDelimiterIfNecessary: a DECLARE or BEGIN line, or a statement that creates a
   * function, procedure or package, switches to the PL/SQL delimiter; otherwise the
   * current delimiter stays.
   */
  function ChangeDelimiterIfNecessary(statement: string, line: string, delimiter: string): (r: string)
    ensures MatchesOneOf(BlockLinePatterns, ToUpperAscii(line)) ==> r == PlsqlDelimiter
    ensures MatchesOneOf(BlockStatementPatterns, ToUpperAscii(statement)) ==> r == PlsqlDelimiter
    ensures (!MatchesOneOf(BlockLinePatterns, ToUpperAscii(line))
             && !MatchesOneOf(BlockStatementPatterns, ToUpperAscii(statement))) ==> r == delimiter
  {
    LinePatternsWellFormed();
    StatementPatternsWellFormed();
    MatchAnyIsMatchesOneOf(BlockLinePatterns, ToUpperAscii(line));
    MatchAnyIsMatchesOneOf(BlockStatementPatterns, ToUpperAscii(statement));
    if MatchAny(BlockLinePatterns, ToUpperAscii(line)) then PlsqlDelimiter
    else if MatchAny(BlockStatementPatterns, ToUpperAscii(statement)) then PlsqlDelimiter
    else delimiter
  }

  lemma UpperIdempotent(s: string)
    ensures ToUpperAscii(ToUpperAscii(s)) == ToUpperAscii(s)
  {
  }

  /** The decision ignores ASCII case: upper-casing the inputs first changes nothing. */
  lemma ChangeDelimiterIgnoresCase(statement: string, line: string, delimiter: string)
    ensures ChangeDelimiterIfNecessary(ToUpperAscii(statement), ToUpperAscii(line), delimiter)
         == ChangeDelimiterIfNecessary(statement, line, delimiter)
  {
    UpperIdempotent(statement);
    UpperIdempotent(line);
  }

  /** A line that is DECLARE or BEGIN, alone or followed by whitespace and the rest of the line. */
  lemma {:induction false} BlockLineSwitches(statement: string, line: string, delimiter: string, keyword: string, c: char, rest: string)
    requires keyword == "DECLARE" || keyword == "BEGIN"
    requires ToUpperAscii(line) == keyword
          || (ToUpperAscii(line) == keyword + [c] + rest && IsSpace(c) && NoLineTerminator(rest))
    ensures ChangeDelimiterIfNecessary(statement, line, delimiter) == PlsqlDelimiter
  {
    var u := ToUpperAscii(line);
    var i := if keyword == "DECLARE" then 0 else 2;
    assert BlockLinePatterns[i] == [Lit(keyword)];
    assert BlockLinePatterns[i + 1] == [Lit(keyword), Space, RestOfLine];
    if u == keyword {
      assert u[|keyword|..] == [];
      assert Matches(BlockLinePatterns[i], u);
    } else {
      var p := BlockLinePatterns[i + 1];
      assert u[|keyword|..] == [c] + rest;
      assert ([c] + rest)[1..] == rest;
      assert rest[..|rest|] == rest && rest[|rest|..] == [];
      assert Matches(p[2..], rest);
      assert Matches(p[1..], [c] + rest);
      assert Matches(p, u);
    }
  }

  lemma MatchesLitThen(w: string, p: Pattern, s: string)
    requires Matches(p, s)
    ensures Matches([Lit(w)] + p, w + s)
  {
    assert ([Lit(w)] + p)[1..] == p;
    assert (w + s)[..|w|] == w && (w + s)[|w|..] == s;
  }

  lemma MatchesNonWordsThen(plus: bool, sep: string, p: Pattern, s: string)
    requires AllNonWord(sep) && (plus ==> sep != [])
    requires Matches(p, s)
    ensures Matches([NonWords(plus)] + p, sep + s)
  {
    assert ([NonWords(plus)] + p)[1..] == p;
    assert (sep + s)[..|sep|] == sep && (sep + s)[|sep|..] == s;
  }

  lemma MatchesRestOfLine(s: string)
    requires NoLineTerminator(s)
    ensures Matches([RestOfLine], s)
  {
    assert [RestOfLine][1..] == [];
    assert s[..|s|] == s && s[|s|..] == [];
  }

  lemma CreateOrReplaceText(x: string)
    ensures "CREATE OR REPLACE " + x == "CREATE" + (" " + ("OR" + (" " + ("REPLACE" + (" " + x)))))
  {
  }

  /** A word, one space, then what `p` matches. */
  lemma MatchesWordSpaceThen(w: string, p: Pattern, s: string)
    requires Matches(p, s)
    ensures Matches([Lit(w), NonWords(true)] + p, w + (" " + s))
  {
    assert AllNonWord(" ");
    MatchesNonWordsThen(true, " ", p, s);
    MatchesLitThen(w, [NonWords(true)] + p, " " + s);
    assert [Lit(w)] + ([NonWords(true)] + p) == [Lit(w), NonWords(true)] + p;
  }

  /** Three words separated by single spaces, then one more space, then the kind and the rest of the line. */
  lemma MatchesThreeWordsThenKind(a: string, b: string, c: string, kind: string, rest: string)
    requires NoLineTerminator(rest)
    ensures Matches([Lit(a), NonWords(true), Lit(b), NonWords(true), Lit(c), NonWords(true), Lit(kind), RestOfLine],
                    a + (" " + (b + (" " + (c + (" " + (kind + rest)))))))
  {
    MatchesRestOfLine(rest);
    MatchesLitThen(kind, [RestOfLine], rest);
    var p1 := [Lit(kind)] + [RestOfLine];
    MatchesWordSpaceThen(c, p1, kind + rest);
    var p2 := [Lit(c), NonWords(true)] + p1;
    MatchesWordSpaceThen(b, p2, c + (" " + (kind + rest)));
    var p3 := [Lit(b), NonWords(true)] + p2;
    MatchesWordSpaceThen(a, p3, b + (" " + (c + (" " + (kind + rest)))));
    assert [Lit(a), NonWords(true)] + p3
        == [Lit(a), NonWords(true), Lit(b), NonWords(true), Lit(c), NonWords(true), Lit(kind), RestOfLine];
  }

  /** CREATE\W+OR\W+REPLACE\W+<kind>.* matches "CREATE OR REPLACE <kind>" and the rest of the line. */
  lemma CreateOrReplaceMatches(kind: string, rest: string)
    requires kind != [] && IsWordChar(kind[0]) && NoLineTerminator(rest)
    ensures Matches(CreateOrReplacePattern(kind), "CREATE OR REPLACE " + kind + rest)
  {
    var x := kind + rest;
    MatchesThreeWordsThenKind("CREATE", "OR", "REPLACE", kind, rest);
    CreateOrReplaceText(x);
    assert "CREATE OR REPLACE " + kind + rest == "CREATE OR REPLACE " + x;
  }

  /** "CREATE OR REPLACE <kind> ..." with single spaces, on one line, switches to "/". */
  lemma CreateOrReplaceSwitches(statement: string, line: string, delimiter: string, kind: string, rest: string)
    requires kind == "FUNCTION" || kind == "PROCEDURE" || kind == "PACKAGE"
    requires ToUpperAscii(statement) == "CREATE OR REPLACE " + kind + rest && NoLineTerminator(rest)
    ensures ChangeDelimiterIfNecessary(statement, line, delimiter) == PlsqlDelimiter
  {
    var i := if kind == "FUNCTION" then 3 else if kind == "PROCEDURE" then 4 else 5;
    assert IsWordChar(kind[0]);
    CreateOrReplaceMatches(kind, rest);
    assert BlockStatementPatterns[i] == CreateOrReplacePattern(kind);
  }

  // ---------------------------------------------------------------------------
  // endsWithOpenMultilineStringLiteral and its helpers.
  // ---------------------------------------------------------------------------

  /** The types of tokens relevant for string-literal delimiting. */
  datatype TokenType = QuoteOpen | QuoteClose | QOpen | QClose

  /** A parsed token: its types, and whether only its first applicable type may count. */
  datatype Token = Token(tokenTypes: seq<TokenType>, singleTypeApplicable: bool)

  /** computeQCloseToken: the closing token of a q-quote literal opened by `qOpenToken`. */
  function ComputeQCloseToken(qOpenToken: string): (r: string)
    requires |qOpenToken| >= 3
    ensures |r| == 2 && r[1] == '\''
    ensures r[0] == match qOpenToken[2]
                    case '[' => ']'
                    case '(' => ')'
                    case '{' => '}'
                    case '<' => '>'
                    case c => c
  {
    match qOpenToken[2]
    case '[' => "]'"
    case '(' => ")'"
    case '{' => "}'"
    case '<' => ">'"
    case c => [c, '\'']
  }

  /** The token with its escaped quotes ('') removed. */
  function CleanToken(token: string): string {
    Replace(token, "''", "")
  }

  predicate OpensQLiteral(cleanToken: string) {
    StartsWith(cleanToken, "q'") && |cleanToken| >= 3
  }

  /** The active close token after reading `cleanToken`: reset by every q-literal opener. */
  function NextQCloseToken(cleanToken: string, qCloseToken: string): string {
    if OpensQLiteral(cleanToken) then ComputeQCloseToken(cleanToken[..3]) else qCloseToken
  }

  /** The types of one cleaned token, in the order extractStringLiteralDelimitingTokens adds them. */
  function TypesOf(cleanToken: string, qCloseToken: string): seq<TokenType> {
    (if StartsWith(cleanToken, "'") then [QuoteOpen] else [])
    + (if EndsWith(cleanToken, "'") then [QuoteClose] else [])
    + (if OpensQLiteral(cleanToken) then [QOpen] else [])
    + (if EndsWith(cleanToken, NextQCloseToken(cleanToken, qCloseToken)) then [QClose] else [])
  }

  /** The tokens that may delimit string literals, from `tokens` read with close token `qCloseToken`. */
  function DelimitingTokens(tokens: seq<string>, qCloseToken: string): seq<Token>
    decreases |tokens|
  {
    if tokens == [] then []
    else
      var clean := CleanToken(tokens[0]);
      var types := TypesOf(clean, qCloseToken);
      (if types == [] then [] else [Token(types, |tokens[0]| == 1)])
      + DelimitingTokens(tokens[1..], NextQCloseToken(clean, qCloseToken))
  }

  /** The close token active before any q-literal has been seen. */
  const DefaultQCloseToken: string := "]'"

  /** The body of the classification loop: the types of one cleaned token and the new close token. */
  method ClassifyToken(cleanToken: string, qCloseToken: string) returns (tokenTypes: seq<TokenType>, nextQCloseToken: string)
    ensures tokenTypes == TypesOf(cleanToken, qCloseToken)
    ensures nextQCloseToken == NextQCloseToken(cleanToken, qCloseToken)
  {
    nextQCloseToken := qCloseToken;
    tokenTypes := [];
    if StartsWith(cleanToken, "'") {
      tokenTypes := tokenTypes + [QuoteOpen];
    }
    if EndsWith(cleanToken, "'") {
      tokenTypes := tokenTypes + [QuoteClose];
    }
    if StartsWith(cleanToken, "q'") && |cleanToken| >= 3 {
      var qOpenToken := cleanToken[..3];
      nextQCloseToken := ComputeQCloseToken(qOpenToken);
      tokenTypes := tokenTypes + [QOpen];
    }
    if EndsWith(cleanToken, nextQCloseToken) {
      tokenTypes := tokenTypes + [QClose];
    }
  }

  /** One step of the classification loop: what token `i` adds, before the tokens after it. */
  lemma DelimitingTokensStep(tokens: seq<string>, i: nat, qCloseToken: string, done: seq<Token>, all: seq<Token>)
    requires i < |tokens|
    requires done + DelimitingTokens(tokens[i..], qCloseToken) == all
    ensures var clean := CleanToken(tokens[i]);
      var types := TypesOf(clean, qCloseToken);
      (if types == [] then done else done + [Token(types, |tokens[i]| == 1)])
        + DelimitingTokens(tokens[i + 1..], NextQCloseToken(clean, qCloseToken)) == all
  {
    assert tokens[i..][1..] == tokens[i + 1..];
  }

  /** extractStringLiteralDelimitingTokens: classify each token, dropping those with no type. */
  method ExtractStringLiteralDelimitingTokens(tokens: seq<string>) returns (delimitingTokens: seq<Token>)
    ensures delimitingTokens == DelimitingTokens(tokens, DefaultQCloseToken)
  {
    var qCloseToken := DefaultQCloseToken;
    delimitingTokens := [];
    ghost var all := DelimitingTokens(tokens, qCloseToken);
    assert tokens[0..] == tokens;
    var i := 0;
    while i < |tokens|
      invariant 0 <= i <= |tokens|
      invariant delimitingTokens + DelimitingTokens(tokens[i..], qCloseToken) == all
    {
      var token := tokens[i];
      var cleanToken := CleanToken(token);
      ghost var before := qCloseToken;
      var tokenTypes;
      tokenTypes, qCloseToken := ClassifyToken(cleanToken, qCloseToken);
      DelimitingTokensStep(tokens, i, before, delimitingTokens, all);
      if tokenTypes != [] {
        delimitingTokens := delimitingTokens + [Token(tokenTypes, |token| == 1)];
      }
      i := i + 1;
    }
  }

  /** The two flags of the fold: inside a '...' literal, inside a q'...' literal. */
  datatype LiteralState = LiteralState(insideQuoteStringLiteral: bool, insideQStringLiteral: bool)

  const Outside := LiteralState(false, false)

  predicate IsOpen(st: LiteralState) {
    st.insideQuoteStringLiteral || st.insideQStringLiteral
  }

  /** At most one kind of literal is open. */
  predicate Exclusive(st: LiteralState) {
    !(st.insideQuoteStringLiteral && st.insideQStringLiteral)
  }

  /** One token type applied to the state; the flag says whether later types of the token still apply. */
  function TypeStep(st: LiteralState, tokenType: TokenType, single: bool): (LiteralState, bool) {
    if !st.insideQStringLiteral && !st.insideQuoteStringLiteral && tokenType == QuoteOpen then
      (st.(insideQuoteStringLiteral := true), !single)
    else if st.insideQuoteStringLiteral && tokenType == QuoteClose then
      (st.(insideQuoteStringLiteral := false), false)
    else if !st.insideQStringLiteral && !st.insideQuoteStringLiteral && tokenType == QOpen then
      (st.(insideQStringLiteral := true), true)
    else if st.insideQStringLiteral && tokenType == QClose then
      (st.(insideQStringLiteral := false), false)
    else (st, true)
  }

  /** The types of one token applied in order, until one of them stops the rest. */
  function ApplyTypes(st: LiteralState, types: seq<TokenType>, single: bool): LiteralState
    decreases |types|
  {
    if types == [] then st
    else
      var (next, more) := TypeStep(st, types[0], single);
      if more then ApplyTypes(next, types[1..], single) else next
  }

  function ApplyToken(st: LiteralState, token: Token): LiteralState {
    ApplyTypes(st, token.tokenTypes, token.singleTypeApplicable)
  }

  function FoldTokens(st: LiteralState, tokens: seq<Token>): LiteralState
    decreases |tokens|
  {
    if tokens == [] then st else FoldTokens(ApplyToken(st, tokens[0]), tokens[1..])
  }

  /** The characters tokenizeToStringArray splits at. */
  const TokenDelimiters: set<char> := {' ', ';', '=', '|', '(', ')', ','}

  /** q'( becomes q'[ and )' becomes ]', so that parenthesised q-literals look like bracketed ones. */
  function FilterParensQQuotes(statement: string): string {
    Replace(Replace(statement, "q'(", "q'["), ")'", "]'")
  }

  /** The state of both flags after the whole statement. */
  function LiteralStateAfter(statement: string): LiteralState {
    FoldTokens(Outside, DelimitingTokens(Tokenize(FilterParensQQuotes(statement), TokenDelimiters), DefaultQCloseToken))
  }

  /** endsWithOpenMultilineStringLiteral: does the statement end inside a string literal? */
  method EndsWithOpenMultilineStringLiteral(statement: string) returns (open: bool)
    ensures open == IsOpen(LiteralStateAfter(statement))
  {
    var filtered := Replace(statement, "q'(", "q'[");
    filtered := Replace(filtered, ")'", "]'");
    var tokens := Tokenize(filtered, TokenDelimiters);
    var delimitingTokens := ExtractStringLiteralDelimitingTokens(tokens);
    ghost var final := FoldTokens(Outside, delimitingTokens);

    var insideQuoteStringLiteral := false;
    var insideQStringLiteral := false;
    var k := 0;
    while k < |delimitingTokens|
      invariant 0 <= k <= |delimitingTokens|
      invariant !(insideQuoteStringLiteral && insideQStringLiteral)
      invariant FoldTokens(LiteralState(insideQuoteStringLiteral, insideQStringLiteral), delimitingTokens[k..]) == final
    {
      var delimitingToken := delimitingTokens[k];
      ghost var target := ApplyToken(LiteralState(insideQuoteStringLiteral, insideQStringLiteral), delimitingToken);
      ExclusiveKept(LiteralState(insideQuoteStringLiteral, insideQStringLiteral), delimitingToken.tokenTypes, delimitingToken.singleTypeApplicable);
      var types := delimitingToken.tokenTypes;
      var moreTokensApplicable := true;
      var j := 0;
      while j < |types|
        invariant 0 <= j <= |types|
        invariant moreTokensApplicable ==>
          ApplyTypes(LiteralState(insideQuoteStringLiteral, insideQStringLiteral), types[j..], delimitingToken.singleTypeApplicable) == target
        invariant !moreTokensApplicable ==> LiteralState(insideQuoteStringLiteral, insideQStringLiteral) == target
      {
        var tokenType := types[j];
        assert types[j..][1..] == types[j + 1..];
        if moreTokensApplicable {
          if !insideQStringLiteral && !insideQuoteStringLiteral && tokenType == QuoteOpen {
            insideQuoteStringLiteral := true;
            if delimitingToken.singleTypeApplicable {
              moreTokensApplicable := false;
            }
          } else if insideQuoteStringLiteral && tokenType == QuoteClose {
            insideQuoteStringLiteral := false;
            moreTokensApplicable := false;
          } else if !insideQStringLiteral && !insideQuoteStringLiteral && tokenType == QOpen {
            insideQStringLiteral := true;
          } else if insideQStringLiteral && tokenType == QClose {
            insideQStringLiteral := false;
            moreTokensApplicable := false;
          }
        }
        j := j + 1;
      }
      assert delimitingTokens[k..][1..] == delimitingTokens[k + 1..];
      k := k + 1;
    }
    open := insideQuoteStringLiteral || insideQStringLiteral;
  }

  // ---------------------------------------------------------------------------
  // Properties of the literal detection.
  // ---------------------------------------------------------------------------

  /** Applying a token never opens a second kind of literal over the first. */
  lemma {:induction false} ExclusiveKept(st: LiteralState, types: seq<TokenType>, single: bool)
    requires Exclusive(st)
    ensures Exclusive(ApplyTypes(st, types, single))
    decreases |types|
  {
    if types != [] {
      var (next, more) := TypeStep(st, types[0], single);
      if more { ExclusiveKept(next, types[1..], single); }
    }
  }

  /** Throughout the fold the two flags are never both set. */
  lemma {:induction false} FoldKeepsExclusive(st: LiteralState, tokens: seq<Token>)
    requires Exclusive(st)
    ensures Exclusive(FoldTokens(st, tokens))
    decreases |tokens|
  {
    if tokens != [] {
      ExclusiveKept(st, tokens[0].tokenTypes, tokens[0].singleTypeApplicable);
      FoldKeepsExclusive(ApplyToken(st, tokens[0]), tokens[1..]);
    }
  }

  lemma LiteralStateAfterExclusive(statement: string)
    ensures Exclusive(LiteralStateAfter(statement))
  {
    FoldKeepsExclusive(Outside, DelimitingTokens(Tokenize(FilterParensQQuotes(statement), TokenDelimiters), DefaultQCloseToken));
  }

  /** A token without a quote character has no type, whatever the active close token. */
  lemma NoQuoteNoTypes(cleanToken: string, qCloseToken: string)
    requires '\'' !in cleanToken
    requires |qCloseToken| == 2 && qCloseToken[1] == '\''
    ensures TypesOf(cleanToken, qCloseToken) == []
  {
    var c := cleanToken;
    assert |c| >= 1 ==> c[..1][0] == c[0] && c[|c| - 1..][0] == c[|c| - 1];
    assert |c| >= 2 ==> c[..2][1] == c[1] && c[|c| - 2..][1] == c[|c| - 1];
  }

  lemma {:induction false} NoQuoteNoDelimitingTokens(tokens: seq<string>, qCloseToken: string)
    requires forall i :: 0 <= i < |tokens| ==> '\'' !in tokens[i]
    requires |qCloseToken| == 2 && qCloseToken[1] == '\''
    ensures DelimitingTokens(tokens, qCloseToken) == []
    decreases |tokens|
  {
    if tokens != [] {
      var clean := CleanToken(tokens[0]);
      if '\'' in clean { ReplaceByEmptyKeepsChars(tokens[0], "''", '\''); }
      NoQuoteNoTypes(clean, qCloseToken);
      NoQuoteNoDelimitingTokens(tokens[1..], NextQCloseToken(clean, qCloseToken));
    }
  }

  /** A statement containing no quote character never ends inside a literal. */
  lemma NoQuoteNotOpen(statement: string)
    requires '\'' !in statement
    ensures !IsOpen(LiteralStateAfter(statement))
  {
    ReplaceWithoutPatternChar(statement, "q'(", "q'[", '\'');
    ReplaceWithoutPatternChar(statement, ")'", "]'", '\'');
    var tokens := Tokenize(FilterParensQQuotes(statement), TokenDelimiters);
    forall i | 0 <= i < |tokens| ensures '\'' !in tokens[i] {
      forall j | 0 <= j < |tokens[i]| ensures tokens[i][j] != '\'' {
        assert tokens[i][j] in FilterParensQQuotes(statement);
      }
    }
    NoQuoteNoDelimitingTokens(tokens, DefaultQCloseToken);
  }

  /** A lone ' opens a literal from outside and closes an open '...' literal. */
  lemma LoneQuoteToken(qCloseToken: string)
    requires |qCloseToken| == 2 && qCloseToken[1] == '\''
    ensures CleanToken("'") == "'"
    ensures ApplyToken(Outside, Token(TypesOf("'", qCloseToken), true)) == LiteralState(true, false)
    ensures ApplyToken(LiteralState(true, false), Token(TypesOf("'", qCloseToken), true)) == Outside
  {
    var types := TypesOf("'", qCloseToken);
    assert types == [QuoteOpen, QuoteClose];
    assert types[1..] == [QuoteClose];
    assert ApplyTypes(LiteralState(true, false), types[1..], true) == Outside;
  }

  lemma {:induction false} ReplaceNoOccurrence(s: string, from: string, to: string)
    requires forall i: nat :: !OccursAt(s, from, i)
    ensures Replace(s, from, to) == s
    decreases |s|
  {
    if |from| == 0 || |s| < |from| {
    } else {
      assert !OccursAt(s, from, 0);
      assert s[..|from|] != from;
      forall i: nat ensures !OccursAt(s[1..], from, i) {
        assert !OccursAt(s, from, i + 1);
        if i + |from| <= |s[1..]| { assert s[1..][i..i + |from|] == s[i + 1..i + 1 + |from|]; }
      }
      ReplaceNoOccurrence(s[1..], from, to);
      assert s == [s[0]] + s[1..];
    }
  }

  /** A token with no two quotes side by side is not changed by cleaning. */
  lemma NoAdjacentQuotes(t: string)
    requires forall i :: 0 <= i < |t| - 1 ==> !(t[i] == '\'' && t[i + 1] == '\'')
    ensures CleanToken(t) == t
  {
    forall i: nat ensures !OccursAt(t, "''", i) {
      if i + 2 <= |t| { assert t[i..i + 2][0] == t[i] && t[i..i + 2][1] == t[i + 1]; }
    }
    ReplaceNoOccurrence(t, "''", "");
  }

  /** Starting outside, a standard-quoted token such as 'abc' opens and closes: it ends outside. */
  lemma QuotedTokenEndsOutside(t: string, qCloseToken: string)
    requires |t| >= 3 && t[0] == '\'' && t[|t| - 1] == '\''
    requires forall i :: 0 < i < |t| - 1 ==> t[i] != '\''
    requires |qCloseToken| == 2 && qCloseToken[1] == '\''
    ensures DelimitingTokens([t], qCloseToken) == [Token(TypesOf(t, qCloseToken), false)]
    ensures FoldTokens(Outside, DelimitingTokens([t], qCloseToken)) == Outside
  {
    NoAdjacentQuotes(t);
    assert StartsWith(t, "'") && EndsWith(t, "'");
    assert !OpensQLiteral(t);
    var types := TypesOf(t, qCloseToken);
    assert types[..2] == [QuoteOpen, QuoteClose];
    assert types[0] == QuoteOpen && types[1] == QuoteClose;
    assert ApplyTypes(LiteralState(true, false), types[1..], false) == Outside;
  }

  /** The q-literal token is left as it is by cleaning, and is a close quote, a q-opener and a q-closer. */
  lemma QLiteralTokenTypes(opener: char, w: string, qCloseToken: string)
    requires opener != '\'' && '\'' !in w
    requires |qCloseToken| == 2 && qCloseToken[1] == '\''
    ensures var t := "q'" + [opener] + w + ComputeQCloseToken("q'" + [opener]);
      CleanToken(t) == t && |t| >= 5
      && TypesOf(t, qCloseToken) == [QuoteClose, QOpen, QClose]
      && NextQCloseToken(t, qCloseToken) == ComputeQCloseToken("q'" + [opener])
  {
    var open := "q'" + [opener];
    var close := ComputeQCloseToken(open);
    var t := open + w + close;
    assert close[0] != '\'';
    QLiteralQuotes(open, w, close, t);
    NoAdjacentQuotes(t);
    assert t[..3] == open && t[..2] == "q'" && t[..1] == "q";
    assert t[|t| - 2..] == close;
    assert t[|t| - 1..] == "'";
  }

  /** Outside any literal, the types close-quote, q-open, q-close leave the state outside. */
  lemma QLiteralTypesEndOutside()
    ensures ApplyTypes(Outside, [QuoteClose, QOpen, QClose], false) == Outside
  {
    var types := [QuoteClose, QOpen, QClose];
    var inQ := LiteralState(false, true);
    assert types[1..] == [QOpen, QClose] && types[1..][1..] == [QClose];
    assert TypeStep(inQ, QClose, false) == (Outside, false);
    assert ApplyTypes(inQ, types[1..][1..], false) == Outside;
    assert TypeStep(Outside, QOpen, false) == (inQ, true);
    assert ApplyTypes(Outside, types[1..], false) == Outside;
    assert TypeStep(Outside, QuoteClose, false) == (Outside, true);
  }

  /** Starting outside, a q-literal written as one token, such as q'[abc]', ends outside. */
  lemma QLiteralTokenEndsOutside(opener: char, w: string, qCloseToken: string)
    requires opener != '\'' && '\'' !in w
    requires |qCloseToken| == 2 && qCloseToken[1] == '\''
    ensures var t := "q'" + [opener] + w + ComputeQCloseToken("q'" + [opener]);
      FoldTokens(Outside, DelimitingTokens([t], qCloseToken)) == Outside
  {
    var t := "q'" + [opener] + w + ComputeQCloseToken("q'" + [opener]);
    QLiteralTokenTypes(opener, w, qCloseToken);
    QLiteralTypesEndOutside();
    var token := Token([QuoteClose, QOpen, QClose], false);
    assert [t][1..] == [];
    assert DelimitingTokens([t], qCloseToken) == [token];
    assert FoldTokens(Outside, [token]) == FoldTokens(ApplyToken(Outside, token), [token][1..]);
  }

  lemma QLiteralQuotes(open: string, w: string, close: string, t: string)
    requires |open| == 3 && open[0] == 'q' && open[1] == '\'' && open[2] != '\''
    requires '\'' !in w && |close| == 2 && close[0] != '\'' && close[1] == '\''
    requires t == open + w + close
    ensures forall i :: 0 <= i < |t| - 1 ==> !(t[i] == '\'' && t[i + 1] == '\'')
  {
    forall i | 0 <= i < |t| ensures t[i] == '\'' ==> i == 1 || i == |t| - 1 {
      if i < 3 { assert t[i] == open[i]; }
      else if i < 3 + |w| { assert t[i] == w[i - 3]; }
      else { assert t[i] == close[i - 3 - |w|]; }
    }
  }
}
