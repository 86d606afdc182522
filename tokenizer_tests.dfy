/**
 * The unit tests of src/scripting/tokenizing/tokenizer.rs, proved.  Each
 * character is located by its index, as the tests do.  The tests run with
 * the standard library's `is_alphanumeric`; here it is any predicate that
 * agrees with ASCII letters and digits on ASCII characters.
 */
module TokenizerTests {
  import opened Wrappers
  import Regexes
  import opened Automaton
  import opened Tokens
  import opened Tokenizer

  predicate IsAsciiAlphanumeric(c: char)
  {
    'a' <= c <= 'z' || 'A' <= c <= 'Z' || '0' <= c <= '9'
  }

  ghost predicate AgreesOnAscii(isAlphanumeric: char -> bool)
  {
    forall c: char :: c as int < 128 ==> (isAlphanumeric(c) <==> IsAsciiAlphanumeric(c))
  }

  /** Every character paired with its index. */
  function Located(s: string): (xs: seq<(char, int)>)
    ensures |xs| == |s| && forall i :: 0 <= i < |s| ==> xs[i] == (s[i], i)
  {
    seq(|s|, i requires 0 <= i < |s| => (s[i], i))
  }

  /** A character that ends every token it follows. */
  predicate Separator(isAlphanumeric: char -> bool, c: char)
  {
    !IsIdentifierChar(isAlphanumeric, c) && !('0' <= c <= '9') && c != '-' && c != '.'
  }

  /** The separators the tests use. */
  predicate Separators(isAlphanumeric: char -> bool)
  {
    Separator(isAlphanumeric, ' ') && Separator(isAlphanumeric, '(') && Separator(isAlphanumeric, ')')
  }

  lemma SeparatorExamples(isAlphanumeric: char -> bool)
    requires AgreesOnAscii(isAlphanumeric)
    ensures Separators(isAlphanumeric)
  {
    assert !isAlphanumeric(' ') && !isAlphanumeric('(') && !isAlphanumeric(')');
    assert ' ' !in IdentifierSymbols && '(' !in IdentifierSymbols && ')' !in IdentifierSymbols;
  }

  /** What the tests need to know of the rules: their languages, tags and well-formedness. */
  ghost predicate Languages(rules: seq<Rule<TokenType>>, isAlphanumeric: char -> bool)
  {
    && |rules| == 5
    && rules[0].1 == TokenType.LeftParenthesis && rules[1].1 == TokenType.RightParenthesis
    && rules[2].1 == TokenType.Integer && rules[3].1 == TokenType.FloatingPointNumber
    && rules[4].1 == TokenType.Identifier
    && (forall t {:trigger Regexes.Matches(rules[0].0, t)} :: Regexes.Matches(rules[0].0, t) <==> t == "(")
    && (forall t {:trigger Regexes.Matches(rules[1].0, t)} :: Regexes.Matches(rules[1].0, t) <==> t == ")")
    && (forall t {:trigger Regexes.Matches(rules[2].0, t)} :: Regexes.Matches(rules[2].0, t) <==> Regexes.IsIntegerText(t, 10))
    && (forall t {:trigger Regexes.Matches(rules[3].0, t)} :: Regexes.Matches(rules[3].0, t) <==> Regexes.IsFloatText(t))
    && (forall t {:trigger Regexes.Matches(rules[4].0, t)} :: Regexes.Matches(rules[4].0, t) <==> IsIdentifierText(isAlphanumeric, t))
  }

  /** What every test knows of the tokenizer's rules. */
  ghost predicate TestRules(rules: seq<Rule<TokenType>>, isAlphanumeric: char -> bool)
  {
    Separators(isAlphanumeric) && Languages(rules, isAlphanumeric) && RulesWellFormed(rules)
  }

  lemma TokenRulesLanguages(isAlphanumeric: char -> bool)
    requires isAlphanumeric('a')
    ensures Languages(TokenRules(isAlphanumeric), isAlphanumeric) && RulesWellFormed(TokenRules(isAlphanumeric))
  {
    TokenRulesWellFormed(isAlphanumeric);
    forall t {
      TokenRulesLanguage(isAlphanumeric, t);
    }
  }

  lemma NotIntegerText(t: string, j: nat)
    requires j < |t| && !Regexes.IsDigit(t[j], 10) && t[j] != '-'
    ensures !Regexes.IsIntegerText(t, 10)
  {
    if |t| >= 2 && t[0] == '-' {
      assert t[1..][j - 1] == t[j];
    }
  }

  lemma NotFloatText(t: string, j: nat)
    requires j < |t| && !Regexes.IsDigit(t[j], 10) && t[j] != '-' && t[j] != '.'
    ensures !Regexes.IsFloatText(t)
  {
    if Regexes.IsFloatText(t) {
      var k :| 0 <= k < |t| - 1 && Regexes.IsIntegerText(t[..k], 10) && t[k] == '.' && Regexes.AllDigits(t[k + 1..], 10);
      if j < k {
        assert t[..k][j] == t[j];
        NotIntegerText(t[..k], j);
      }
    }
  }

  /** A string of two or more characters with a separator in it can be matched by no rule. */
  lemma SeparatorDead(rules: seq<Rule<TokenType>>, isAlphanumeric: char -> bool, w: string, j: nat)
    requires Languages(rules, isAlphanumeric)
    requires |w| >= 2 && j < |w| && Separator(isAlphanumeric, w[j])
    ensures !Alive(rules, w)
  {
    forall i, s | 0 <= i < |rules| ensures !Regexes.Matches(rules[i].0, w + s) {
      var t := w + s;
      assert t[j] == w[j];
      assert !Regexes.IsDigit(t[j], 10);
      if i == 2 {
        NotIntegerText(t, j);
      } else if i == 3 {
        NotFloatText(t, j);
      } else if i == 4 {
        assert !IsIdentifierChar(isAlphanumeric, t[j]);
      }
    }
  }

  /**
   * The shape of the input around a token in `s[b..e]`: whitespace from
   * `a` up to it, a non-whitespace first character, and a separator or
   * the end of the input after it.
   */
  predicate TokenAt(isAlphanumeric: char -> bool, s: string, a: nat, b: nat, e: nat)
  {
    && a <= b < e <= |s| && !IsWhitespace(s[b])
    && (forall i :: a <= i < b ==> IsWhitespace(s[i]))
    && (e < |s| ==> Separator(isAlphanumeric, s[e]))
  }

  /** `s[b..e]` is the text of the integer `v`. */
  predicate IntegerToken(s: string, b: nat, e: nat, v: int)
  {
    b <= e <= |s| && Regexes.IsIntegerText(s[b..e], 10) && ParseI64(s[b..e]) == Some(v)
  }

  /** `s[b..e]` is the text of the floating point number `x`. */
  predicate FloatToken(parseFloat: string -> Option<real>, s: string, b: nat, e: nat, x: real)
  {
    b <= e <= |s| && Regexes.IsFloatText(s[b..e]) && '.' in s[b..e] && parseFloat(s[b..e]) == Some(x)
  }

  /** `s[b..e]` is an identifier and no number. */
  predicate IdentifierToken(isAlphanumeric: char -> bool, s: string, b: nat, e: nat)
  {
    && b <= e <= |s| && IsIdentifierText(isAlphanumeric, s[b..e])
    && !Regexes.IsIntegerText(s[b..e], 10) && '.' !in s[b..e]
  }

  lemma DropWhitespaceLocated(s: string, a: nat, b: nat)
    requires a <= b < |s| && !IsWhitespace(s[b])
    requires forall i :: a <= i < b ==> IsWhitespace(s[i])
    ensures DropWhitespace(Located(s)[a..]) == Located(s)[b..]
    decreases b - a
  {
    if a < b {
      assert Located(s)[a..][1..] == Located(s)[a + 1..];
      DropWhitespaceLocated(s, a + 1, b);
    }
  }

  lemma CharsLocated(s: string, a: nat, b: nat)
    requires a <= b <= |s|
    ensures Chars(Located(s)[a..b]) == s[a..b]
  {
  }

  /**
   * The token in `s[b..e]`, after whitespace in `s[a..b]`, ending at the
   * end of the input or before a separator.
   */
  lemma TokenStep(rules: seq<Rule<TokenType>>, parseFloat: string -> Option<real>, s: string, a: nat, b: nat, e: nat)
    requires RulesWellFormed(rules)
    requires a <= b < e <= |s| && !IsWhitespace(s[b])
    requires forall i :: a <= i < b ==> IsWhitespace(s[i])
    requires Alive(rules, s[b..e])
    requires e < |s| ==> !Alive(rules, s[b..e + 1])
    ensures NextTokenSpec(rules, Located(s)[a..], parseFloat)
            == Step(Conclude(FirstMatching(rules, s[b..e]), s[b..e], b, e - 1, parseFloat), Located(s)[e..])
  {
    DropWhitespaceLocated(s, a, b);
    LocatedToken(s, b, e);
    NextTokenLongestPrefix(rules, Located(s)[a..], parseFloat, e - b);
  }

  /** How the located input looks around a token in `s[b..e]`. */
  lemma LocatedToken(s: string, b: nat, e: nat)
    requires b < e <= |s|
    ensures var t := Located(s)[b..];
            && Chars(t[..e - b]) == s[b..e]
            && (e < |s| ==> Chars(t[..e - b + 1]) == s[b..e + 1])
            && t[e - b..] == Located(s)[e..]
            && t[0].1 == b && t[e - b - 1].1 == e - 1
  {
    var t := Located(s)[b..];
    var len := e - b;
    assert t[..len] == Located(s)[b..e];
    CharsLocated(s, b, e);
    if e < |s| {
      assert t[..len + 1] == Located(s)[b..e + 1];
      CharsLocated(s, b, e + 1);
    }
    assert t[len..] == Located(s)[e..];
  }

  /** Only whitespace left: the tokenizer reports the end of the input. */
  lemma EndStep(s: string, a: nat, parseFloat: string -> Option<real>, rules: seq<Rule<TokenType>>)
    requires a <= |s| && forall i :: a <= i < |s| ==> IsWhitespace(s[i])
    ensures NextTokenSpec(rules, Located(s)[a..], parseFloat).result == Ok(None)
  {
    var xs := Located(s)[a..];
    assert forall i :: 0 <= i < |xs| ==> xs[i].0 == s[a + i];
    NextTokenSpecEnd(rules, xs, parseFloat);
  }

  // ---------------------------------------------------------------------
  // Which rule wins

  lemma LeftParenthesisWins(rules: seq<Rule<TokenType>>, isAlphanumeric: char -> bool)
    requires Languages(rules, isAlphanumeric) && Separators(isAlphanumeric)
    ensures FirstMatching(rules, "(") == Some(TokenType.LeftParenthesis)
    ensures Alive(rules, "(")
  {
    assert "(" + [] == "(";
    assert Regexes.Matches(rules[0].0, "(" + []);
  }

  lemma RightParenthesisWins(rules: seq<Rule<TokenType>>, isAlphanumeric: char -> bool)
    requires Languages(rules, isAlphanumeric) && Separators(isAlphanumeric)
    ensures FirstMatching(rules, ")") == Some(TokenType.RightParenthesis)
    ensures Alive(rules, ")")
  {
    assert ")" + [] == ")";
    assert Regexes.Matches(rules[1].0, ")" + []);
    assert rules[1..][0] == rules[1];
  }

  // ---------------------------------------------------------------------
  // The tests

  /** `parentheses_with_whitespace`: " ( ) " gives '(' at 1, ')' at 3, then the end. */
  method ParenthesesWithWhitespace(isAlphanumeric: char -> bool, parseFloat: string -> Option<real>)
    returns (results: seq<Result<Option<(Token, int, int)>, TokenizingError>>)
    requires AgreesOnAscii(isAlphanumeric)
    ensures results == [Ok(Some((Token.LeftParenthesis, 1, 1))), Ok(Some((Token.RightParenthesis, 3, 3))), Ok(None)]
  {
    var s := " ( ) ";
    var tokenizer := new Tokenizer(Located(s), isAlphanumeric, parseFloat);
    assert isAlphanumeric('a');
    SeparatorExamples(isAlphanumeric);
    TokenRulesLanguages(isAlphanumeric);
    results := ParenthesesRun(tokenizer, s);
  }

  /** The three calls of `parentheses_with_whitespace`, knowing the rules only by their languages. */
  method ParenthesesRun(tokenizer: Tokenizer<int>, s: string) returns (results: seq<Result<Option<(Token, int, int)>, TokenizingError>>)
    requires tokenizer.Valid() && s == " ( ) " && tokenizer.input.Remaining() == Located(s)
    requires TestRules(tokenizer.rules, tokenizer.isAlphanumeric)
    modifies tokenizer.automaton, tokenizer.input
    ensures results == [Ok(Some((Token.LeftParenthesis, 1, 1))), Ok(Some((Token.RightParenthesis, 3, 3))), Ok(None)]
  {
    var r1 := tokenizer.NextToken();
    ParenthesesFirst(tokenizer.rules, tokenizer.isAlphanumeric, tokenizer.parseFloat, s);
    var r2 := tokenizer.NextToken();
    ParenthesesSecond(tokenizer.rules, tokenizer.isAlphanumeric, tokenizer.parseFloat, s);
    var r3 := tokenizer.NextToken();
    ParenthesesEnd(tokenizer.rules, tokenizer.parseFloat, s);
    results := [r1, r2, r3];
  }

  lemma ParenthesesEnd(rules: seq<Rule<TokenType>>, parseFloat: string -> Option<real>, s: string)
    requires s == " ( ) "
    ensures NextTokenSpec(rules, Located(s)[4..], parseFloat).result == Ok(None)
  {
    EndStep(s, 4, parseFloat, rules);
  }

  lemma ParenthesesFirst(rules: seq<Rule<TokenType>>, isAlphanumeric: char -> bool, parseFloat: string -> Option<real>, s: string)
    requires TestRules(rules, isAlphanumeric) && s == " ( ) "
    ensures NextTokenSpec(rules, Located(s), parseFloat) == Step(Ok(Some((Token.LeftParenthesis, 1, 1))), Located(s)[2..])
  {
    assert Located(s)[0..] == Located(s);
    LeftParenthesisStep(rules, isAlphanumeric, parseFloat, s, 0, 1);
  }

  lemma ParenthesesSecond(rules: seq<Rule<TokenType>>, isAlphanumeric: char -> bool, parseFloat: string -> Option<real>, s: string)
    requires TestRules(rules, isAlphanumeric) && s == " ( ) "
    ensures NextTokenSpec(rules, Located(s)[2..], parseFloat) == Step(Ok(Some((Token.RightParenthesis, 3, 3))), Located(s)[4..])
  {
    RightParenthesisStep(rules, isAlphanumeric, parseFloat, s, 2, 3);
  }

  /** A '(' at `b`, after whitespace from `a`, followed by a separator or the end. */
  lemma LeftParenthesisStep(rules: seq<Rule<TokenType>>, isAlphanumeric: char -> bool, parseFloat: string -> Option<real>,
                            s: string, a: nat, b: nat)
    requires RulesWellFormed(rules)
    requires Languages(rules, isAlphanumeric) && Separators(isAlphanumeric)
    requires a <= b < |s| && s[b] == '(' && forall i :: a <= i < b ==> IsWhitespace(s[i])
    ensures NextTokenSpec(rules, Located(s)[a..], parseFloat) == Step(Ok(Some((Token.LeftParenthesis, b, b))), Located(s)[b + 1..])
  {
    assert s[b..b + 1] == "(";
    LeftParenthesisWins(rules, isAlphanumeric);
    if b + 1 < |s| {
      SeparatorDead(rules, isAlphanumeric, s[b..b + 2], 0);
    }
    TokenStep(rules, parseFloat, s, a, b, b + 1);
  }

  /** A ')' at `b`, after whitespace from `a`, followed by a separator or the end. */
  lemma RightParenthesisStep(rules: seq<Rule<TokenType>>, isAlphanumeric: char -> bool, parseFloat: string -> Option<real>,
                             s: string, a: nat, b: nat)
    requires RulesWellFormed(rules)
    requires Languages(rules, isAlphanumeric) && Separators(isAlphanumeric)
    requires a <= b < |s| && s[b] == ')' && forall i :: a <= i < b ==> IsWhitespace(s[i])
    ensures NextTokenSpec(rules, Located(s)[a..], parseFloat) == Step(Ok(Some((Token.RightParenthesis, b, b))), Located(s)[b + 1..])
  {
    assert s[b..b + 1] == ")";
    RightParenthesisWins(rules, isAlphanumeric);
    if b + 1 < |s| {
      SeparatorDead(rules, isAlphanumeric, s[b..b + 2], 0);
    }
    TokenStep(rules, parseFloat, s, a, b, b + 1);
  }

  /** The first rule matching `t` is rule `k`. */
  lemma {:induction false} FirstMatchingAt<T>(rules: seq<Rule<T>>, t: string, k: nat)
    requires k < |rules| && Regexes.Matches(rules[k].0, t)
    requires forall j :: 0 <= j < k ==> !Regexes.Matches(rules[j].0, t)
    ensures FirstMatching(rules, t) == Some(rules[k].1)
    ensures Alive(rules, t)
    decreases k
  {
    assert t + [] == t;
    assert Regexes.Matches(rules[k].0, t + []);
    if k > 0 {
      assert forall j :: 0 <= j < k - 1 ==> rules[1..][j] == rules[j + 1];
      FirstMatchingAt(rules[1..], t, k - 1);
    }
  }

  lemma FloatTextHasPoint(t: string)
    ensures Regexes.IsFloatText(t) ==> '.' in t
  {
    if Regexes.IsFloatText(t) {
      var k :| 0 <= k < |t| - 1 && t[k] == '.';
    }
  }

  lemma IntegerWins(rules: seq<Rule<TokenType>>, isAlphanumeric: char -> bool, t: string)
    requires Languages(rules, isAlphanumeric) && Regexes.IsIntegerText(t, 10)
    ensures FirstMatching(rules, t) == Some(TokenType.Integer)
    ensures Alive(rules, t)
  {
    assert t[0] != '(' && t[0] != ')';
    assert !Regexes.Matches(rules[0].0, t) && !Regexes.Matches(rules[1].0, t);
    FirstMatchingAt(rules, t, 2);
  }

  lemma FloatWins(rules: seq<Rule<TokenType>>, isAlphanumeric: char -> bool, t: string)
    requires Languages(rules, isAlphanumeric) && Regexes.IsFloatText(t) && '.' in t
    ensures FirstMatching(rules, t) == Some(TokenType.FloatingPointNumber)
    ensures Alive(rules, t)
  {
    var k :| 0 <= k < |t| - 1 && Regexes.IsIntegerText(t[..k], 10) && t[k] == '.' && Regexes.AllDigits(t[k + 1..], 10);
    NotIntegerText(t, k);
    assert |t| >= 3 by {
      assert |t[..k]| >= 1;
    }
    assert t != "(" && t != ")";
    assert !Regexes.Matches(rules[0].0, t) && !Regexes.Matches(rules[1].0, t) && !Regexes.Matches(rules[2].0, t);
    FirstMatchingAt(rules, t, 3);
  }

  lemma IdentifierWins(rules: seq<Rule<TokenType>>, isAlphanumeric: char -> bool, t: string)
    requires Languages(rules, isAlphanumeric) && Separators(isAlphanumeric)
    requires IsIdentifierText(isAlphanumeric, t)
    requires !Regexes.IsIntegerText(t, 10) && '.' !in t
    ensures FirstMatching(rules, t) == Some(TokenType.Identifier)
    ensures Alive(rules, t)
  {
    assert t[0] != '(' && t[0] != ')';
    FloatTextHasPoint(t);
    assert !Regexes.Matches(rules[0].0, t) && !Regexes.Matches(rules[1].0, t);
    assert !Regexes.Matches(rules[2].0, t) && !Regexes.Matches(rules[3].0, t);
    FirstMatchingAt(rules, t, 4);
  }

  /** An integer in `s[b..e]`, after whitespace from `a`, followed by a separator or the end. */
  lemma IntegerStep(rules: seq<Rule<TokenType>>, isAlphanumeric: char -> bool, parseFloat: string -> Option<real>,
                    s: string, a: nat, b: nat, e: nat, v: int)
    requires TestRules(rules, isAlphanumeric) && TokenAt(isAlphanumeric, s, a, b, e)
    requires IntegerToken(s, b, e, v)
    ensures NextTokenSpec(rules, Located(s)[a..], parseFloat) == Step(Ok(Some((Token.Integer(v), b, e - 1))), Located(s)[e..])
  {
    IntegerWins(rules, isAlphanumeric, s[b..e]);
    if e < |s| {
      assert s[b..e + 1][e - b] == s[e];
      SeparatorDead(rules, isAlphanumeric, s[b..e + 1], e - b);
    }
    TokenStep(rules, parseFloat, s, a, b, e);
  }

  /** A floating point number in `s[b..e]`, after whitespace from `a`, followed by a separator or the end. */
  lemma FloatStep(rules: seq<Rule<TokenType>>, isAlphanumeric: char -> bool, parseFloat: string -> Option<real>,
                  s: string, a: nat, b: nat, e: nat, x: real)
    requires TestRules(rules, isAlphanumeric) && TokenAt(isAlphanumeric, s, a, b, e)
    requires FloatToken(parseFloat, s, b, e, x)
    ensures NextTokenSpec(rules, Located(s)[a..], parseFloat) == Step(Ok(Some((Token.FloatingPointNumber(x), b, e - 1))), Located(s)[e..])
  {
    FloatWins(rules, isAlphanumeric, s[b..e]);
    if e < |s| {
      assert s[b..e + 1][e - b] == s[e];
      SeparatorDead(rules, isAlphanumeric, s[b..e + 1], e - b);
    }
    TokenStep(rules, parseFloat, s, a, b, e);
  }

  /** An identifier in `s[b..e]`, after whitespace from `a`, followed by a separator or the end. */
  lemma IdentifierStep(rules: seq<Rule<TokenType>>, isAlphanumeric: char -> bool, parseFloat: string -> Option<real>,
                       s: string, a: nat, b: nat, e: nat)
    requires TestRules(rules, isAlphanumeric) && TokenAt(isAlphanumeric, s, a, b, e)
    requires IdentifierToken(isAlphanumeric, s, b, e)
    ensures NextTokenSpec(rules, Located(s)[a..], parseFloat) == Step(Ok(Some((Token.Identifier(s[b..e]), b, e - 1))), Located(s)[e..])
  {
    IdentifierWins(rules, isAlphanumeric, s[b..e]);
    if e < |s| {
      assert s[b..e + 1][e - b] == s[e];
      SeparatorDead(rules, isAlphanumeric, s[b..e + 1], e - b);
    }
    TokenStep(rules, parseFloat, s, a, b, e);
  }

  /** `integers`: "1 23 456 -10" gives four integers with their spans, then the end. */
  method Integers(isAlphanumeric: char -> bool, parseFloat: string -> Option<real>)
    returns (results: seq<Result<Option<(Token, int, int)>, TokenizingError>>)
    requires AgreesOnAscii(isAlphanumeric)
    ensures results == [Ok(Some((Token.Integer(1), 0, 0))), Ok(Some((Token.Integer(23), 2, 3))),
                        Ok(Some((Token.Integer(456), 5, 7))), Ok(Some((Token.Integer(-10), 9, 11))), Ok(None)]
  {
    var s := "1 23 456 -10";
    var tokenizer := new Tokenizer(Located(s), isAlphanumeric, parseFloat);
    assert isAlphanumeric('a');
    SeparatorExamples(isAlphanumeric);
    TokenRulesLanguages(isAlphanumeric);
    results := IntegersRun(tokenizer, s);
  }

  method IntegersRun(tokenizer: Tokenizer<int>, s: string) returns (results: seq<Result<Option<(Token, int, int)>, TokenizingError>>)
    requires tokenizer.Valid() && s == "1 23 456 -10" && tokenizer.input.Remaining() == Located(s)
    requires TestRules(tokenizer.rules, tokenizer.isAlphanumeric)
    modifies tokenizer.automaton, tokenizer.input
    ensures results == [Ok(Some((Token.Integer(1), 0, 0))), Ok(Some((Token.Integer(23), 2, 3))),
                        Ok(Some((Token.Integer(456), 5, 7))), Ok(Some((Token.Integer(-10), 9, 11))), Ok(None)]
  {
    ghost var rules, q, pf := tokenizer.rules, tokenizer.isAlphanumeric, tokenizer.parseFloat;
    var r1 := tokenizer.NextToken();
    IntegersFirst(rules, q, pf, s);
    var r2 := tokenizer.NextToken();
    IntegersSecond(rules, q, pf, s);
    var r3 := tokenizer.NextToken();
    IntegersThird(rules, q, pf, s);
    var r4 := tokenizer.NextToken();
    IntegersFourth(rules, q, pf, s);
    var r5 := tokenizer.NextToken();
    EndStep(s, 12, pf, rules);
    results := [r1, r2, r3, r4, r5];
  }

  /** Where the tokens of "1 23 456 -10" are, and their values. */
  ghost predicate IntegersInput(q: char -> bool, s: string)
  {
    && |s| == 12 && Located(s)[0..] == Located(s)
    && TokenAt(q, s, 0, 0, 1) && TokenAt(q, s, 1, 2, 4) && TokenAt(q, s, 4, 5, 8) && TokenAt(q, s, 8, 9, 12)
    && IntegerToken(s, 0, 1, 1) && IntegerToken(s, 2, 4, 23) && IntegerToken(s, 5, 8, 456) && IntegerToken(s, 9, 12, -10)
  }

  lemma IntegersText(q: char -> bool, s: string)
    requires Separators(q) && s == "1 23 456 -10"
    ensures IntegersInput(q, s)
  {
    IntegersSlices(s);
    IntegerLiterals();
    ParseExamples();
  }

  lemma IntegersSlices(s: string)
    requires s == "1 23 456 -10"
    ensures s[0..1] == "1" && s[2..4] == "23" && s[5..8] == "456" && s[9..12] == "-10"
  {
  }

  /** The tokens of "1 23 456 -10" are integer text. */
  lemma IntegerLiterals()
    ensures Regexes.IsIntegerText("1", 10) && Regexes.IsIntegerText("23", 10)
    ensures Regexes.IsIntegerText("456", 10) && Regexes.IsIntegerText("-10", 10)
  {
    assert "-10"[1..] == "10";
  }

  lemma IntegersFirst(rules: seq<Rule<TokenType>>, q: char -> bool, pf: string -> Option<real>, s: string)
    requires TestRules(rules, q) && s == "1 23 456 -10"
    ensures NextTokenSpec(rules, Located(s), pf) == Step(Ok(Some((Token.Integer(1), 0, 0))), Located(s)[1..])
  {
    IntegersText(q, s);
    IntegerStep(rules, q, pf, s, 0, 0, 1, 1);
  }

  lemma IntegersSecond(rules: seq<Rule<TokenType>>, q: char -> bool, pf: string -> Option<real>, s: string)
    requires TestRules(rules, q) && s == "1 23 456 -10"
    ensures NextTokenSpec(rules, Located(s)[1..], pf) == Step(Ok(Some((Token.Integer(23), 2, 3))), Located(s)[4..])
  {
    IntegersText(q, s);
    IntegerStep(rules, q, pf, s, 1, 2, 4, 23);
  }

  lemma IntegersThird(rules: seq<Rule<TokenType>>, q: char -> bool, pf: string -> Option<real>, s: string)
    requires TestRules(rules, q) && s == "1 23 456 -10"
    ensures NextTokenSpec(rules, Located(s)[4..], pf) == Step(Ok(Some((Token.Integer(456), 5, 7))), Located(s)[8..])
  {
    IntegersText(q, s);
    IntegerStep(rules, q, pf, s, 4, 5, 8, 456);
  }

  lemma IntegersFourth(rules: seq<Rule<TokenType>>, q: char -> bool, pf: string -> Option<real>, s: string)
    requires TestRules(rules, q) && s == "1 23 456 -10"
    ensures NextTokenSpec(rules, Located(s)[8..], pf) == Step(Ok(Some((Token.Integer(-10), 9, 11))), Located(s)[12..])
  {
    IntegersText(q, s);
    IntegerStep(rules, q, pf, s, 8, 9, 12, -10);
  }

  /** `floating_points`: "1.0 12.3 999.7" gives three floating point numbers with their spans, then the end. */
  method FloatingPoints(isAlphanumeric: char -> bool, parseFloat: string -> Option<real>)
    returns (results: seq<Result<Option<(Token, int, int)>, TokenizingError>>)
    requires AgreesOnAscii(isAlphanumeric)
    requires parseFloat("1.0") == Some(1.0) && parseFloat("12.3") == Some(12.3) && parseFloat("999.7") == Some(999.7)
    ensures results == [Ok(Some((Token.FloatingPointNumber(1.0), 0, 2))), Ok(Some((Token.FloatingPointNumber(12.3), 4, 7))),
                        Ok(Some((Token.FloatingPointNumber(999.7), 9, 13))), Ok(None)]
  {
    var s := "1.0 12.3 999.7";
    var tokenizer := new Tokenizer(Located(s), isAlphanumeric, parseFloat);
    assert isAlphanumeric('a');
    SeparatorExamples(isAlphanumeric);
    TokenRulesLanguages(isAlphanumeric);
    results := FloatingPointsRun(tokenizer, s);
  }

  method FloatingPointsRun(tokenizer: Tokenizer<int>, s: string) returns (results: seq<Result<Option<(Token, int, int)>, TokenizingError>>)
    requires tokenizer.Valid() && s == "1.0 12.3 999.7" && tokenizer.input.Remaining() == Located(s)
    requires TestRules(tokenizer.rules, tokenizer.isAlphanumeric)
    requires tokenizer.parseFloat("1.0") == Some(1.0) && tokenizer.parseFloat("12.3") == Some(12.3)
    requires tokenizer.parseFloat("999.7") == Some(999.7)
    modifies tokenizer.automaton, tokenizer.input
    ensures results == [Ok(Some((Token.FloatingPointNumber(1.0), 0, 2))), Ok(Some((Token.FloatingPointNumber(12.3), 4, 7))),
                        Ok(Some((Token.FloatingPointNumber(999.7), 9, 13))), Ok(None)]
  {
    ghost var rules, q, pf := tokenizer.rules, tokenizer.isAlphanumeric, tokenizer.parseFloat;
    var r1 := tokenizer.NextToken();
    FloatingPointsFirst(rules, q, pf, s);
    var r2 := tokenizer.NextToken();
    FloatingPointsSecond(rules, q, pf, s);
    var r3 := tokenizer.NextToken();
    FloatingPointsThird(rules, q, pf, s);
    var r4 := tokenizer.NextToken();
    EndStep(s, 14, pf, rules);
    results := [r1, r2, r3, r4];
  }

  /** Where the tokens of "1.0 12.3 999.7" are, and their values. */
  ghost predicate FloatingPointsInput(q: char -> bool, pf: string -> Option<real>, s: string)
  {
    && |s| == 14 && Located(s)[0..] == Located(s)
    && TokenAt(q, s, 0, 0, 3) && TokenAt(q, s, 3, 4, 8) && TokenAt(q, s, 8, 9, 14)
    && FloatToken(pf, s, 0, 3, 1.0) && FloatToken(pf, s, 4, 8, 12.3) && FloatToken(pf, s, 9, 14, 999.7)
  }

  lemma FloatingPointsText(q: char -> bool, pf: string -> Option<real>, s: string)
    requires Separators(q) && s == "1.0 12.3 999.7"
    requires pf("1.0") == Some(1.0) && pf("12.3") == Some(12.3) && pf("999.7") == Some(999.7)
    ensures FloatingPointsInput(q, pf, s)
  {
    FloatingPointsSlices(s);
    FloatText("1.0", 1);
    FloatText("12.3", 2);
    FloatText("999.7", 3);
  }

  lemma FloatingPointsSlices(s: string)
    requires s == "1.0 12.3 999.7"
    ensures s[0..3] == "1.0" && s[4..8] == "12.3" && s[9..14] == "999.7"
  {
  }

  /** A string with a point at `k` between digits is float text. */
  lemma FloatText(t: string, k: nat)
    requires 0 < k < |t| - 1 && t[k] == '.'
    requires forall i :: 0 <= i < |t| && i != k ==> '0' <= t[i] <= '9'
    ensures Regexes.IsFloatText(t) && '.' in t
  {
    assert Regexes.IsIntegerText(t[..k], 10);
    assert Regexes.AllDigits(t[k + 1..], 10);
  }

  lemma FloatingPointsFirst(rules: seq<Rule<TokenType>>, q: char -> bool, pf: string -> Option<real>, s: string)
    requires TestRules(rules, q) && s == "1.0 12.3 999.7" && pf("1.0") == Some(1.0)
    requires pf("12.3") == Some(12.3) && pf("999.7") == Some(999.7)
    ensures NextTokenSpec(rules, Located(s), pf) == Step(Ok(Some((Token.FloatingPointNumber(1.0), 0, 2))), Located(s)[3..])
  {
    FloatingPointsText(q, pf, s);
    FloatStep(rules, q, pf, s, 0, 0, 3, 1.0);
  }

  lemma FloatingPointsSecond(rules: seq<Rule<TokenType>>, q: char -> bool, pf: string -> Option<real>, s: string)
    requires TestRules(rules, q) && s == "1.0 12.3 999.7" && pf("1.0") == Some(1.0)
    requires pf("12.3") == Some(12.3) && pf("999.7") == Some(999.7)
    ensures NextTokenSpec(rules, Located(s)[3..], pf) == Step(Ok(Some((Token.FloatingPointNumber(12.3), 4, 7))), Located(s)[8..])
  {
    FloatingPointsText(q, pf, s);
    FloatStep(rules, q, pf, s, 3, 4, 8, 12.3);
  }

  lemma FloatingPointsThird(rules: seq<Rule<TokenType>>, q: char -> bool, pf: string -> Option<real>, s: string)
    requires TestRules(rules, q) && s == "1.0 12.3 999.7" && pf("1.0") == Some(1.0)
    requires pf("12.3") == Some(12.3) && pf("999.7") == Some(999.7)
    ensures NextTokenSpec(rules, Located(s)[8..], pf) == Step(Ok(Some((Token.FloatingPointNumber(999.7), 9, 13))), Located(s)[14..])
  {
    FloatingPointsText(q, pf, s);
    FloatStep(rules, q, pf, s, 8, 9, 14, 999.7);
  }

  /** `identifiers`: "+ abc HELLO-WORLD" gives three identifiers with their spans, then the end. */
  method Identifiers(isAlphanumeric: char -> bool, parseFloat: string -> Option<real>)
    returns (results: seq<Result<Option<(Token, int, int)>, TokenizingError>>)
    requires AgreesOnAscii(isAlphanumeric)
    ensures results == [Ok(Some((Token.Identifier("+"), 0, 0))), Ok(Some((Token.Identifier("abc"), 2, 4))),
                        Ok(Some((Token.Identifier("HELLO-WORLD"), 6, 16))), Ok(None)]
  {
    var s := "+ abc HELLO-WORLD";
    var tokenizer := new Tokenizer(Located(s), isAlphanumeric, parseFloat);
    assert isAlphanumeric('a');
    SeparatorExamples(isAlphanumeric);
    TokenRulesLanguages(isAlphanumeric);
    results := IdentifiersRun(tokenizer, s);
  }

  method IdentifiersRun(tokenizer: Tokenizer<int>, s: string) returns (results: seq<Result<Option<(Token, int, int)>, TokenizingError>>)
    requires tokenizer.Valid() && s == "+ abc HELLO-WORLD" && tokenizer.input.Remaining() == Located(s)
    requires TestRules(tokenizer.rules, tokenizer.isAlphanumeric) && AgreesOnAscii(tokenizer.isAlphanumeric)
    modifies tokenizer.automaton, tokenizer.input
    ensures results == [Ok(Some((Token.Identifier("+"), 0, 0))), Ok(Some((Token.Identifier("abc"), 2, 4))),
                        Ok(Some((Token.Identifier("HELLO-WORLD"), 6, 16))), Ok(None)]
  {
    ghost var rules, q, pf := tokenizer.rules, tokenizer.isAlphanumeric, tokenizer.parseFloat;
    var r1 := tokenizer.NextToken();
    IdentifiersFirst(rules, q, pf, s);
    var r2 := tokenizer.NextToken();
    IdentifiersSecond(rules, q, pf, s);
    var r3 := tokenizer.NextToken();
    IdentifiersThird(rules, q, pf, s);
    var r4 := tokenizer.NextToken();
    EndStep(s, 17, pf, rules);
    results := [r1, r2, r3, r4];
  }

  /** Where the tokens of "+ abc HELLO-WORLD" are. */
  ghost predicate IdentifiersInput(q: char -> bool, s: string)
  {
    && |s| == 17 && Located(s)[0..] == Located(s)
    && TokenAt(q, s, 0, 0, 1) && TokenAt(q, s, 1, 2, 5) && TokenAt(q, s, 5, 6, 17)
    && IdentifierToken(q, s, 0, 1) && IdentifierToken(q, s, 2, 5) && IdentifierToken(q, s, 6, 17)
    && s[0..1] == "+" && s[2..5] == "abc" && s[6..17] == "HELLO-WORLD"
  }

  lemma IdentifiersText(q: char -> bool, s: string)
    requires AgreesOnAscii(q) && Separators(q) && s == "+ abc HELLO-WORLD"
    ensures IdentifiersInput(q, s)
  {
    IdentifiersSpans(q, s);
    IdentifiersSlices(s);
    IdentifierLiterals(q);
  }

  lemma IdentifiersSpans(q: char -> bool, s: string)
    requires Separators(q) && s == "+ abc HELLO-WORLD"
    ensures |s| == 17 && Located(s)[0..] == Located(s)
    ensures TokenAt(q, s, 0, 0, 1) && TokenAt(q, s, 1, 2, 5) && TokenAt(q, s, 5, 6, 17)
  {
  }

  /** The tokens of "+ abc HELLO-WORLD" are identifiers and no numbers. */
  lemma IdentifierLiterals(q: char -> bool)
    requires AgreesOnAscii(q)
    ensures IsIdentifierText(q, "+") && !Regexes.IsIntegerText("+", 10) && '.' !in "+"
    ensures IsIdentifierText(q, "abc") && !Regexes.IsIntegerText("abc", 10) && '.' !in "abc"
    ensures IsIdentifierText(q, "HELLO-WORLD") && !Regexes.IsIntegerText("HELLO-WORLD", 10) && '.' !in "HELLO-WORLD"
  {
    IdentifierLiteral(q, "+");
    IdentifierLiteral(q, "abc");
    IdentifierLiteral(q, "HELLO-WORLD");
  }

  lemma IdentifiersSlices(s: string)
    requires s == "+ abc HELLO-WORLD"
    ensures s[0..1] == "+" && s[2..5] == "abc" && s[6..17] == "HELLO-WORLD"
  {
  }

  /** A word of ASCII letters and '+' or '-', not starting with '-', is an identifier and no number. */
  lemma IdentifierLiteral(q: char -> bool, t: string)
    requires AgreesOnAscii(q)
    requires |t| >= 1 && t[0] != '-'
    requires forall i :: 0 <= i < |t| ==> 'a' <= t[i] <= 'z' || 'A' <= t[i] <= 'Z' || t[i] == '+' || t[i] == '-'
    ensures IsIdentifierText(q, t) && !Regexes.IsIntegerText(t, 10) && '.' !in t
  {
    assert IdentifierSymbols[0] == '+' && IdentifierSymbols[1] == '-';
    forall i | 0 <= i < |t| ensures IsIdentifierChar(q, t[i]) {
      if t[i] != '+' && t[i] != '-' {
        assert t[i] as int < 128 && IsAsciiAlphanumeric(t[i]);
      }
    }
    NotIntegerText(t, 0);
  }

  lemma IdentifiersFirst(rules: seq<Rule<TokenType>>, q: char -> bool, pf: string -> Option<real>, s: string)
    requires TestRules(rules, q) && AgreesOnAscii(q) && s == "+ abc HELLO-WORLD"
    ensures NextTokenSpec(rules, Located(s), pf) == Step(Ok(Some((Token.Identifier("+"), 0, 0))), Located(s)[1..])
  {
    IdentifiersText(q, s);
    IdentifierStep(rules, q, pf, s, 0, 0, 1);
  }

  lemma IdentifiersSecond(rules: seq<Rule<TokenType>>, q: char -> bool, pf: string -> Option<real>, s: string)
    requires TestRules(rules, q) && AgreesOnAscii(q) && s == "+ abc HELLO-WORLD"
    ensures NextTokenSpec(rules, Located(s)[1..], pf) == Step(Ok(Some((Token.Identifier("abc"), 2, 4))), Located(s)[5..])
  {
    IdentifiersText(q, s);
    IdentifierStep(rules, q, pf, s, 1, 2, 5);
  }

  lemma IdentifiersThird(rules: seq<Rule<TokenType>>, q: char -> bool, pf: string -> Option<real>, s: string)
    requires TestRules(rules, q) && AgreesOnAscii(q) && s == "+ abc HELLO-WORLD"
    ensures NextTokenSpec(rules, Located(s)[5..], pf) == Step(Ok(Some((Token.Identifier("HELLO-WORLD"), 6, 16))), Located(s)[17..])
  {
    IdentifiersText(q, s);
    IdentifierStep(rules, q, pf, s, 5, 6, 17);
  }

  /**
   * `mix`: "(foo (+ 1.0 20) 8)" gives the parentheses, identifiers and
   * numbers in order, then the end.  The test compares the tokens only;
   * their spans are stated here as well.
   */
  method Mix(isAlphanumeric: char -> bool, parseFloat: string -> Option<real>)
    returns (results: seq<Result<Option<(Token, int, int)>, TokenizingError>>)
    requires AgreesOnAscii(isAlphanumeric) && parseFloat("1.0") == Some(1.0)
    ensures results == MixTokens()
  {
    var s := "(foo (+ 1.0 20) 8)";
    var tokenizer := new Tokenizer(Located(s), isAlphanumeric, parseFloat);
    assert isAlphanumeric('a');
    SeparatorExamples(isAlphanumeric);
    TokenRulesLanguages(isAlphanumeric);
    results := MixRun(tokenizer, s);
  }

  /** The tokens of `mix`, with their spans, and the end of the input. */
  function MixTokens(): seq<Result<Option<(Token, int, int)>, TokenizingError>>
  {
    [ Ok(Some((Token.LeftParenthesis, 0, 0))), Ok(Some((Token.Identifier("foo"), 1, 3))),
      Ok(Some((Token.LeftParenthesis, 5, 5))), Ok(Some((Token.Identifier("+"), 6, 6))),
      Ok(Some((Token.FloatingPointNumber(1.0), 8, 10))), Ok(Some((Token.Integer(20), 12, 13))),
      Ok(Some((Token.RightParenthesis, 14, 14))), Ok(Some((Token.Integer(8), 16, 16))),
      Ok(Some((Token.RightParenthesis, 17, 17))), Ok(None) ]
  }

  method MixRun(tokenizer: Tokenizer<int>, s: string) returns (results: seq<Result<Option<(Token, int, int)>, TokenizingError>>)
    requires tokenizer.Valid() && s == "(foo (+ 1.0 20) 8)" && tokenizer.input.Remaining() == Located(s)
    requires TestRules(tokenizer.rules, tokenizer.isAlphanumeric) && AgreesOnAscii(tokenizer.isAlphanumeric)
    requires tokenizer.parseFloat("1.0") == Some(1.0)
    modifies tokenizer.automaton, tokenizer.input
    ensures results == MixTokens()
  {
    ghost var rules, q, pf := tokenizer.rules, tokenizer.isAlphanumeric, tokenizer.parseFloat;
    MixText(q, pf, s);
    var r1 := tokenizer.NextToken();
    MixLeftParentheses(rules, q, pf, s);
    MixRightParentheses(rules, q, pf, s);
    var r2 := tokenizer.NextToken();
    MixIdentifiers(rules, q, pf, s);
    var r3 := tokenizer.NextToken();
    var r4 := tokenizer.NextToken();
    MixNumbers(rules, q, pf, s);
    var r5 := tokenizer.NextToken();
    var r6 := tokenizer.NextToken();
    var r7 := tokenizer.NextToken();
    var r8 := tokenizer.NextToken();
    var r9 := tokenizer.NextToken();
    var r10 := tokenizer.NextToken();
    EndStep(s, 18, pf, rules);
    results := [r1, r2, r3, r4, r5, r6, r7, r8, r9, r10];
  }

  /** Where the tokens of "(foo (+ 1.0 20) 8)" are, and their values. */
  ghost predicate MixInput(q: char -> bool, pf: string -> Option<real>, s: string)
  {
    && |s| == 18 && Located(s)[0..] == Located(s)
    && s[0] == '(' && s[5] == '(' && s[14] == ')' && s[17] == ')' && IsWhitespace(s[4]) && IsWhitespace(s[15])
    && TokenAt(q, s, 1, 1, 4) && TokenAt(q, s, 6, 6, 7) && TokenAt(q, s, 7, 8, 11)
    && TokenAt(q, s, 11, 12, 14) && TokenAt(q, s, 15, 16, 17)
    && IdentifierToken(q, s, 1, 4) && IdentifierToken(q, s, 6, 7) && FloatToken(pf, s, 8, 11, 1.0)
    && IntegerToken(s, 12, 14, 20) && IntegerToken(s, 16, 17, 8)
    && s[1..4] == "foo" && s[6..7] == "+"
  }

  lemma MixText(q: char -> bool, pf: string -> Option<real>, s: string)
    requires AgreesOnAscii(q) && Separators(q) && s == "(foo (+ 1.0 20) 8)" && pf("1.0") == Some(1.0)
    ensures MixInput(q, pf, s)
  {
    MixSpans(q, s);
    MixSlices(s);
    MixLiterals(q);
  }

  lemma MixSpans(q: char -> bool, s: string)
    requires Separators(q) && s == "(foo (+ 1.0 20) 8)"
    ensures |s| == 18 && Located(s)[0..] == Located(s)
    ensures s[0] == '(' && s[5] == '(' && s[14] == ')' && s[17] == ')' && IsWhitespace(s[4]) && IsWhitespace(s[15])
    ensures TokenAt(q, s, 1, 1, 4) && TokenAt(q, s, 6, 6, 7) && TokenAt(q, s, 7, 8, 11)
    ensures TokenAt(q, s, 11, 12, 14) && TokenAt(q, s, 15, 16, 17)
  {
  }

  lemma MixSlices(s: string)
    requires s == "(foo (+ 1.0 20) 8)"
    ensures s[1..4] == "foo" && s[6..7] == "+" && s[8..11] == "1.0" && s[12..14] == "20" && s[16..17] == "8"
  {
  }

  /** The tokens of "(foo (+ 1.0 20) 8)" other than parentheses, and their values. */
  lemma MixLiterals(q: char -> bool)
    requires AgreesOnAscii(q)
    ensures IsIdentifierText(q, "foo") && !Regexes.IsIntegerText("foo", 10) && '.' !in "foo"
    ensures IsIdentifierText(q, "+") && !Regexes.IsIntegerText("+", 10) && '.' !in "+"
    ensures Regexes.IsFloatText("1.0") && '.' in "1.0"
    ensures Regexes.IsIntegerText("20", 10) && ParseI64("20") == Some(20)
    ensures Regexes.IsIntegerText("8", 10) && ParseI64("8") == Some(8)
  {
    MixIdentifierLiterals(q);
    MixNumberLiterals();
  }

  lemma MixIdentifierLiterals(q: char -> bool)
    requires AgreesOnAscii(q)
    ensures IsIdentifierText(q, "foo") && !Regexes.IsIntegerText("foo", 10) && '.' !in "foo"
    ensures IsIdentifierText(q, "+") && !Regexes.IsIntegerText("+", 10) && '.' !in "+"
  {
    IdentifierLiteral(q, "foo");
    IdentifierLiteral(q, "+");
  }

  lemma MixNumberLiterals()
    ensures Regexes.IsFloatText("1.0") && '.' in "1.0"
    ensures Regexes.IsIntegerText("20", 10) && ParseI64("20") == Some(20)
    ensures Regexes.IsIntegerText("8", 10) && ParseI64("8") == Some(8)
  {
    FloatText("1.0", 1);
    ParseDigits("20");
    assert "20"[..1] == "2";
    ParseDigits("8");
  }

  /** The opening parentheses of `mix`, the second one after a space. */
  lemma MixLeftParentheses(rules: seq<Rule<TokenType>>, q: char -> bool, pf: string -> Option<real>, s: string)
    requires TestRules(rules, q) && |s| == 18 && s[0] == '(' && s[5] == '(' && IsWhitespace(s[4])
    ensures NextTokenSpec(rules, Located(s), pf) == Step(Ok(Some((Token.LeftParenthesis, 0, 0))), Located(s)[1..])
    ensures NextTokenSpec(rules, Located(s)[4..], pf) == Step(Ok(Some((Token.LeftParenthesis, 5, 5))), Located(s)[6..])
  {
    LeftParenthesisStep(rules, q, pf, s, 0, 0);
    assert Located(s)[0..] == Located(s);
    LeftParenthesisStep(rules, q, pf, s, 4, 5);
  }

  /** The closing parentheses of `mix`, each right after the previous token. */
  lemma MixRightParentheses(rules: seq<Rule<TokenType>>, q: char -> bool, pf: string -> Option<real>, s: string)
    requires TestRules(rules, q) && |s| == 18 && s[14] == ')' && s[17] == ')'
    ensures NextTokenSpec(rules, Located(s)[14..], pf) == Step(Ok(Some((Token.RightParenthesis, 14, 14))), Located(s)[15..])
    ensures NextTokenSpec(rules, Located(s)[17..], pf) == Step(Ok(Some((Token.RightParenthesis, 17, 17))), Located(s)[18..])
  {
    RightParenthesisStep(rules, q, pf, s, 14, 14);
    RightParenthesisStep(rules, q, pf, s, 17, 17);
  }

  /** The identifiers of `mix`. */
  lemma MixIdentifiers(rules: seq<Rule<TokenType>>, q: char -> bool, pf: string -> Option<real>, s: string)
    requires TestRules(rules, q) && MixInput(q, pf, s)
    ensures NextTokenSpec(rules, Located(s)[1..], pf) == Step(Ok(Some((Token.Identifier("foo"), 1, 3))), Located(s)[4..])
    ensures NextTokenSpec(rules, Located(s)[6..], pf) == Step(Ok(Some((Token.Identifier("+"), 6, 6))), Located(s)[7..])
  {
    IdentifierStep(rules, q, pf, s, 1, 1, 4);
    IdentifierStep(rules, q, pf, s, 6, 6, 7);
  }

  /** The numbers of `mix`. */
  lemma MixNumbers(rules: seq<Rule<TokenType>>, q: char -> bool, pf: string -> Option<real>, s: string)
    requires TestRules(rules, q) && MixInput(q, pf, s)
    ensures NextTokenSpec(rules, Located(s)[7..], pf) == Step(Ok(Some((Token.FloatingPointNumber(1.0), 8, 10))), Located(s)[11..])
    ensures NextTokenSpec(rules, Located(s)[11..], pf) == Step(Ok(Some((Token.Integer(20), 12, 13))), Located(s)[14..])
    ensures NextTokenSpec(rules, Located(s)[15..], pf) == Step(Ok(Some((Token.Integer(8), 16, 16))), Located(s)[17..])
  {
    FloatStep(rules, q, pf, s, 7, 8, 11, 1.0);
    IntegerStep(rules, q, pf, s, 11, 12, 14, 20);
    IntegerStep(rules, q, pf, s, 15, 16, 17, 8);
  }
}
