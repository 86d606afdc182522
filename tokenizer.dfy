/**
 * The maximal-munch tokenizer (src/scripting/tokenizing/tokenizer.rs).
 *
 * `NextToken` is the method the source runs, on a `BufferedIterator` of
 * (character, location) pairs and an `Automaton` of five rules.  It is
 * proved to compute `NextTokenSpec`, a pure function of the remaining
 * input, and `NextTokenMaximalMunch` says what that function means: the
 * token is the longest stretch some rule can still match, and its type is
 * the first rule matching it.
 */
module Tokenizer {
  import opened Wrappers
  import Regexes
  import opened Automaton
  import opened Bufit
  import opened Tokens

  /** The identifier characters besides letters and digits. */
  const IdentifierSymbols: string := "+-*/%!@#$^&*|_<>="

  predicate IsIdentifierChar(isAlphanumeric: char -> bool, c: char)
  {
    c in IdentifierSymbols || isAlphanumeric(c)
  }

  /** A non-empty string of identifier characters. */
  predicate IsIdentifierText(isAlphanumeric: char -> bool, t: string)
  {
    |t| >= 1 && forall i :: 0 <= i < |t| ==> IsIdentifierChar(isAlphanumeric, t[i])
  }

  /**
   * `identifier_regex`.  `char::is_alphanumeric` is a Unicode table; it is
   * the parameter `isAlphanumeric`.
   */
  function IdentifierRegex(isAlphanumeric: char -> bool): Regexes.RegexImp
  {
    Regexes.OneOrMore(Regexes.AlternativesOf([Regexes.CharacterClass(IdentifierSymbols), Regexes.Predicate(isAlphanumeric)]))
  }

  /** The rules of `create_automaton`, in priority order. */
  function TokenRules(isAlphanumeric: char -> bool): seq<Rule<TokenType>>
  {
    [ (Regexes.LiteralChar('('), TokenType.LeftParenthesis),
      (Regexes.LiteralChar(')'), TokenType.RightParenthesis),
      (Regexes.Integer(10), TokenType.Integer),
      (Regexes.Float(), TokenType.FloatingPointNumber),
      (IdentifierRegex(isAlphanumeric), TokenType.Identifier) ]
  }

  /** `create_automaton`. */
  method CreateAutomaton(isAlphanumeric: char -> bool) returns (automaton: Automaton<TokenType>)
    ensures fresh(automaton)
    ensures automaton.rules == TokenRules(isAlphanumeric) && automaton.state == automaton.rules
  {
    var builder := new AutomatonBuilder();
    builder.AddRule(Regexes.LiteralChar('('), TokenType.LeftParenthesis);
    builder.AddRule(Regexes.LiteralChar(')'), TokenType.RightParenthesis);
    builder.AddRule(Regexes.Integer(10), TokenType.Integer);
    builder.AddRule(Regexes.Float(), TokenType.FloatingPointNumber);
    builder.AddRule(IdentifierRegex(isAlphanumeric), TokenType.Identifier);
    automaton := builder.Eject();
  }

  /** `is_whitespace`: one of the three characters of " \n\r". */
  predicate IsWhitespace(c: char)
  {
    c == ' ' || c == '\n' || c == '\r'
  }

  /** What `skip_whitespace` leaves: the input from its first non-whitespace character. */
  function DropWhitespace<Loc>(input: seq<(char, Loc)>): (s: seq<(char, Loc)>)
    ensures |s| <= |input|
    ensures s != [] ==> !IsWhitespace(s[0].0)
  {
    if input == [] || !IsWhitespace(input[0].0) then input else DropWhitespace(input[1..])
  }

  /** What `DropWhitespace` drops is whitespace, and what it keeps is the rest of the input. */
  lemma {:induction false} DropWhitespaceCount<Loc>(input: seq<(char, Loc)>) returns (n: nat)
    ensures n <= |input| && DropWhitespace(input) == input[n..]
    ensures forall i :: 0 <= i < n ==> IsWhitespace(input[i].0)
  {
    if input != [] && IsWhitespace(input[0].0) {
      var n' := DropWhitespaceCount(input[1..]);
      n := n' + 1;
      SuffixOfSuffix(input, 1, n');
      forall i | 0 <= i < n ensures IsWhitespace(input[i].0) {
        if i > 0 {
          assert input[i] == input[1..][i - 1];
        }
      }
    } else {
      n := 0;
    }
  }

  lemma SuffixOfSuffix<X>(xs: seq<X>, i: nat, j: nat)
    requires i + j <= |xs|
    ensures xs[i..][j..] == xs[i + j..]
  {
  }

  /** The characters of located input. */
  function Chars<Loc>(xs: seq<(char, Loc)>): (s: string)
    ensures |s| == |xs| && forall i :: 0 <= i < |xs| ==> s[i] == xs[i].0
  {
    seq(|xs|, i requires 0 <= i < |xs| => xs[i].0)
  }

  /**
   * The inner loop of `next_token`: feed characters while the automaton
   * accepts them.  Yields the state reached and how many were consumed.
   */
  function Munch<T, Loc>(state: seq<Rule<T>>, rest: seq<(char, Loc)>): (r: (seq<Rule<T>>, nat))
    ensures r.1 <= |rest|
    ensures state != [] ==> r.0 != []
    decreases |rest|
  {
    if rest == [] then (state, 0)
    else
      var next := Survivors(state, rest[0].0);
      if next == [] then (state, 0)
      else
        var m := Munch(next, rest[1..]);
        (m.0, m.1 + 1)
  }

  /** A call of `next_token`: its result and the input it leaves. */
  datatype Step<Loc> = Step(result: Result<Option<(Token, Loc, Loc)>, TokenizingError>, rest: seq<(char, Loc)>)

  /** How a finished token is reported, from the automaton's `current` tag. */
  function Conclude<Loc>(current: Option<TokenType>, text: string, start: Loc, last: Loc,
                         parseFloat: string -> Option<real>): (r: Result<Option<(Token, Loc, Loc)>, TokenizingError>)
    ensures r.Ok? ==> r.value.Some? && r.value.value.1 == start && r.value.value.2 == last
  {
    match current
    case None => Err(IncompleteToken)
    case Some(tt) =>
      match ToToken(tt, text, parseFloat)
      case Err(e) => Err(e)
      case Ok(token) => Ok(Some((token, start, last)))
  }

  /**
   * The step that takes the first character of `s` and the `n` after it as
   * the token text, typed by `current`, and leaves the rest of `s`.
   */
  function TokenStepOf<Loc>(current: Option<TokenType>, s: seq<(char, Loc)>, n: nat,
                            parseFloat: string -> Option<real>): (step: Step<Loc>)
    requires n < |s|
    ensures step.rest == s[n + 1..] && step.result != Ok(None)
  {
    Step(Conclude(current, Chars(s[..n + 1]), s[0].1, s[n].1, parseFloat), s[n + 1..])
  }

  /**
   * `next_token` as a function of the remaining input.  The first
   * non-whitespace character is always consumed and starts the token text;
   * if no rule survives it, the automaton keeps its reset state.
   */
  function NextTokenSpec<Loc>(rules: seq<Rule<TokenType>>, input: seq<(char, Loc)>,
                              parseFloat: string -> Option<real>): (step: Step<Loc>)
    ensures |step.rest| <= |input|
    ensures step.result != Ok(None) ==> |step.rest| < |input|
  {
    var s := DropWhitespace(input);
    if s == [] then Step(Ok(None), [])
    else
      var fed := Survivors(rules, s[0].0);
      var m := Munch(if fed == [] then rules else fed, s[1..]);
      TokenStepOf(FirstTerminal(m.0), s, m.1, parseFloat)
  }

  /** `next_token` reports the end exactly when only whitespace is left. */
  lemma NextTokenSpecEnd<Loc>(rules: seq<Rule<TokenType>>, input: seq<(char, Loc)>, parseFloat: string -> Option<real>)
    ensures NextTokenSpec(rules, input, parseFloat).result == Ok(None)
            <==> forall i :: 0 <= i < |input| ==> IsWhitespace(input[i].0)
  {
    var s := DropWhitespace(input);
    var n := DropWhitespaceCount(input);
    if s != [] {
      NextTokenSpecUnfold(rules, input, parseFloat);
      assert s[0] == input[n];
    }
  }

  /** What `next_token` leaves is the end of its input. */
  lemma NextTokenSpecRest<Loc>(rules: seq<Rule<TokenType>>, input: seq<(char, Loc)>, parseFloat: string -> Option<real>)
    returns (consumed: nat)
    ensures consumed <= |input| && NextTokenSpec(rules, input, parseFloat).rest == input[consumed..]
  {
    var s := DropWhitespace(input);
    var n := DropWhitespaceCount(input);
    if s != [] {
      NextTokenSpecUnfold(rules, input, parseFloat);
      var fed := Survivors(rules, s[0].0);
      var m := Munch(if fed == [] then rules else fed, s[1..]);
      SuffixOfSuffix(input, n, m.1 + 1);
      consumed := n + m.1 + 1;
    } else {
      consumed := |input|;
    }
  }

  /** `NextTokenSpec` on input that holds a token: the state after its first character, munched. */
  lemma NextTokenSpecUnfold<Loc>(rules: seq<Rule<TokenType>>, input: seq<(char, Loc)>, parseFloat: string -> Option<real>)
    requires DropWhitespace(input) != []
    ensures var s := DropWhitespace(input);
            var fed := Survivors(rules, s[0].0);
            var m := Munch(if fed == [] then rules else fed, s[1..]);
            NextTokenSpec(rules, input, parseFloat) == TokenStepOf(FirstTerminal(m.0), s, m.1, parseFloat)
  {
  }

  class Tokenizer<Loc> {
    const automaton: Automaton<TokenType>
    const input: BufferedIterator<(char, Loc)>
    /** `char::is_alphanumeric`, used by the identifier rule. */
    const isAlphanumeric: char -> bool
    /** `str::parse::<f64>`. */
    const parseFloat: string -> Option<real>
    /** The rules `create_automaton` gave the automaton. */
    ghost const rules: seq<Rule<TokenType>>

    ghost predicate Valid()
      reads this, automaton, input
    {
      automaton.rules == rules && input.Valid()
    }

    /** `new`. */
    constructor(source: seq<(char, Loc)>, isAlphanumeric: char -> bool, parseFloat: string -> Option<real>)
      ensures Valid() && fresh(automaton) && fresh(input)
      ensures input.Remaining() == source
      ensures this.isAlphanumeric == isAlphanumeric && this.parseFloat == parseFloat
      ensures rules == TokenRules(isAlphanumeric)
    {
      var a := CreateAutomaton(isAlphanumeric);
      var i := new BufferedIterator(source);
      this.isAlphanumeric := isAlphanumeric;
      this.parseFloat := parseFloat;
      automaton := a;
      input := i;
      rules := a.rules;
    }

    /** `skip_whitespace`. */
    method SkipWhitespace()
      requires Valid()
      modifies input
      ensures Valid()
      ensures input.Remaining() == DropWhitespace(old(input.Remaining()))
    {
      while true
        invariant Valid()
        invariant DropWhitespace(input.Remaining()) == DropWhitespace(old(input.Remaining()))
        decreases |input.Remaining()|
      {
        var current := input.Current();
        match current {
          case None =>
            return;
          case Some(pair) =>
            if !IsWhitespace(pair.0) {
              return;
            } else {
              input.Next();
            }
        }
      }
    }

    /** `next_token`. */
    method NextToken() returns (result: Result<Option<(Token, Loc, Loc)>, TokenizingError>)
      requires Valid()
      modifies automaton, input
      ensures Valid()
      ensures result == NextTokenSpec(rules, old(input.Remaining()), parseFloat).result
      ensures input.Remaining() == NextTokenSpec(rules, old(input.Remaining()), parseFloat).rest
    {
      ghost var input0 := input.Remaining();
      SkipWhitespace();
      var current := input.Current();
      if current.None? {
        return Ok(None);
      }
      ghost var s := input.Remaining();
      var ch := current.value.0;
      var startLocation := current.value.1;
      input.Next();
      automaton.Reset();
      var _ := automaton.Feed(ch);
      NextTokenFromMunch(rules, input0, parseFloat);
      MunchLoopMunch(automaton.state, [ch], startLocation, input.Remaining());
      var accString, lastLocation := MunchText(ch, startLocation);
      result := Conclude(automaton.Current(), accString, startLocation, lastLocation, parseFloat);
    }

    /**
     * The loop of `next_token`: extend the token text `accString` while the
     * automaton accepts the next character.
     */
    method MunchText(ch: char, startLocation: Loc) returns (accString: string, lastLocation: Loc)
      requires Valid()
      modifies automaton, input
      ensures Valid()
      ensures MunchLoop(old(automaton.state), [ch], startLocation, old(input.Remaining()))
              == MunchResult(accString, lastLocation, automaton.state, input.Remaining())
    {
      lastLocation := startLocation;
      accString := [ch];
      ghost var goal := MunchLoop(automaton.state, accString, lastLocation, input.Remaining());
      while true
        invariant Valid()
        invariant MunchLoop(automaton.state, accString, lastLocation, input.Remaining()) == goal
        decreases |input.Remaining()|
      {
        var next := input.Current();
        if next.None? {
          break;
        }
        var c := next.value.0;
        var location := next.value.1;
        var accepted := automaton.Feed(c);
        if !accepted {
          break;
        }
        accString := accString + [c];
        lastLocation := location;
        input.Next();
      }
    }
  }

  /** Where the loop of `next_token` stops: the text, the last location, the state and the input left. */
  datatype MunchResult<T, Loc> = MunchResult(text: string, last: Loc, state: seq<Rule<T>>, rest: seq<(char, Loc)>)

  /** The loop of `next_token`, from the text and last location so far. */
  function MunchLoop<T, Loc>(state: seq<Rule<T>>, text: string, last: Loc, rest: seq<(char, Loc)>): (r: MunchResult<T, Loc>)
    decreases |rest|
  {
    if rest == [] || Survivors(state, rest[0].0) == [] then MunchResult(text, last, state, rest)
    else MunchLoop(Survivors(state, rest[0].0), text + [rest[0].0], rest[0].1, rest[1..])
  }

  /** The loop ends where `Munch` says, having appended what it consumed. */
  lemma {:induction false} MunchLoopMunch<T, Loc>(state: seq<Rule<T>>, text: string, last: Loc, rest: seq<(char, Loc)>)
    ensures var m := Munch(state, rest);
            MunchLoop(state, text, last, rest)
            == MunchResult(text + Chars(rest[..m.1]), if m.1 == 0 then last else rest[m.1 - 1].1, m.0, rest[m.1..])
    decreases |rest|
  {
    if rest == [] || Survivors(state, rest[0].0) == [] {
      assert text + Chars(rest[..0]) == text;
    } else {
      var next := Survivors(state, rest[0].0);
      MunchLoopMunch(next, text + [rest[0].0], rest[0].1, rest[1..]);
      MunchShift(text, rest, Munch(next, rest[1..]).1);
    }
  }

  /** The loop's view after consuming the first character, in terms of the whole input. */
  lemma MunchShift<Loc>(text: string, rest: seq<(char, Loc)>, n: nat)
    requires n < |rest|
    ensures (text + [rest[0].0]) + Chars(rest[1..][..n]) == text + Chars(rest[..n + 1])
    ensures rest[1..][n..] == rest[n + 1..]
    ensures (if n == 0 then rest[0].1 else rest[1..][n - 1].1) == rest[n].1
  {
    CharsSplit(rest, n);
    assert (text + [rest[0].0]) + Chars(rest[1..][..n]) == text + ([rest[0].0] + Chars(rest[1..][..n]));
  }

  // ---------------------------------------------------------------------
  // What a token is: the longest stretch some rule can still match

  /** `NextTokenSpec` in the terms of the loop of `next_token`: the text it accumulates and its last location. */
  lemma NextTokenFromMunch<Loc>(rules: seq<Rule<TokenType>>, input: seq<(char, Loc)>, parseFloat: string -> Option<real>)
    requires DropWhitespace(input) != []
    ensures var s := DropWhitespace(input);
            var fed := Survivors(rules, s[0].0);
            var m := Munch(if fed == [] then rules else fed, s[1..]);
            NextTokenSpec(rules, input, parseFloat)
            == Step(Conclude(FirstTerminal(m.0), [s[0].0] + Chars(s[1..][..m.1]), s[0].1,
                             if m.1 == 0 then s[0].1 else s[1..][m.1 - 1].1, parseFloat),
                    s[1..][m.1..])
  {
    var s := DropWhitespace(input);
    var fed := Survivors(rules, s[0].0);
    var m := Munch(if fed == [] then rules else fed, s[1..]);
    NextTokenSpecUnfold(rules, input, parseFloat);
    TokenStepOfLoop(FirstTerminal(m.0), s, m.1, parseFloat);
  }

  /** `TokenStepOf` with the text split into the first character and the ones munched after it. */
  lemma TokenStepOfLoop<Loc>(current: Option<TokenType>, s: seq<(char, Loc)>, n: nat, parseFloat: string -> Option<real>)
    requires n < |s|
    ensures TokenStepOf(current, s, n, parseFloat)
            == Step(Conclude(current, [s[0].0] + Chars(s[1..][..n]), s[0].1,
                             if n == 0 then s[0].1 else s[1..][n - 1].1, parseFloat),
                    s[1..][n..])
  {
    CharsSplit(s, n);
    assert s[1..][n..] == s[n + 1..];
  }

  lemma CharsSplit<Loc>(rest: seq<(char, Loc)>, k: nat)
    requires k < |rest|
    ensures Chars(rest[..k + 1]) == [rest[0].0] + Chars(rest[1..][..k])
  {
  }

  /** Munching from the generation of `w` stops where the generation would become empty. */
  lemma MunchGeneration<T, Loc>(rules: seq<Rule<T>>, w: string, rest: seq<(char, Loc)>)
    requires Generation(rules, w) != []
    ensures var m := Munch(Generation(rules, w), rest);
            && m.0 == Generation(rules, w + Chars(rest[..m.1]))
            && (m.1 < |rest| ==> Generation(rules, w + Chars(rest[..m.1 + 1])) == [])
  {
    forall v, c ensures Survivors(Generation(rules, v), c) == Generation(rules, v + [c]) {
      GenerationStep(rules, v, c);
    }
    MunchStates(v => Generation(rules, v), w, rest);
  }

  /**
   * Munching from `states(w)`, where `states` is any map from what was fed
   * to the state reached, feeding one more character being a step.
   */
  lemma {:induction false} MunchStates<T, Loc>(states: string -> seq<Rule<T>>, w: string, rest: seq<(char, Loc)>)
    requires forall v, c {:trigger Survivors(states(v), c)} :: Survivors(states(v), c) == states(v + [c])
    requires states(w) != []
    ensures var m := Munch(states(w), rest);
            && m.0 == states(w + Chars(rest[..m.1]))
            && (m.1 < |rest| ==> states(w + Chars(rest[..m.1 + 1])) == [])
    decreases |rest|
  {
    if rest == [] {
      assert w + Chars(rest[..0]) == w;
    } else {
      var c := rest[0].0;
      assert Survivors(states(w), c) == states(w + [c]);
      if states(w + [c]) == [] {
        assert w + Chars(rest[..0]) == w;
        assert w + Chars(rest[..1]) == w + [c];
      } else {
        MunchStates(states, w + [c], rest[1..]);
        MunchGenerationShift(w, rest, Munch(states(w + [c]), rest[1..]).1);
      }
    }
  }

  lemma MunchGenerationShift<Loc>(w: string, rest: seq<(char, Loc)>, k: nat)
    requires k < |rest|
    ensures w + Chars(rest[..k + 1]) == (w + [rest[0].0]) + Chars(rest[1..][..k])
    ensures k + 1 < |rest| ==> w + Chars(rest[..k + 2]) == (w + [rest[0].0]) + Chars(rest[1..][..k + 1])
  {
    CharsSplit(rest, k);
    if k + 1 < |rest| {
      CharsSplit(rest, k + 1);
    }
  }

  /** `n` characters of `rest` after `w0` are the longest stretch some rule can still match. */
  ghost predicate LongestAlive<T, Loc>(rules: seq<Rule<T>>, w0: string, rest: seq<(char, Loc)>, n: nat)
  {
    n <= |rest| && Alive(rules, w0 + Chars(rest[..n]))
    && (n < |rest| ==> !Alive(rules, w0 + Chars(rest[..n + 1])))
  }

  lemma AlivePrefix<T>(rules: seq<Rule<T>>, w: string, v: string)
    requires Alive(rules, w + v)
    ensures Alive(rules, w)
  {
    var i, s :| 0 <= i < |rules| && Regexes.Matches(rules[i].0, w + v + s);
    assert w + v + s == w + (v + s);
  }

  /** There is only one longest stretch. */
  lemma LongestAliveUnique<T, Loc>(rules: seq<Rule<T>>, w0: string, rest: seq<(char, Loc)>, n: nat, m: nat)
    requires LongestAlive(rules, w0, rest, n) && LongestAlive(rules, w0, rest, m)
    ensures n == m
  {
    if n < m {
      assert Chars(rest[..m]) == Chars(rest[..n + 1]) + Chars(rest[n + 1..m]);
      assert w0 + Chars(rest[..m]) == (w0 + Chars(rest[..n + 1])) + Chars(rest[n + 1..m]);
      AlivePrefix(rules, w0 + Chars(rest[..n + 1]), Chars(rest[n + 1..m]));
    } else if m < n {
      assert Chars(rest[..n]) == Chars(rest[..m + 1]) + Chars(rest[m + 1..n]);
      assert w0 + Chars(rest[..n]) == (w0 + Chars(rest[..m + 1])) + Chars(rest[m + 1..n]);
      AlivePrefix(rules, w0 + Chars(rest[..m + 1]), Chars(rest[m + 1..n]));
    }
  }

  ghost predicate RulesWellFormed<T>(rules: seq<Rule<T>>)
  {
    AllWellFormed(rules) && (forall i :: 0 <= i < |rules| ==> !rules[i].0.Empty?) && Alive(rules, [])
  }

  /** What the rules start from after the first character `ch`: `[ch]` if some rule can go on, else nothing. */
  ghost function StartText<T>(rules: seq<Rule<T>>, ch: char): string
  {
    if Alive(rules, [ch]) then [ch] else []
  }

  /**
   * Maximal munch.  After skipping whitespace, let `ch` be the first
   * character.  If some rule can match a string starting with `ch`, the
   * token text is `ch` followed by the longest stretch that keeps some rule
   * alive, and its type is the first rule matching that text.  If no rule
   * can, `ch` is still taken into the text, but the rules start afresh on
   * the characters after it.
   */
  lemma NextTokenMaximalMunch<Loc>(rules: seq<Rule<TokenType>>, input: seq<(char, Loc)>, parseFloat: string -> Option<real>)
    requires RulesWellFormed(rules)
    requires DropWhitespace(input) != []
    ensures var s := DropWhitespace(input);
            var w0 := StartText(rules, s[0].0);
            exists n: nat :: LongestAlive(rules, w0, s[1..], n)
                             && NextTokenSpec(rules, input, parseFloat) == MunchedToken(rules, w0, s, n, parseFloat)
  {
    var s := DropWhitespace(input);
    var w0 := StartText(rules, s[0].0);
    var n := NextTokenMunched(rules, input, parseFloat);
    assert LongestAlive(rules, w0, s[1..], n);
  }

  /** The witness of maximal munch: the count of characters munched after the first. */
  lemma NextTokenMunched<Loc>(rules: seq<Rule<TokenType>>, input: seq<(char, Loc)>, parseFloat: string -> Option<real>)
    returns (n: nat)
    requires RulesWellFormed(rules)
    requires DropWhitespace(input) != []
    ensures var s := DropWhitespace(input);
            var w0 := StartText(rules, s[0].0);
            && LongestAlive(rules, w0, s[1..], n)
            && NextTokenSpec(rules, input, parseFloat) == MunchedToken(rules, w0, s, n, parseFloat)
  {
    var s := DropWhitespace(input);
    var w0 := StartText(rules, s[0].0);
    StartGeneration(rules, s[0].0);
    MunchLongest(rules, w0, s[1..]);
    NextTokenSpecUnfold(rules, input, parseFloat);
    n := Munch(Generation(rules, w0), s[1..]).1;
  }

  /**
   * The token made of the first character of `s` and the `n` after it,
   * typed by the first rule matching `w0` followed by those `n`.
   */
  ghost function MunchedToken<Loc>(rules: seq<Rule<TokenType>>, w0: string, s: seq<(char, Loc)>, n: nat,
                                   parseFloat: string -> Option<real>): Step<Loc>
    requires n < |s|
  {
    TokenStepOf(FirstMatching(rules, w0 + Chars(s[1..][..n])), s, n, parseFloat)
  }

  /** The state after the first character is the generation of what the rules were fed. */
  lemma StartGeneration<T>(rules: seq<Rule<T>>, ch: char)
    requires RulesWellFormed(rules)
    ensures var fed := Survivors(rules, ch);
            (if fed == [] then rules else fed) == Generation(rules, StartText(rules, ch))
    ensures Generation(rules, StartText(rules, ch)) != []
  {
    GenerationStart(rules);
    GenerationStep(rules, [], ch);
    assert [] + [ch] == [ch];
    GenerationAlive(rules, [ch]);
    GenerationAlive(rules, []);
  }

  /** Munching from a live generation consumes the longest live stretch and reports its first match. */
  lemma MunchLongest<T, Loc>(rules: seq<Rule<T>>, w0: string, rest: seq<(char, Loc)>)
    requires AllWellFormed(rules) && Generation(rules, w0) != []
    ensures var m := Munch(Generation(rules, w0), rest);
            LongestAlive(rules, w0, rest, m.1) && FirstTerminal(m.0) == FirstMatching(rules, w0 + Chars(rest[..m.1]))
  {
    MunchGeneration(rules, w0, rest);
    var n := Munch(Generation(rules, w0), rest).1;
    var text := w0 + Chars(rest[..n]);
    GenerationAlive(rules, text);
    if n < |rest| {
      GenerationAlive(rules, w0 + Chars(rest[..n + 1]));
    }
    FirstTerminalGeneration(rules, text);
  }

  /**
   * When the first character can start a token, the token is the longest
   * prefix of the input (after whitespace) that some rule can still extend.
   */
  lemma NextTokenLongestPrefix<Loc>(rules: seq<Rule<TokenType>>, input: seq<(char, Loc)>, parseFloat: string -> Option<real>, len: nat)
    requires RulesWellFormed(rules)
    requires var s := DropWhitespace(input);
             && 1 <= len <= |s| && Alive(rules, Chars(s[..len]))
             && (len < |s| ==> !Alive(rules, Chars(s[..len + 1])))
    ensures var s := DropWhitespace(input);
            NextTokenSpec(rules, input, parseFloat)
            == Step(Conclude(FirstMatching(rules, Chars(s[..len])), Chars(s[..len]), s[0].1, s[len - 1].1, parseFloat),
                    s[len..])
  {
    var s := DropWhitespace(input);
    var w0 := [s[0].0];
    LongestPrefixAlive(rules, s, len);
    assert StartText(rules, s[0].0) == w0;
    var n := NextTokenMunched(rules, input, parseFloat);
    LongestAliveUnique(rules, w0, s[1..], n, len - 1);
  }

  /** A longest live prefix of `len` characters is `len - 1` live characters after the first. */
  lemma LongestPrefixAlive<T, Loc>(rules: seq<Rule<T>>, s: seq<(char, Loc)>, len: nat)
    requires 1 <= len <= |s| && Alive(rules, Chars(s[..len]))
    requires len < |s| ==> !Alive(rules, Chars(s[..len + 1]))
    ensures Alive(rules, [s[0].0])
    ensures LongestAlive(rules, [s[0].0], s[1..], len - 1)
    ensures [s[0].0] + Chars(s[1..][..len - 1]) == Chars(s[..len])
  {
    CharsSplit(s, len - 1);
    AlivePrefix(rules, [s[0].0], Chars(s[1..][..len - 1]));
    if len < |s| {
      CharsSplit(s, len);
    }
  }

  /** Whitespace in front of a token changes nothing. */
  lemma NextTokenSkipsWhitespace<Loc>(rules: seq<Rule<TokenType>>, input: seq<(char, Loc)>, parseFloat: string -> Option<real>)
    ensures NextTokenSpec(rules, input, parseFloat) == NextTokenSpec(rules, DropWhitespace(input), parseFloat)
  {
    var s := DropWhitespace(input);
    assert DropWhitespace(s) == s;
    if s != [] {
      NextTokenSpecUnfold(rules, input, parseFloat);
      NextTokenSpecUnfold(rules, s, parseFloat);
    }
  }

  // ---------------------------------------------------------------------
  // The languages of the five rules

  /** The identifier rule accepts the non-empty strings of identifier characters. */
  lemma IdentifierCorrect(isAlphanumeric: char -> bool, t: string)
    ensures Regexes.Matches(IdentifierRegex(isAlphanumeric), t) <==> IsIdentifierText(isAlphanumeric, t)
  {
    var cs := [Regexes.CharacterClass(IdentifierSymbols), Regexes.Predicate(isAlphanumeric)];
    var x := Regexes.AlternativesOf(cs);
    var q := c => IsIdentifierChar(isAlphanumeric, c);
    forall u ensures Regexes.Matches(x, u) <==> |u| == 1 && q(u[0]) {
      Regexes.AlternativesOfCorrect(cs, u);
      Regexes.CharacterClassCorrect(IdentifierSymbols, u);
      assert cs[0] == Regexes.CharacterClass(IdentifierSymbols) && cs[1] == Regexes.Literal(isAlphanumeric);
    }
    assert Regexes.Matches(x, "+") by {
      assert IdentifierSymbols[0] == '+';
      assert q('+');
    }
    assert !Regexes.Matches(x, []);
    Regexes.OneOrMoreSingleCorrect(x, q, t);
  }

  /** Facts about the rule list: each rule's language. */
  lemma TokenRulesLanguage(isAlphanumeric: char -> bool, t: string)
    ensures var rules := TokenRules(isAlphanumeric);
            && |rules| == 5
            && (Regexes.Matches(rules[0].0, t) <==> t == "(")
            && (Regexes.Matches(rules[1].0, t) <==> t == ")")
            && (Regexes.Matches(rules[2].0, t) <==> Regexes.IsIntegerText(t, 10))
            && (Regexes.Matches(rules[3].0, t) <==> Regexes.IsFloatText(t))
            && (Regexes.Matches(rules[4].0, t) <==> IsIdentifierText(isAlphanumeric, t))
  {
    Regexes.LiteralCharCorrect('(', t);
    Regexes.LiteralCharCorrect(')', t);
    Regexes.IntegerCorrect(10, t);
    Regexes.FloatCorrect(t);
    IdentifierCorrect(isAlphanumeric, t);
  }

  /** As long as some letter is alphanumeric, the rules are well formed and some rule can match. */
  lemma TokenRulesWellFormed(isAlphanumeric: char -> bool)
    requires isAlphanumeric('a')
    ensures RulesWellFormed(TokenRules(isAlphanumeric))
  {
    var rules := TokenRules(isAlphanumeric);
    Regexes.NumbersProductive(10);
    assert (x => x == '(')('(');
    assert (x => x == ')')(')');
    IdentifierProductive(isAlphanumeric);
    assert forall i :: 0 <= i < |rules| ==> Regexes.Productive(rules[i].0);
    assert Regexes.Matches(rules[0].0, [] + "(") by {
      Regexes.LiteralCharCorrect('(', "(");
      assert [] + "(" == "(";
    }
  }

  lemma IdentifierProductive(isAlphanumeric: char -> bool)
    requires isAlphanumeric('a')
    ensures Regexes.Productive(IdentifierRegex(isAlphanumeric))
  {
    var cs := [Regexes.CharacterClass(IdentifierSymbols), Regexes.Predicate(isAlphanumeric)];
    Regexes.CharacterClassProductive(IdentifierSymbols);
    assert Regexes.Productive(cs[1]);
    Regexes.AlternativesOfProductive(cs);
    Regexes.OneOrMoreProductive(Regexes.AlternativesOf(cs));
  }

  /** The first matching rule does match, and carries the tag reported. */
  lemma {:induction false} FirstMatchingSome<T>(rules: seq<Rule<T>>, w: string)
    requires FirstMatching(rules, w).Some?
    ensures exists i :: 0 <= i < |rules| && rules[i].1 == FirstMatching(rules, w).value && Regexes.Matches(rules[i].0, w)
    decreases |rules|
  {
    if !Regexes.Matches(rules[0].0, w) {
      FirstMatchingSome(rules[1..], w);
      var i :| 0 <= i < |rules[1..]| && rules[1..][i].1 == FirstMatching(rules[1..], w).value
                && Regexes.Matches(rules[1..][i].0, w);
      assert rules[i + 1] == rules[1..][i];
    }
  }

  /** Text the token rules type as a float is float text. */
  lemma FirstMatchingFloat(isAlphanumeric: char -> bool, w: string)
    requires FirstMatching(TokenRules(isAlphanumeric), w) == Some(TokenType.FloatingPointNumber)
    ensures Regexes.IsFloatText(w)
  {
    var rules := TokenRules(isAlphanumeric);
    FirstMatchingSome(rules, w);
    var i :| 0 <= i < |rules| && rules[i].1 == TokenType.FloatingPointNumber && Regexes.Matches(rules[i].0, w);
    assert i == 3;
    TokenRulesLanguage(isAlphanumeric, w);
  }

  /**
   * A float parser that accepts all float text (as `str::parse::<f64>`
   * does) rules out `FloatingPointNumberError`, provided some rule accepts
   * the token's first character.  When none does, that character is kept
   * in the token text (see `RejectedStartJoinsIdentifier`), and the text is
   * then no float text.
   */
  lemma NoFloatErrorAfterAcceptedStart<Loc>(isAlphanumeric: char -> bool, input: seq<(char, Loc)>,
                                            parseFloat: string -> Option<real>)
    requires isAlphanumeric('a')
    requires forall t :: Regexes.IsFloatText(t) ==> parseFloat(t).Some?
    requires var s := DropWhitespace(input); s != [] ==> Alive(TokenRules(isAlphanumeric), [s[0].0])
    ensures NextTokenSpec(TokenRules(isAlphanumeric), input, parseFloat).result != Err(FloatingPointNumberError)
  {
    var rules := TokenRules(isAlphanumeric);
    var s := DropWhitespace(input);
    if s != [] {
      TokenRulesWellFormed(isAlphanumeric);
      var n := NextTokenMunched(rules, input, parseFloat);
      assert StartText(rules, s[0].0) == [s[0].0];
      HeadChars(s, n);
      ConcludeNoFloatError(isAlphanumeric, Chars(s[..n + 1]), parseFloat, s[0].1, s[n].1);
    }
  }

  /** The first character followed by the `n` after it. */
  lemma HeadChars<Loc>(s: seq<(char, Loc)>, n: nat)
    requires n < |s|
    ensures [s[0].0] + Chars(s[1..][..n]) == Chars(s[..n + 1])
  {
  }

  /** Concluding a token typed by the token rules gives no float error when all float text parses. */
  lemma ConcludeNoFloatError<Loc>(isAlphanumeric: char -> bool, w: string, parseFloat: string -> Option<real>,
                                  start: Loc, last: Loc)
    requires forall t :: Regexes.IsFloatText(t) ==> parseFloat(t).Some?
    ensures Conclude(FirstMatching(TokenRules(isAlphanumeric), w), w, start, last, parseFloat) != Err(FloatingPointNumberError)
  {
    if FirstMatching(TokenRules(isAlphanumeric), w) == Some(TokenType.FloatingPointNumber) {
      FirstMatchingFloat(isAlphanumeric, w);
    }
  }

  /**
   * A first character that no rule accepts is not reported: the rules
   * start afresh after it, and it becomes the head of the token text.  An
   * identifier produced this way is no identifier text.
   */
  lemma RejectedStartJoinsIdentifier<Loc>(isAlphanumeric: char -> bool, input: seq<(char, Loc)>,
                                          parseFloat: string -> Option<real>, text: string, start: Loc, last: Loc)
    requires var s := DropWhitespace(input); s != [] && !Alive(TokenRules(isAlphanumeric), [s[0].0])
    requires NextTokenSpec(TokenRules(isAlphanumeric), input, parseFloat).result
             == Ok(Some((Token.Identifier(text), start, last)))
    ensures text != [] && text[0] == DropWhitespace(input)[0].0
    ensures !IsIdentifierText(isAlphanumeric, text)
  {
    var s := DropWhitespace(input);
    NextTokenSpecUnfold(TokenRules(isAlphanumeric), input, parseFloat);
    var fed := Survivors(TokenRules(isAlphanumeric), s[0].0);
    var m := Munch(if fed == [] then TokenRules(isAlphanumeric) else fed, s[1..]);
    ConcludeIdentifierText(FirstTerminal(m.0), Chars(s[..m.1 + 1]), parseFloat, s[0].1, s[m.1].1, text, start, last);
    RejectedNotIdentifierChar(isAlphanumeric, s[0].0);
  }

  /** A concluded identifier token is the text it was concluded from. */
  lemma ConcludeIdentifierText<Loc>(current: Option<TokenType>, w: string, parseFloat: string -> Option<real>,
                                    a: Loc, b: Loc, text: string, start: Loc, last: Loc)
    requires Conclude(current, w, a, b, parseFloat) == Ok(Some((Token.Identifier(text), start, last)))
    ensures text == w
  {
  }

  /** A character no token rule accepts is no identifier character. */
  lemma RejectedNotIdentifierChar(isAlphanumeric: char -> bool, c: char)
    requires !Alive(TokenRules(isAlphanumeric), [c])
    ensures !IsIdentifierChar(isAlphanumeric, c)
  {
    TokenRulesLanguage(isAlphanumeric, [c]);
    assert [c] + [] == [c];
  }

}
