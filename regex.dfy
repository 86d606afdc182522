/**
 * Regular expressions matched by Brzozowski derivatives (src/regex/mod.rs).
 *
 * A regular expression is fed one character at a time; `Feed` returns the
 * derivative (what is left to match), and `IsTerminal` says whether the
 * empty string is accepted.  The smart constructors `SequenceOf`,
 * `AlternativesOf` and `KleeneOf` simplify as the source's constructors do.
 *
 * The meaning of an expression is given independently by `Matches`, a
 * denotational semantics; the lemmas prove that feeding a string and then
 * asking `IsTerminal` decides exactly `Matches`.
 */
module Regexes {
  import opened Wrappers

  /** The expression tree; a literal carries the character predicate it accepts. */
  datatype RegexImp =
    | Empty
    | Epsilon
    | Literal(accepts: char -> bool)
    | Sequence(first: RegexImp, second: RegexImp)
    | Alternatives(left: RegexImp, right: RegexImp)
    | Kleene(body: RegexImp)

  // ---------------------------------------------------------------------
  // Reference semantics

  /** The set of strings an expression denotes. */
  ghost predicate Matches(r: RegexImp, s: string)
    decreases r, |s|
  {
    match r
    case Empty => false
    case Epsilon => s == []
    case Literal(p) => |s| == 1 && p(s[0])
    case Sequence(x, y) =>
      exists k :: 0 <= k <= |s| && Matches(x, s[..k]) && Matches(y, s[k..])
    case Alternatives(x, y) => Matches(x, s) || Matches(y, s)
    case Kleene(x) =>
      s == [] || exists k :: 1 <= k <= |s| && Matches(x, s[..k]) && Matches(r, s[k..])
  }

  /** Concatenation of a list of expressions, nested to the left as the constructors nest it. */
  ghost predicate MatchesAll(rs: seq<RegexImp>, s: string)
    decreases |rs|
  {
    if rs == [] then s == []
    else exists k :: 0 <= k <= |s| && MatchesAll(rs[..|rs| - 1], s[..k]) && Matches(rs[|rs| - 1], s[k..])
  }

  // ---------------------------------------------------------------------
  // The matcher

  /** Whether the expression accepts the empty string (`is_terminal`). */
  predicate IsTerminal(r: RegexImp)
  {
    match r
    case Empty => false
    case Epsilon => true
    case Literal(_) => false
    case Sequence(x, y) => IsTerminal(x) && IsTerminal(y)
    case Alternatives(x, y) => IsTerminal(x) || IsTerminal(y)
    case Kleene(_) => true
  }

  /** The derivative of `r` with respect to `c` (`feed`). */
  function Feed(r: RegexImp, c: char): RegexImp
  {
    match r
    case Empty => Empty
    case Epsilon => Empty
    case Literal(p) => if p(c) then Epsilon else Empty
    case Sequence(x, y) =>
      var head := SequenceOf([Feed(x, c), y]);
      AlternativesOf(if IsTerminal(x) then [head, Feed(y, c)] else [head])
    case Alternatives(x, y) => AlternativesOf([Feed(x, c), Feed(y, c)])
    case Kleene(x) => SequenceOf([Feed(x, c), KleeneOf(x)])
  }

  /** One step of the `sequence` loop: the accumulated expression extended by a child. */
  function SequenceStep(acc: RegexImp, child: RegexImp): RegexImp
  {
    if acc.Empty? || child.Empty? then Empty
    else if acc.Epsilon? then child
    else if child.Epsilon? then acc
    else Sequence(acc, child)
  }

  /** What `sequence` builds from its children: a left fold starting from Epsilon. */
  function SequenceOf(children: seq<RegexImp>): RegexImp
  {
    if children == [] then Epsilon
    else SequenceStep(SequenceOf(children[..|children| - 1]), children[|children| - 1])
  }

  /** One step of the `alternatives` loop over (result, contains_epsilon). */
  function AlternativesStep(acc: (RegexImp, bool), child: RegexImp): (RegexImp, bool)
  {
    if acc.0.Empty? then (child, acc.1)
    else if child.Epsilon? then
      (if !acc.1 then (Alternatives(acc.0, child), true) else acc)
    else (Alternatives(acc.0, child), acc.1)
  }

  /** The state of the `alternatives` loop after all children. */
  function AlternativesFold(children: seq<RegexImp>): (RegexImp, bool)
  {
    if children == [] then (Empty, false)
    else AlternativesStep(AlternativesFold(children[..|children| - 1]), children[|children| - 1])
  }

  /** What `alternatives` builds from its children. */
  function AlternativesOf(children: seq<RegexImp>): RegexImp
  {
    AlternativesFold(children).0
  }

  /** The `kleene` smart constructor. */
  function KleeneOf(child: RegexImp): (r: RegexImp)
    ensures child.Empty? || child.Epsilon? ==> r == Epsilon
    ensures !(child.Empty? || child.Epsilon?) ==> r == Kleene(child)
  {
    if child.Empty? || child.Epsilon? then Epsilon else Kleene(child)
  }

  /** The `sequence` constructor as the source writes it: a loop with an early exit. */
  method MakeSequence(children: seq<RegexImp>) returns (result: RegexImp)
    ensures result == SequenceOf(children)
    ensures result.Empty? <==> exists i :: 0 <= i < |children| && children[i].Empty?
  {
    result := Epsilon;
    for i := 0 to |children|
      invariant result == SequenceOf(children[..i])
      invariant !result.Empty?
    {
      var child := children[i];
      assert children[..i + 1][..i] == children[..i];
      if child.Empty? {
        SequenceOfEmpty(children);
        return Empty;
      } else if result.Epsilon? {
        result := child;
      } else if !child.Epsilon? {
        result := Sequence(result, child);
      }
    }
    assert children[..|children|] == children;
    SequenceOfEmpty(children);
  }

  /** The `alternatives` constructor as the source writes it. */
  method MakeAlternatives(children: seq<RegexImp>) returns (result: RegexImp)
    ensures result == AlternativesOf(children)
    ensures result.Empty? <==> forall i :: 0 <= i < |children| ==> children[i].Empty?
  {
    result := Empty;
    var containsEpsilon := false;
    for i := 0 to |children|
      invariant (result, containsEpsilon) == AlternativesFold(children[..i])
    {
      var child := children[i];
      assert children[..i + 1][..i] == children[..i];
      if result.Empty? {
        result := child;
      } else {
        if child.Epsilon? {
          if !containsEpsilon {
            containsEpsilon := true;
            result := Alternatives(result, child);
          }
        } else {
          result := Alternatives(result, child);
        }
      }
    }
    assert children[..|children|] == children;
    AlternativesOfEmpty(children);
  }

  /** `try_feed`: the derivative, or None when it is the Empty node. */
  function TryFeed(r: RegexImp, c: char): (d: Option<RegexImp>)
    ensures d.None? <==> Feed(r, c).Empty?
    ensures d.None? ==> forall s :: !Matches(r, [c] + s)
    ensures d.Some? ==> forall s :: Matches(d.value, s) <==> Matches(r, [c] + s)
  {
    FeedCorrectAll(r, c);
    var imp := Feed(r, c);
    if imp.Empty? then None else Some(imp)
  }

  /**
   * The public wrapper around an expression tree.  `feed_mut` replaces the
   * tree by its derivative in place.
   */
  class Regex {
    var imp: RegexImp

    constructor(imp: RegexImp)
      ensures this.imp == imp
    {
      this.imp := imp;
    }

    method FeedMut(c: char)
      modifies this
      ensures imp == Feed(old(imp), c)
      ensures forall s :: Matches(imp, s) <==> Matches(old(imp), [c] + s)
    {
      FeedCorrectAll(imp, c);
      imp := Feed(imp, c);
    }
  }

  /** Whether Empty occurs anywhere in the tree (`does_not_contain_empty`). */
  predicate DoesNotContainEmpty(r: RegexImp)
  {
    match r
    case Empty => false
    case Epsilon => true
    case Literal(_) => true
    case Sequence(x, y) => DoesNotContainEmpty(x) && DoesNotContainEmpty(y)
    case Alternatives(x, y) => DoesNotContainEmpty(x) && DoesNotContainEmpty(y)
    case Kleene(x) => DoesNotContainEmpty(x)
  }

  /** The debug assertion of `Regex::new`: Empty may only appear as the whole tree. */
  predicate NoInnerEmpty(r: RegexImp)
  {
    r.Empty? || DoesNotContainEmpty(r)
  }

  /** `sequence` of Empty-free children is Empty-free, so `Regex::sequence` keeps the assertion. */
  lemma {:induction false} SequenceOfNoInnerEmpty(children: seq<RegexImp>)
    requires forall i :: 0 <= i < |children| ==> DoesNotContainEmpty(children[i])
    ensures DoesNotContainEmpty(SequenceOf(children))
  {
    if children != [] {
      var prefix := children[..|children| - 1];
      assert forall i :: 0 <= i < |prefix| ==> prefix[i] == children[i];
      SequenceOfNoInnerEmpty(prefix);
    }
  }

  /** `alternatives` of Empty-free children is Empty-free or, for no children, Empty. */
  lemma {:induction false} AlternativesOfNoInnerEmpty(children: seq<RegexImp>)
    requires forall i :: 0 <= i < |children| ==> DoesNotContainEmpty(children[i])
    ensures NoInnerEmpty(AlternativesOf(children))
    ensures children != [] ==> DoesNotContainEmpty(AlternativesOf(children))
  {
    if children != [] {
      var prefix := children[..|children| - 1];
      assert forall i :: 0 <= i < |prefix| ==> prefix[i] == children[i];
      AlternativesOfNoInnerEmpty(prefix);
      if prefix == [] {
        assert AlternativesOf(children) == children[0];
      }
    }
  }

  /**
   * `feed` does not keep the assertion: the derivative of `a|b` by 'a' is
   * Alternatives(Epsilon, Empty).  `feed` and `try_feed` build their result
   * without `Regex::new`, so the assertion is never checked on derivatives.
   */
  lemma FeedMayCreateInnerEmpty()
    ensures var r := AlternativesOf([LiteralChar('a'), LiteralChar('b')]);
            NoInnerEmpty(r) && !NoInnerEmpty(Feed(r, 'a'))
  {
    var r := AlternativesOf([LiteralChar('a'), LiteralChar('b')]);
    assert [LiteralChar('a'), LiteralChar('b')][..1] == [LiteralChar('a')];
    assert [LiteralChar('a')][..0] == [];
    assert r == Alternatives(LiteralChar('a'), LiteralChar('b'));
    var d := [Epsilon, Empty];
    assert d[..1] == [Epsilon] && [Epsilon][..0] == [];
    assert Feed(r, 'a') == Alternatives(Epsilon, Empty);
  }

  /** Feeding a whole string, character by character, as the tests do with `feed_mut`. */
  function FeedString(r: RegexImp, s: string): RegexImp
    decreases |s|
  {
    if s == [] then r else FeedString(Feed(r, s[0]), s[1..])
  }

  /** Whether the string is accepted: feed it, then ask `is_terminal`. */
  predicate Accepts(r: RegexImp, s: string)
  {
    IsTerminal(FeedString(r, s))
  }

  // ---------------------------------------------------------------------
  // Public constructors of `Regex`

  /** `Regex::predicate`: one character satisfying `p`. */
  function Predicate(p: char -> bool): RegexImp
  {
    Literal(p)
  }

  /** `Regex::literal`: exactly the character `ch`. */
  function LiteralChar(ch: char): RegexImp
  {
    Literal(x => x == ch)
  }

  /** `Regex::optional`. */
  function Optional(child: RegexImp): RegexImp
  {
    AlternativesOf([Epsilon, child])
  }

  /** `Regex::character_class`: any one of the given characters. */
  function CharacterClass(chars: seq<char>): RegexImp
  {
    AlternativesOf(seq(|chars|, i requires 0 <= i < |chars| => LiteralChar(chars[i])))
  }

  /** `Regex::one_or_more`. */
  function OneOrMore(r: RegexImp): RegexImp
  {
    SequenceOf([r, KleeneOf(r)])
  }

  /** The value of an ASCII digit or letter as `char::to_digit` reads it (36 for anything else). */
  function DigitValue(c: char): nat
  {
    if '0' <= c <= '9' then c as nat - '0' as nat
    else if 'a' <= c <= 'z' then c as nat - 'a' as nat + 10
    else if 'A' <= c <= 'Z' then c as nat - 'A' as nat + 10
    else 36
  }

  /** `char::is_digit(radix)`; the standard library panics outside 2..36. */
  predicate IsDigit(c: char, radix: nat)
    requires 2 <= radix <= 36
  {
    DigitValue(c) < radix
  }

  /** `Regex::digit`. */
  function Digit(radix: nat): RegexImp
    requires 2 <= radix <= 36
  {
    Literal(c => IsDigit(c, radix))
  }

  /** `Regex::positive_integer`. */
  function PositiveInteger(radix: nat): RegexImp
    requires 2 <= radix <= 36
  {
    OneOrMore(Digit(radix))
  }

  /** `Regex::integer`: an optional minus sign, then digits. */
  function Integer(radix: nat): RegexImp
    requires 2 <= radix <= 36
  {
    SequenceOf([Optional(LiteralChar('-')), PositiveInteger(radix)])
  }

  /** `Regex::float`: a decimal integer, a dot, and decimal digits. */
  function Float(): RegexImp
  {
    SequenceOf([Integer(10), LiteralChar('.'), PositiveInteger(10)])
  }

  // ---------------------------------------------------------------------
  // Independent descriptions of the languages of the public constructors

  predicate AllDigits(s: string, radix: nat)
    requires 2 <= radix <= 36
  {
    forall i :: 0 <= i < |s| ==> IsDigit(s[i], radix)
  }

  /** Text of an integer literal: digits, optionally preceded by '-'. */
  predicate IsIntegerText(s: string, radix: nat)
    requires 2 <= radix <= 36
  {
    (|s| >= 1 && AllDigits(s, radix)) || (|s| >= 2 && s[0] == '-' && AllDigits(s[1..], radix))
  }

  /** Text of a float literal: integer text, '.', at least one decimal digit. */
  predicate IsFloatText(s: string)
  {
    exists k :: 0 <= k < |s| - 1 && IsIntegerText(s[..k], 10) && s[k] == '.' && AllDigits(s[k + 1..], 10)
  }

  // ---------------------------------------------------------------------
  // Correctness of the matcher

  /** `is_terminal` is nullability: it holds exactly when the empty string matches. */
  lemma {:induction false} TerminalCorrect(r: RegexImp)
    ensures IsTerminal(r) <==> Matches(r, [])
  {
    var e: string := [];
    match r
    case Empty =>
    case Epsilon =>
    case Literal(_) =>
    case Sequence(x, y) =>
      TerminalCorrect(x);
      TerminalCorrect(y);
      assert e[..0] == e && e[0..] == e;
      if IsTerminal(x) && IsTerminal(y) {
        assert Matches(x, e[..0]) && Matches(y, e[0..]);
      }
    case Alternatives(x, y) =>
      TerminalCorrect(x);
      TerminalCorrect(y);
    case Kleene(_) =>
  }

  /** A list containing Empty makes `sequence` return Empty, and only then. */
  lemma {:induction false} SequenceOfEmpty(children: seq<RegexImp>)
    ensures SequenceOf(children).Empty? <==> exists i :: 0 <= i < |children| && children[i].Empty?
  {
    if children != [] {
      var prefix := children[..|children| - 1];
      SequenceOfEmpty(prefix);
      if exists i :: 0 <= i < |prefix| && prefix[i].Empty? {
        var i :| 0 <= i < |prefix| && prefix[i].Empty?;
        assert children[i].Empty?;
      }
      if exists i :: 0 <= i < |children| && children[i].Empty? {
        var i :| 0 <= i < |children| && children[i].Empty?;
        if i < |prefix| {
          assert prefix[i].Empty?;
        }
      }
    }
  }

  /** `alternatives` returns Empty exactly when every child is Empty (in particular for none). */
  lemma {:induction false} AlternativesOfEmpty(children: seq<RegexImp>)
    ensures AlternativesOf(children).Empty? <==> forall i :: 0 <= i < |children| ==> children[i].Empty?
  {
    if children != [] {
      var prefix := children[..|children| - 1];
      AlternativesOfEmpty(prefix);
      if forall i :: 0 <= i < |children| ==> children[i].Empty? {
        assert forall i :: 0 <= i < |prefix| ==> prefix[i] == children[i];
      }
      if AlternativesOf(children).Empty? && !AlternativesFold(prefix).0.Empty? {
        // an Alternatives node is never Empty
        assert false;
      }
      if AlternativesOf(children).Empty? {
        forall i | 0 <= i < |children| ensures children[i].Empty? {
          if i < |prefix| {
            assert prefix[i] == children[i];
          }
        }
      }
    }
  }

  lemma MatchesAllSingle(a: RegexImp, t: string)
    ensures MatchesAll([a], t) <==> Matches(a, t)
  {
    var one := [a];
    assert one[..0] == [];
    if Matches(a, t) {
      assert t[..0] == [] && t[0..] == t;
      assert MatchesAll(one[..0], t[..0]) && Matches(one[0], t[0..]);
    }
  }

  /** `sequence` denotes the concatenation of its children. */
  lemma {:induction false} SequenceOfCorrect(cs: seq<RegexImp>, s: string)
    ensures Matches(SequenceOf(cs), s) <==> MatchesAll(cs, s)
    decreases |cs|
  {
    if cs != [] {
      var p := cs[..|cs| - 1];
      var ch := cs[|cs| - 1];
      var acc := SequenceOf(p);
      forall t ensures Matches(acc, t) <==> MatchesAll(p, t) {
        SequenceOfCorrect(p, t);
      }
      if acc.Empty? {
        assert !MatchesAll(cs, s);
      } else if ch.Empty? {
      } else if acc.Epsilon? {
        if Matches(ch, s) {
          assert s[..0] == [] && s[0..] == s;
          assert MatchesAll(p, s[..0]) && Matches(ch, s[0..]);
        }
        if MatchesAll(cs, s) {
          var k :| 0 <= k <= |s| && MatchesAll(p, s[..k]) && Matches(ch, s[k..]);
          assert s[..k] == [];
          assert k == 0;
          assert s[k..] == s;
        }
      } else if ch.Epsilon? {
        if Matches(acc, s) {
          assert s[..|s|] == s && s[|s|..] == [];
          assert MatchesAll(p, s[..|s|]) && Matches(ch, s[|s|..]);
        }
        if MatchesAll(cs, s) {
          var k :| 0 <= k <= |s| && MatchesAll(p, s[..k]) && Matches(ch, s[k..]);
          assert k == |s|;
          assert s[..k] == s;
        }
      } else {
        assert SequenceOf(cs) == Sequence(acc, ch);
      }
    }
  }

  /** `sequence` of two children denotes their concatenation. */
  lemma SequencePairCorrect(a: RegexImp, b: RegexImp, s: string)
    ensures Matches(SequenceOf([a, b]), s) <==>
            exists k :: 0 <= k <= |s| && Matches(a, s[..k]) && Matches(b, s[k..])
  {
    SequenceOfCorrect([a, b], s);
    assert [a, b][..1] == [a];
    forall t ensures MatchesAll([a], t) <==> Matches(a, t) {
      MatchesAllSingle(a, t);
    }
  }

  /** With contains_epsilon set, the accumulated result already accepts the empty string. */
  lemma {:induction false} AlternativesFoldEpsilon(cs: seq<RegexImp>)
    ensures AlternativesFold(cs).1 ==> Matches(AlternativesFold(cs).0, [])
  {
    if cs != [] {
      AlternativesFoldEpsilon(cs[..|cs| - 1]);
    }
  }

  /** `alternatives` denotes the union of its children. */
  lemma {:induction false} AlternativesOfCorrect(cs: seq<RegexImp>, s: string)
    ensures Matches(AlternativesOf(cs), s) <==> exists i :: 0 <= i < |cs| && Matches(cs[i], s)
    decreases |cs|
  {
    if cs != [] {
      var p := cs[..|cs| - 1];
      var ch := cs[|cs| - 1];
      AlternativesOfCorrect(p, s);
      AlternativesFoldEpsilon(p);
      assert forall i :: 0 <= i < |p| ==> p[i] == cs[i];
      if exists i :: 0 <= i < |cs| && Matches(cs[i], s) {
        var i :| 0 <= i < |cs| && Matches(cs[i], s);
        if i < |p| {
          assert Matches(p[i], s);
        }
      }
    }
  }

  /** `kleene` of Empty or Epsilon is Epsilon, which denotes what the star would. */
  lemma KleeneOfCorrect(x: RegexImp, s: string)
    ensures Matches(KleeneOf(x), s) <==> Matches(Kleene(x), s)
  {
  }

  /** Brzozowski's theorem: the derivative denotes the strings that follow `c`. */
  lemma {:induction false} FeedCorrect(r: RegexImp, c: char, s: string)
    ensures Matches(Feed(r, c), s) <==> Matches(r, [c] + s)
    decreases r, 1
  {
    match r
    case Empty =>
    case Epsilon =>
    case Literal(p) =>
      assert ([c] + s)[0] == c && |[c] + s| == |s| + 1;
      if p(c) {
        assert Feed(r, c) == Epsilon;
      } else {
        assert Feed(r, c) == Empty;
      }
    case Alternatives(x, y) =>
      FeedCorrect(x, c, s);
      FeedCorrect(y, c, s);
      var alts := [Feed(x, c), Feed(y, c)];
      AlternativesOfCorrect(alts, s);
      assert alts[0] == Feed(x, c) && alts[1] == Feed(y, c);
    case Sequence(x, y) =>
      FeedSequenceForward(x, y, c, s);
      FeedSequenceBackward(x, y, c, s);
    case Kleene(x) =>
      FeedKleeneForward(x, c, s);
      FeedKleeneBackward(x, c, s);
  }

  /** The derivative of a sequence, as the alternatives it builds. */
  lemma FeedSequenceShape(x: RegexImp, y: RegexImp, c: char, s: string)
    ensures Matches(Feed(Sequence(x, y), c), s) <==>
            Matches(SequenceOf([Feed(x, c), y]), s) || (IsTerminal(x) && Matches(Feed(y, c), s))
  {
    var head := SequenceOf([Feed(x, c), y]);
    if IsTerminal(x) {
      var alts := [head, Feed(y, c)];
      AlternativesOfCorrect(alts, s);
      assert alts[0] == head && alts[1] == Feed(y, c);
    } else {
      AlternativesOfCorrect([head], s);
      assert [head][0] == head;
    }
  }

  lemma {:induction false} FeedSequenceForward(x: RegexImp, y: RegexImp, c: char, s: string)
    ensures Matches(Feed(Sequence(x, y), c), s) ==> Matches(Sequence(x, y), [c] + s)
    decreases Sequence(x, y), 0
  {
    var cs := [c] + s;
    var dx := Feed(x, c);
    FeedSequenceShape(x, y, c, s);
    SequencePairCorrect(dx, y, s);
    if Matches(SequenceOf([dx, y]), s) {
      var j :| 0 <= j <= |s| && Matches(dx, s[..j]) && Matches(y, s[j..]);
      FeedCorrect(x, c, s[..j]);
      assert cs[..j + 1] == [c] + s[..j] && cs[j + 1..] == s[j..];
      assert Matches(x, cs[..j + 1]) && Matches(y, cs[j + 1..]);
    } else if IsTerminal(x) && Matches(Feed(y, c), s) {
      TerminalCorrect(x);
      FeedCorrect(y, c, s);
      assert cs[..0] == [] && cs[0..] == cs;
      assert Matches(x, cs[..0]) && Matches(y, cs[0..]);
    }
  }

  lemma {:induction false} FeedSequenceBackward(x: RegexImp, y: RegexImp, c: char, s: string)
    ensures Matches(Sequence(x, y), [c] + s) ==> Matches(Feed(Sequence(x, y), c), s)
    decreases Sequence(x, y), 0
  {
    var cs := [c] + s;
    var dx := Feed(x, c);
    FeedSequenceShape(x, y, c, s);
    if Matches(Sequence(x, y), cs) {
      var k :| 0 <= k <= |cs| && Matches(x, cs[..k]) && Matches(y, cs[k..]);
      if k == 0 {
        assert cs[..0] == [] && cs[0..] == cs;
        TerminalCorrect(x);
        FeedCorrect(y, c, s);
      } else {
        var j := k - 1;
        assert cs[..k] == [c] + s[..j] && cs[k..] == s[j..];
        FeedCorrect(x, c, s[..j]);
        SequencePairCorrect(dx, y, s);
        assert Matches(dx, s[..j]) && Matches(y, s[j..]);
      }
    }
  }

  lemma {:induction false} FeedKleeneForward(x: RegexImp, c: char, s: string)
    ensures Matches(Feed(Kleene(x), c), s) ==> Matches(Kleene(x), [c] + s)
    decreases Kleene(x), 0
  {
    var cs := [c] + s;
    var dx := Feed(x, c);
    SequencePairCorrect(dx, KleeneOf(x), s);
    if Matches(Feed(Kleene(x), c), s) {
      var j :| 0 <= j <= |s| && Matches(dx, s[..j]) && Matches(KleeneOf(x), s[j..]);
      FeedCorrect(x, c, s[..j]);
      KleeneOfCorrect(x, s[j..]);
      assert cs[..j + 1] == [c] + s[..j] && cs[j + 1..] == s[j..];
      assert Matches(x, cs[..j + 1]) && Matches(Kleene(x), cs[j + 1..]);
    }
  }

  lemma {:induction false} FeedKleeneBackward(x: RegexImp, c: char, s: string)
    ensures Matches(Kleene(x), [c] + s) ==> Matches(Feed(Kleene(x), c), s)
    decreases Kleene(x), 0
  {
    var cs := [c] + s;
    var dx := Feed(x, c);
    if Matches(Kleene(x), cs) {
      var k :| 1 <= k <= |cs| && Matches(x, cs[..k]) && Matches(Kleene(x), cs[k..]);
      var j := k - 1;
      assert cs[..k] == [c] + s[..j] && cs[k..] == s[j..];
      FeedCorrect(x, c, s[..j]);
      KleeneOfCorrect(x, s[j..]);
      SequencePairCorrect(dx, KleeneOf(x), s);
      assert Matches(dx, s[..j]) && Matches(KleeneOf(x), s[j..]);
    }
  }

  lemma FeedCorrectAll(r: RegexImp, c: char)
    ensures forall s :: Matches(Feed(r, c), s) <==> Matches(r, [c] + s)
  {
    forall s ensures Matches(Feed(r, c), s) <==> Matches(r, [c] + s) {
      FeedCorrect(r, c, s);
    }
  }

  /** Feeding a string and then testing `is_terminal` decides membership. */
  lemma {:induction false} AcceptsCorrect(r: RegexImp, s: string)
    ensures Accepts(r, s) <==> Matches(r, s)
    decreases |s|
  {
    if s == [] {
      TerminalCorrect(r);
    } else {
      AcceptsCorrect(Feed(r, s[0]), s[1..]);
      FeedCorrect(r, s[0], s[1..]);
      assert [s[0]] + s[1..] == s;
    }
  }

  /** Feeding a whole string denotes the strings that may follow it. */
  lemma {:induction false} FeedStringMatches(r: RegexImp, w: string, s: string)
    ensures Matches(FeedString(r, w), s) <==> Matches(r, w + s)
    decreases |w|
  {
    if w == [] {
      assert w + s == s;
    } else {
      FeedStringMatches(Feed(r, w[0]), w[1..], s);
      FeedCorrect(r, w[0], w[1..] + s);
      assert [w[0]] + (w[1..] + s) == w + s;
    }
  }

  /** Feeding one more character is one more derivative. */
  lemma {:induction false} FeedStringSnoc(r: RegexImp, w: string, c: char)
    ensures FeedString(r, w + [c]) == Feed(FeedString(r, w), c)
    decreases |w|
  {
    if w == [] {
      assert w + [c] == [c];
    } else {
      assert (w + [c])[0] == w[0] && (w + [c])[1..] == w[1..] + [c];
      FeedStringSnoc(Feed(r, w[0]), w[1..], c);
    }
  }

  // ---------------------------------------------------------------------
  // Productive expressions: a tree that is not Empty matches some string

  /** Every literal accepts some character, and Empty never hides as the only branch. */
  ghost predicate Productive(r: RegexImp)
  {
    match r
    case Empty => false
    case Epsilon => true
    case Literal(p) => exists c :: p(c)
    case Sequence(x, y) => Productive(x) && Productive(y)
    case Alternatives(x, y) =>
      (x.Empty? || Productive(x)) && (y.Empty? || Productive(y)) && (Productive(x) || Productive(y))
    case Kleene(x) => x.Empty? || Productive(x)
  }

  ghost predicate WellFormed(r: RegexImp)
  {
    r.Empty? || Productive(r)
  }

  /** A productive expression denotes a non-empty language. */
  lemma {:induction false} ProductiveInhabited(r: RegexImp)
    requires Productive(r)
    ensures exists s :: Matches(r, s)
  {
    match r
    case Epsilon =>
      assert Matches(r, []);
    case Literal(p) =>
      var c :| p(c);
      assert Matches(r, [c]);
    case Sequence(x, y) =>
      ProductiveInhabited(x);
      ProductiveInhabited(y);
      var sx :| Matches(x, sx);
      var sy :| Matches(y, sy);
      var s := sx + sy;
      assert s[..|sx|] == sx && s[|sx|..] == sy;
      assert Matches(r, s);
    case Alternatives(x, y) =>
      if Productive(x) {
        ProductiveInhabited(x);
        var s :| Matches(x, s);
        assert Matches(r, s);
      } else {
        ProductiveInhabited(y);
        var s :| Matches(y, s);
        assert Matches(r, s);
      }
    case Kleene(_) =>
      assert Matches(r, []);
  }

  lemma {:induction false} AlternativesOfWellFormed(cs: seq<RegexImp>)
    requires forall i :: 0 <= i < |cs| ==> WellFormed(cs[i])
    ensures WellFormed(AlternativesOf(cs))
  {
    if cs != [] {
      var prefix := cs[..|cs| - 1];
      assert forall i :: 0 <= i < |prefix| ==> prefix[i] == cs[i];
      AlternativesOfWellFormed(prefix);
      assert WellFormed(cs[|cs| - 1]);
    }
  }

  lemma SequenceOfPairWellFormed(a: RegexImp, b: RegexImp)
    requires WellFormed(a) && Productive(b)
    ensures WellFormed(SequenceOf([a, b]))
  {
    assert [a, b][..1] == [a] && [a][..0] == [];
    assert SequenceOf([a]) == a;
  }

  /** Derivatives of well-formed expressions are well-formed. */
  lemma {:induction false} FeedWellFormed(r: RegexImp, c: char)
    requires WellFormed(r)
    ensures WellFormed(Feed(r, c))
  {
    match r
    case Empty =>
    case Epsilon =>
    case Literal(_) =>
    case Sequence(x, y) =>
      FeedWellFormed(x, c);
      FeedWellFormed(y, c);
      var head := SequenceOf([Feed(x, c), y]);
      SequenceOfPairWellFormed(Feed(x, c), y);
      if IsTerminal(x) {
        var alts := [head, Feed(y, c)];
        assert alts[0] == head && alts[1] == Feed(y, c);
        AlternativesOfWellFormed(alts);
      } else {
        AlternativesOfWellFormed([head]);
      }
    case Alternatives(x, y) =>
      FeedWellFormed(x, c);
      FeedWellFormed(y, c);
      var alts := [Feed(x, c), Feed(y, c)];
      assert alts[0] == Feed(x, c) && alts[1] == Feed(y, c);
      AlternativesOfWellFormed(alts);
    case Kleene(x) =>
      FeedWellFormed(x, c);
      SequenceOfPairWellFormed(Feed(x, c), KleeneOf(x));
  }

  lemma {:induction false} FeedStringWellFormed(r: RegexImp, w: string)
    requires WellFormed(r)
    ensures WellFormed(FeedString(r, w))
    decreases |w|
  {
    if w != [] {
      FeedWellFormed(r, w[0]);
      FeedStringWellFormed(Feed(r, w[0]), w[1..]);
    }
  }

  /**
   * For a well-formed expression, the derivative by `w` is the Empty node
   * exactly when no string starting with `w` matches.
   */
  lemma FeedStringDead(r: RegexImp, w: string)
    requires WellFormed(r)
    ensures FeedString(r, w).Empty? <==> forall s :: !Matches(r, w + s)
  {
    FeedStringWellFormed(r, w);
    forall s ensures Matches(FeedString(r, w), s) <==> Matches(r, w + s) {
      FeedStringMatches(r, w, s);
    }
    if !FeedString(r, w).Empty? {
      ProductiveInhabited(FeedString(r, w));
    }
  }

  lemma OneOrMoreProductive(r: RegexImp)
    requires Productive(r)
    ensures Productive(OneOrMore(r))
  {
    SequenceOfPairWellFormed(r, KleeneOf(r));
    SequenceOfEmpty([r, KleeneOf(r)]);
    assert [r, KleeneOf(r)][0] == r && [r, KleeneOf(r)][1] == KleeneOf(r);
  }

  lemma AlternativesOfProductive(cs: seq<RegexImp>)
    requires cs != [] && forall i :: 0 <= i < |cs| ==> Productive(cs[i])
    ensures Productive(AlternativesOf(cs))
  {
    AlternativesOfWellFormed(cs);
    AlternativesOfEmpty(cs);
    assert !cs[0].Empty?;
  }

  lemma CharacterClassProductive(chars: seq<char>)
    requires chars != []
    ensures Productive(CharacterClass(chars))
  {
    var lits := seq(|chars|, i requires 0 <= i < |chars| => LiteralChar(chars[i]));
    forall i | 0 <= i < |lits| ensures Productive(lits[i]) {
      assert (x => x == chars[i])(chars[i]);
    }
    AlternativesOfProductive(lits);
  }

  lemma NumbersProductive(radix: nat)
    requires 2 <= radix <= 36
    ensures Productive(LiteralChar('-')) && Productive(LiteralChar('.'))
    ensures Productive(Integer(radix)) && Productive(Float())
  {
    assert (x => x == '-')('-');
    assert (x => x == '.')('.');
    assert IsDigit('0', radix);
    assert (c => IsDigit(c, radix))('0');
    assert (c => IsDigit(c, 10))('0');
    IntegerShape(radix);
    IntegerShape(10);
    FloatShape();
  }

  // ---------------------------------------------------------------------
  // Languages of the public constructors

  lemma LiteralCharCorrect(ch: char, s: string)
    ensures Matches(LiteralChar(ch), s) <==> s == [ch]
  {
  }

  lemma OptionalCorrect(r: RegexImp, s: string)
    ensures Matches(Optional(r), s) <==> s == [] || Matches(r, s)
  {
    AlternativesOfCorrect([Epsilon, r], s);
    assert [Epsilon, r][0] == Epsilon && [Epsilon, r][1] == r;
  }

  /** A character class accepts exactly the one-character strings drawn from it. */
  lemma CharacterClassCorrect(chars: seq<char>, s: string)
    ensures Matches(CharacterClass(chars), s) <==> |s| == 1 && s[0] in chars
  {
    var lits := seq(|chars|, i requires 0 <= i < |chars| => LiteralChar(chars[i]));
    AlternativesOfCorrect(lits, s);
    if |s| == 1 && s[0] in chars {
      var i :| 0 <= i < |chars| && chars[i] == s[0];
      assert Matches(lits[i], s);
    }
  }

  /** `x` matches exactly the one-character strings whose character satisfies `q`. */
  ghost predicate SingleChar(x: RegexImp, q: char -> bool)
  {
    forall t :: Matches(x, t) <==> |t| == 1 && q(t[0])
  }

  lemma LiteralSingleChar(p: char -> bool)
    ensures SingleChar(Literal(p), p)
  {
  }

  /** The star of a one-character expression accepts exactly the strings of accepted characters. */
  lemma {:induction false} KleeneSingleCorrect(x: RegexImp, q: char -> bool, s: string)
    requires SingleChar(x, q)
    ensures Matches(Kleene(x), s) <==> forall i :: 0 <= i < |s| ==> q(s[i])
    decreases |s|
  {
    if s != [] {
      KleeneSingleCorrect(x, q, s[1..]);
      if forall i :: 0 <= i < |s| ==> q(s[i]) {
        assert s[..1] == [s[0]];
        assert forall i :: 0 <= i < |s[1..]| ==> q(s[1..][i]) by {
          forall i | 0 <= i < |s[1..]| ensures q(s[1..][i]) {
            assert s[1..][i] == s[i + 1];
          }
        }
        assert Matches(x, s[..1]) && Matches(Kleene(x), s[1..]);
      }
      if Matches(Kleene(x), s) {
        var k :| 1 <= k <= |s| && Matches(x, s[..k]) && Matches(Kleene(x), s[k..]);
        assert k == 1;
        forall i | 0 <= i < |s| ensures q(s[i]) {
          if i == 0 {
            assert s[..k][0] == s[0];
          } else {
            assert s[1..][i - 1] == s[i];
          }
        }
      }
    }
  }

  /** `one_or_more` of a one-character expression accepts the non-empty strings of accepted characters. */
  lemma OneOrMoreSingleCorrect(x: RegexImp, q: char -> bool, s: string)
    requires SingleChar(x, q) && !x.Empty? && !x.Epsilon?
    ensures Matches(OneOrMore(x), s) <==> |s| >= 1 && forall i :: 0 <= i < |s| ==> q(s[i])
  {
    SequencePairCorrect(x, Kleene(x), s);
    if |s| >= 1 && forall i :: 0 <= i < |s| ==> q(s[i]) {
      KleeneSingleCorrect(x, q, s[1..]);
      assert forall i :: 0 <= i < |s[1..]| ==> q(s[1..][i]) by {
        forall i | 0 <= i < |s[1..]| ensures q(s[1..][i]) {
          assert s[1..][i] == s[i + 1];
        }
      }
      assert s[..1] == [s[0]];
      assert Matches(x, s[..1]) && Matches(Kleene(x), s[1..]);
    }
    if Matches(OneOrMore(x), s) {
      var k :| 0 <= k <= |s| && Matches(x, s[..k]) && Matches(Kleene(x), s[k..]);
      assert k == 1;
      KleeneSingleCorrect(x, q, s[k..]);
      forall i | 0 <= i < |s| ensures q(s[i]) {
        if i == 0 {
          assert s[..k][0] == s[0];
        } else {
          assert s[k..][i - 1] == s[i];
        }
      }
    }
  }

  lemma PositiveIntegerCorrect(radix: nat, s: string)
    requires 2 <= radix <= 36
    ensures Matches(PositiveInteger(radix), s) <==> |s| >= 1 && AllDigits(s, radix)
  {
    LiteralSingleChar(c => IsDigit(c, radix));
    OneOrMoreSingleCorrect(Digit(radix), c => IsDigit(c, radix), s);
  }

  /** `sequence` of two children that are neither Empty nor Epsilon is one Sequence node. */
  lemma SequenceOfPair(a: RegexImp, b: RegexImp)
    requires !a.Empty? && !a.Epsilon? && !b.Empty? && !b.Epsilon?
    ensures SequenceOf([a, b]) == Sequence(a, b)
  {
    assert [a, b][..1] == [a] && [a][..0] == [];
    assert SequenceOf([a]) == a;
  }

  /** The trees the constructors of `integer` and `float` build. */
  lemma IntegerShape(radix: nat)
    requires 2 <= radix <= 36
    ensures Optional(LiteralChar('-')) == Alternatives(Epsilon, LiteralChar('-'))
    ensures PositiveInteger(radix) == Sequence(Digit(radix), Kleene(Digit(radix)))
    ensures Integer(radix) == Sequence(Optional(LiteralChar('-')), PositiveInteger(radix))
  {
    var minus := [Epsilon, LiteralChar('-')];
    assert minus[..1] == [Epsilon] && [Epsilon][..0] == [];
    assert AlternativesFold([Epsilon]) == (Epsilon, false);
    SequenceOfPair(Digit(radix), Kleene(Digit(radix)));
    SequenceOfPair(Optional(LiteralChar('-')), PositiveInteger(radix));
  }

  lemma FloatShape()
    ensures Float() == Sequence(Sequence(Integer(10), LiteralChar('.')), PositiveInteger(10))
  {
    IntegerShape(10);
    var parts := [Integer(10), LiteralChar('.'), PositiveInteger(10)];
    assert parts[..2] == [Integer(10), LiteralChar('.')];
    SequenceOfPair(Integer(10), LiteralChar('.'));
  }

  /** `integer(radix)` accepts exactly integer text. */
  lemma IntegerCorrect(radix: nat, s: string)
    requires 2 <= radix <= 36
    ensures Matches(Integer(radix), s) <==> IsIntegerText(s, radix)
  {
    IntegerSound(radix, s);
    IntegerComplete(radix, s);
  }

  lemma IntegerSound(radix: nat, s: string)
    requires 2 <= radix <= 36
    ensures Matches(Integer(radix), s) ==> IsIntegerText(s, radix)
  {
    IntegerShape(radix);
    var minus := Optional(LiteralChar('-'));
    var digits := PositiveInteger(radix);
    if Matches(Integer(radix), s) {
      var k :| 0 <= k <= |s| && Matches(minus, s[..k]) && Matches(digits, s[k..]);
      OptionalCorrect(LiteralChar('-'), s[..k]);
      LiteralCharCorrect('-', s[..k]);
      PositiveIntegerCorrect(radix, s[k..]);
      if k == 0 {
        assert s[k..] == s;
      } else {
        assert s[..k] == ['-'];
        assert k == 1 && s[0] == '-';
      }
    }
  }

  lemma IntegerComplete(radix: nat, s: string)
    requires 2 <= radix <= 36
    ensures IsIntegerText(s, radix) ==> Matches(Integer(radix), s)
  {
    IntegerShape(radix);
    var minus := Optional(LiteralChar('-'));
    var digits := PositiveInteger(radix);
    if |s| >= 1 && AllDigits(s, radix) {
      OptionalCorrect(LiteralChar('-'), s[..0]);
      PositiveIntegerCorrect(radix, s[0..]);
      assert s[..0] == [] && s[0..] == s;
      assert Matches(minus, s[..0]) && Matches(digits, s[0..]);
    } else if |s| >= 2 && s[0] == '-' && AllDigits(s[1..], radix) {
      OptionalCorrect(LiteralChar('-'), s[..1]);
      LiteralCharCorrect('-', s[..1]);
      PositiveIntegerCorrect(radix, s[1..]);
      assert s[..1] == ['-'];
      assert Matches(minus, s[..1]) && Matches(digits, s[1..]);
    }
  }

  /** `float()` accepts exactly float text. */
  lemma FloatCorrect(s: string)
    ensures Matches(Float(), s) <==> IsFloatText(s)
  {
    FloatSound(s);
    FloatComplete(s);
  }

  lemma FloatSound(s: string)
    ensures Matches(Float(), s) ==> IsFloatText(s)
  {
    FloatShape();
    var head := Sequence(Integer(10), LiteralChar('.'));
    if Matches(Float(), s) {
      var k2 :| 0 <= k2 <= |s| && Matches(head, s[..k2]) && Matches(PositiveInteger(10), s[k2..]);
      var u := s[..k2];
      var k1 :| 0 <= k1 <= |u| && Matches(Integer(10), u[..k1]) && Matches(LiteralChar('.'), u[k1..]);
      LiteralCharCorrect('.', u[k1..]);
      assert u[k1..] == ['.'];
      assert k2 == k1 + 1;
      assert u[..k1] == s[..k1] && s[k1] == u[k1];
      IntegerCorrect(10, s[..k1]);
      PositiveIntegerCorrect(10, s[k2..]);
      assert s[k1 + 1..] == s[k2..];
      assert 0 <= k1 < |s| - 1 && IsIntegerText(s[..k1], 10) && s[k1] == '.' && AllDigits(s[k1 + 1..], 10);
    }
  }

  lemma FloatComplete(s: string)
    ensures IsFloatText(s) ==> Matches(Float(), s)
  {
    FloatShape();
    var head := Sequence(Integer(10), LiteralChar('.'));
    if IsFloatText(s) {
      var k :| 0 <= k < |s| - 1 && IsIntegerText(s[..k], 10) && s[k] == '.' && AllDigits(s[k + 1..], 10);
      var u := s[..k + 1];
      assert u[..k] == s[..k] && u[k..] == ['.'];
      IntegerCorrect(10, u[..k]);
      LiteralCharCorrect('.', u[k..]);
      assert Matches(Integer(10), u[..k]) && Matches(LiteralChar('.'), u[k..]);
      assert Matches(head, s[..k + 1]);
      PositiveIntegerCorrect(10, s[k + 1..]);
      assert Matches(head, s[..k + 1]) && Matches(PositiveInteger(10), s[k + 1..]);
    }
  }

  // ---------------------------------------------------------------------
  // The unit tests of src/regex/mod.rs, as consequences of the above

  lemma IntegerAcceptsExamples()
    ensures Accepts(Integer(10), "0") && Accepts(Integer(10), "-546846")
  {
    IntegerAcceptsZero();
    IntegerAcceptsNegative();
  }

  lemma IntegerAcceptsZero()
    ensures Accepts(Integer(10), "0")
  {
    AcceptsCorrect(Integer(10), "0");
    IntegerCorrect(10, "0");
  }

  lemma IntegerAcceptsNegative()
    ensures Accepts(Integer(10), "-546846")
  {
    AcceptsCorrect(Integer(10), "-546846");
    IntegerCorrect(10, "-546846");
    assert "-546846"[1..] == "546846";
  }

  /**
   * Once a character that cannot continue an integer has been fed, the
   * integer expression is the Empty node, whatever follows.
   */
  lemma IntegerDeadAfter(w: string, i: nat)
    requires i < |w| && !IsDigit(w[i], 10) && (i == 0 ==> w[0] != '-')
    ensures FeedString(Integer(10), w).Empty?
  {
    NumbersProductive(10);
    forall s ensures !Matches(Integer(10), w + s) {
      IntegerCorrect(10, w + s);
      assert (w + s)[i] == w[i];
      if i > 0 {
        assert (w + s)[1..][i - 1] == w[i];
      }
    }
    FeedStringDead(Integer(10), w);
  }

  lemma IntegerRejectsExamples()
    ensures !Accepts(Integer(10), "a") && !Accepts(Integer(10), "0a") && !Accepts(Integer(10), "1x5")
    ensures FeedString(Integer(10), "a").Empty? && FeedString(Integer(10), "0a").Empty?
    ensures FeedString(Integer(10), "1x5").Empty?
  {
    IntegerDeadAfter("a", 0);
    IntegerDeadAfter("0a", 1);
    IntegerDeadAfter("1x5", 1);
    AcceptsCorrect(Integer(10), "a");
    IntegerCorrect(10, "a");
    AcceptsCorrect(Integer(10), "0a");
    IntegerCorrect(10, "0a");
    assert !IsDigit("0a"[1], 10);
    AcceptsCorrect(Integer(10), "1x5");
    IntegerCorrect(10, "1x5");
    assert !IsDigit("1x5"[1], 10);
  }

  lemma FloatAcceptsExamples()
    ensures Accepts(Float(), "-546.846") && Accepts(Float(), "0.0")
  {
    FloatAcceptsNegative();
    FloatAcceptsZero();
  }

  lemma FloatAcceptsNegative()
    ensures Accepts(Float(), "-546.846")
  {
    AcceptsCorrect(Float(), "-546.846");
    FloatCorrect("-546.846");
    assert "-546.846"[..4] == "-546" && "-546"[1..] == "546" && "-546.846"[5..] == "846";
    assert IsIntegerText("-546.846"[..4], 10);
  }

  lemma FloatAcceptsZero()
    ensures Accepts(Float(), "0.0")
  {
    AcceptsCorrect(Float(), "0.0");
    FloatCorrect("0.0");
    assert "0.0"[..1] == "0" && "0.0"[2..] == "0";
    assert IsIntegerText("0.0"[..1], 10);
  }

  lemma FloatRejectsExamples()
    ensures !Accepts(Float(), "75.") && !Accepts(Float(), ".92") && !Accepts(Float(), "-2")
  {
    AcceptsCorrect(Float(), "75.");
    FloatCorrect("75.");
    AcceptsCorrect(Float(), ".92");
    FloatCorrect(".92");
    AcceptsCorrect(Float(), "-2");
    FloatCorrect("-2");
  }

  lemma KleeneExamples()
    ensures Accepts(KleeneOf(LiteralChar('a')), "") && Accepts(KleeneOf(LiteralChar('a')), "aaa")
    ensures !Accepts(KleeneOf(LiteralChar('a')), "b") && !Accepts(KleeneOf(LiteralChar('a')), "ba")
    ensures FeedString(KleeneOf(LiteralChar('a')), "b").Empty?
    ensures FeedString(KleeneOf(LiteralChar('a')), "ba").Empty?
  {
    var p := x => x == 'a';
    assert KleeneOf(LiteralChar('a')) == Kleene(Literal(p));
    assert p('a');
    KleeneDeadAfter(p, "b");
    KleeneDeadAfter(p, "ba");
    AcceptsCorrect(Kleene(Literal(p)), "");
    AcceptsCorrect(Kleene(Literal(p)), "aaa");
    LiteralSingleChar(p);
    KleeneSingleCorrect(Literal(p), p, "aaa");
    AcceptsCorrect(Kleene(Literal(p)), "b");
    KleeneSingleCorrect(Literal(p), p, "b");
    AcceptsCorrect(Kleene(Literal(p)), "ba");
    KleeneSingleCorrect(Literal(p), p, "ba");
    assert !p("ba"[0]);
  }

  /** After a character outside the class, the star of a one-character literal is Empty. */
  lemma KleeneDeadAfter(p: char -> bool, w: string)
    requires w != [] && !p(w[0]) && (exists c :: p(c))
    ensures FeedString(Kleene(Literal(p)), w).Empty?
  {
    LiteralSingleChar(p);
    forall s ensures !Matches(Kleene(Literal(p)), w + s) {
      KleeneSingleCorrect(Literal(p), p, w + s);
      assert (w + s)[0] == w[0];
    }
    FeedStringDead(Kleene(Literal(p)), w);
  }
}
