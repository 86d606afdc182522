/**
 * Combinators that build regular expressions over characters
 * (src/scripting/regex/helpers.rs).  A `Regex` wraps the expression it
 * shares with the regexes built from it.
 *
 * Each combinator is related to the language semantics `Matches` of
 * RegexDefs: a literal sequence matches exactly its word, a character
 * class exactly its characters, an optional expression the empty word as
 * well, and `PositiveInteger` and `Integer` exactly the decimal numerals,
 * without and with a leading minus sign.
 */
module RegexHelpers {
  import D = RegexDefs

  /** `Regex`: a regular expression over characters, held by a shared pointer. */
  datatype Regex = Regex(regex: D.RegularExpression<char>)

  /** `wrap`. */
  function Wrap(regex: D.RegularExpression<char>): Regex
  {
    Regex(regex)
  }

  /** `literal`: exactly the one character. */
  function Literal(ch: char): Regex
  {
    Wrap(D.Literal(ch))
  }

  /** `kleene`. */
  function Kleene(child: Regex): Regex
  {
    Wrap(D.Kleene(child.regex))
  }

  /** The expressions the regexes wrap, in order. */
  function Unwrapped(children: seq<Regex>): (rs: seq<D.RegularExpression<char>>)
    ensures |rs| == |children| && forall i :: 0 <= i < |children| ==> rs[i] == children[i].regex
  {
    seq(|children|, i requires 0 <= i < |children| => children[i].regex)
  }

  /** `sequence`. */
  function Sequence(children: seq<Regex>): Regex
  {
    Wrap(D.Sequence(Unwrapped(children)))
  }

  /** `alternatives`. */
  function Alternatives(children: seq<Regex>): Regex
  {
    Wrap(D.Alternatives(Unwrapped(children)))
  }

  /** One `literal` per character, in order. */
  function Literals(chars: string): (rs: seq<Regex>)
    ensures |rs| == |chars| && forall i :: 0 <= i < |chars| ==> rs[i] == Literal(chars[i])
  {
    seq(|chars|, i requires 0 <= i < |chars| => Literal(chars[i]))
  }

  /** `literal_seq`. */
  function LiteralSeq(chars: string): Regex
  {
    Sequence(Literals(chars))
  }

  /** `character_class`. */
  function CharacterClass(chars: string): Regex
  {
    Alternatives(Literals(chars))
  }

  /** `one_or_more`: the child, then any number of repetitions of it. */
  function OneOrMore(child: Regex): Regex
  {
    Sequence([child, Kleene(child)])
  }

  /** `digit`. */
  function Digit(): Regex
  {
    CharacterClass("0123456789")
  }

  /** `positive_integer`. */
  function PositiveInteger(): Regex
  {
    OneOrMore(Digit())
  }

  /** `empty`: only the empty word. */
  function Empty(): Regex
  {
    Wrap(D.RegularExpression.Epsilon)
  }

  /** `optional`. */
  function Optional(child: Regex): Regex
  {
    Alternatives([Empty(), child])
  }

  /** `integer`: an optional minus sign, then a positive integer. */
  function Integer(): Regex
  {
    Sequence([Optional(Literal('-')), PositiveInteger()])
  }

  // ---------------------------------------------------------------------
  // Languages

  predicate IsDecimalDigit(c: char)
  {
    '0' <= c <= '9'
  }

  /** One or more decimal digits. */
  predicate IsDigits(w: string)
  {
    |w| >= 1 && forall i :: 0 <= i < |w| ==> IsDecimalDigit(w[i])
  }

  /** A sequence of one expression matches what the expression matches. */
  lemma MatchesSequenceOne<E>(r: D.RegularExpression<E>, w: seq<E>)
    ensures D.MatchesSequence([r], w) <==> D.Matches(r, w)
  {
    var rs := [r];
    assert rs[0] == r && rs[1..] == [];
    if D.Matches(r, w) {
      assert w[..|w|] == w && w[|w|..] == [];
      assert D.MatchesSequence(rs[1..], w[|w|..]);
      assert D.Matches(rs[0], w[..|w|]);
    }
    if D.MatchesSequence(rs, w) {
      var k :| 0 <= k <= |w| && D.Matches(rs[0], w[..k]) && D.MatchesSequence(rs[1..], w[k..]);
      assert w[k..] == [];
      assert w[..k] == w;
    }
  }

  /** A sequence of two expressions matches the words that split into a word of each. */
  lemma MatchesSequenceTwo<E>(a: D.RegularExpression<E>, b: D.RegularExpression<E>, w: seq<E>)
    ensures D.MatchesSequence([a, b], w)
        <==> exists k :: 0 <= k <= |w| && D.Matches(a, w[..k]) && D.Matches(b, w[k..])
  {
    assert [a, b][1..] == [b];
    forall k | 0 <= k <= |w|
      ensures D.MatchesSequence([b], w[k..]) <==> D.Matches(b, w[k..])
    {
      MatchesSequenceOne(b, w[k..]);
    }
  }

  /** A sequence of literals matches exactly the word they spell. */
  lemma {:induction false} LiteralsMatch(chars: string, w: string)
    ensures D.MatchesSequence(Unwrapped(Literals(chars)), w) <==> w == chars
    decreases |chars|
  {
    var rs := Unwrapped(Literals(chars));
    if chars != [] {
      assert rs[0] == D.Literal(chars[0]);
      assert rs[1..] == Unwrapped(Literals(chars[1..]));
      if D.MatchesSequence(rs, w) {
        var k :| 0 <= k <= |w| && D.Matches(rs[0], w[..k]) && D.MatchesSequence(rs[1..], w[k..]);
        assert w[..k] == [chars[0]];
        LiteralsMatch(chars[1..], w[k..]);
        assert w == w[..k] + w[k..];
      }
      if w == chars {
        LiteralsMatch(chars[1..], w[1..]);
        assert D.Matches(rs[0], w[..1]) && D.MatchesSequence(rs[1..], w[1..]);
      }
    }
  }

  /** `literal_seq` matches exactly its characters, in order. */
  lemma LiteralSeqMatches(chars: string, w: string)
    ensures D.Matches(LiteralSeq(chars).regex, w) <==> w == chars
  {
    LiteralsMatch(chars, w);
  }

  /** `character_class` matches exactly the one-character words of its characters. */
  lemma CharacterClassMatches(chars: string, w: string)
    ensures D.Matches(CharacterClass(chars).regex, w) <==> |w| == 1 && w[0] in chars
  {
    var rs := Unwrapped(Literals(chars));
    if |w| == 1 && w[0] in chars {
      var i :| 0 <= i < |chars| && chars[i] == w[0];
      assert rs[i] == D.Literal(chars[i]) && w == [chars[i]];
    }
  }

  /** `optional` matches the empty word and what its child matches. */
  lemma OptionalMatches(child: Regex, w: string)
    ensures D.Matches(Optional(child).regex, w) <==> w == [] || D.Matches(child.regex, w)
  {
    var rs := Unwrapped([Empty(), child]);
    assert rs[0] == D.RegularExpression.Epsilon && rs[1] == child.regex;
  }

  /** Any number of characters of a class: exactly the words made of its characters. */
  lemma {:induction false} KleeneOfClassMatches(chars: string, w: string)
    ensures D.Matches(D.Kleene(CharacterClass(chars).regex), w) <==> forall i :: 0 <= i < |w| ==> w[i] in chars
    decreases |w|
  {
    var c := CharacterClass(chars).regex;
    if w != [] {
      if D.Matches(D.Kleene(c), w) {
        var k :| 0 < k <= |w| && D.Matches(c, w[..k]) && D.Matches(D.Kleene(c), w[k..]);
        CharacterClassMatches(chars, w[..k]);
        KleeneOfClassMatches(chars, w[k..]);
        assert k == 1;
        forall i | 0 <= i < |w|
          ensures w[i] in chars
        {
          if i > 0 {
            assert w[i] == w[k..][i - 1];
          }
        }
      }
      if forall i :: 0 <= i < |w| ==> w[i] in chars {
        CharacterClassMatches(chars, w[..1]);
        KleeneOfClassMatches(chars, w[1..]);
        assert forall i :: 0 <= i < |w[1..]| ==> w[1..][i] == w[i + 1];
        assert D.Matches(c, w[..1]) && D.Matches(D.Kleene(c), w[1..]);
      }
    }
  }

  /** One or more characters of a class: exactly the non-empty words made of its characters. */
  lemma OneOrMoreOfClassMatches(chars: string, w: string)
    ensures D.Matches(OneOrMore(CharacterClass(chars)).regex, w)
        <==> |w| >= 1 && forall i :: 0 <= i < |w| ==> w[i] in chars
  {
    var c := CharacterClass(chars);
    assert Unwrapped([c, Kleene(c)]) == [c.regex, D.Kleene(c.regex)];
    MatchesSequenceTwo(c.regex, D.Kleene(c.regex), w);
    if D.Matches(OneOrMore(c).regex, w) {
      var k :| 0 <= k <= |w| && D.Matches(c.regex, w[..k]) && D.Matches(D.Kleene(c.regex), w[k..]);
      ClassThenKleeneSound(chars, w, k);
    }
    if |w| >= 1 && forall i :: 0 <= i < |w| ==> w[i] in chars {
      ClassThenKleeneComplete(chars, w);
    }
  }

  /** A character of the class followed by any number of them is a non-empty word of its characters. */
  lemma ClassThenKleeneSound(chars: string, w: string, k: nat)
    requires k <= |w|
    requires D.Matches(CharacterClass(chars).regex, w[..k]) && D.Matches(D.Kleene(CharacterClass(chars).regex), w[k..])
    ensures |w| >= 1 && forall i :: 0 <= i < |w| ==> w[i] in chars
  {
    CharacterClassMatches(chars, w[..k]);
    KleeneOfClassMatches(chars, w[k..]);
    forall i | 0 <= i < |w|
      ensures w[i] in chars
    {
      if i > 0 {
        assert w[i] == w[k..][i - 1];
      }
    }
  }

  /** A non-empty word of the class's characters splits after its first character. */
  lemma ClassThenKleeneComplete(chars: string, w: string)
    requires |w| >= 1 && forall i :: 0 <= i < |w| ==> w[i] in chars
    ensures D.Matches(CharacterClass(chars).regex, w[..1]) && D.Matches(D.Kleene(CharacterClass(chars).regex), w[1..])
  {
    CharacterClassMatches(chars, w[..1]);
    KleeneOfClassMatches(chars, w[1..]);
    assert forall i :: 0 <= i < |w[1..]| ==> w[1..][i] == w[i + 1];
  }

  /** The characters of "0123456789" are the decimal digits. */
  lemma DecimalDigitChars(c: char)
    ensures c in "0123456789" <==> IsDecimalDigit(c)
  {
    if IsDecimalDigit(c) {
      assert c == "0123456789"[c as int - '0' as int];
    }
  }

  /** `digit` matches exactly the one-digit words. */
  lemma DigitMatches(w: string)
    ensures D.Matches(Digit().regex, w) <==> |w| == 1 && IsDecimalDigit(w[0])
  {
    CharacterClassMatches("0123456789", w);
    if |w| == 1 {
      DecimalDigitChars(w[0]);
    }
  }

  /** `positive_integer` matches exactly the non-empty strings of decimal digits. */
  lemma PositiveIntegerMatches(w: string)
    ensures D.Matches(PositiveInteger().regex, w) <==> IsDigits(w)
  {
    OneOrMoreOfClassMatches("0123456789", w);
    forall c: char
      ensures c in "0123456789" <==> IsDecimalDigit(c)
    {
      DecimalDigitChars(c);
    }
  }

  /** A decimal numeral, with or without a leading minus sign. */
  predicate IsInteger(w: string)
  {
    IsDigits(w) || (|w| >= 1 && w[0] == '-' && IsDigits(w[1..]))
  }

  /** The words `integer` matches split into an optional sign and a positive integer. */
  lemma IntegerMatchesOnlyNumerals(w: string)
    requires D.Matches(Integer().regex, w)
    ensures IsInteger(w)
  {
    var k := IntegerSplit(w);
    OptionalMatches(Literal('-'), w[..k]);
    PositiveIntegerMatches(w[k..]);
    SignThenDigits(w, k);
  }

  /** Where a word `integer` matches ends its sign and starts its digits. */
  lemma IntegerSplit(w: string) returns (k: nat)
    requires D.Matches(Integer().regex, w)
    ensures k <= |w| && D.Matches(Optional(Literal('-')).regex, w[..k]) && D.Matches(PositiveInteger().regex, w[k..])
  {
    var sign := Optional(Literal('-'));
    var digits := PositiveInteger();
    assert Unwrapped([sign, digits]) == [sign.regex, digits.regex];
    MatchesSequenceTwo(sign.regex, digits.regex, w);
    k :| 0 <= k <= |w| && D.Matches(sign.regex, w[..k]) && D.Matches(digits.regex, w[k..]);
  }

  /** An optional minus sign followed by digits is a numeral. */
  lemma SignThenDigits(w: string, k: nat)
    requires k <= |w| && (w[..k] == [] || D.Matches(Literal('-').regex, w[..k])) && IsDigits(w[k..])
    ensures IsInteger(w)
  {
    if k == 0 {
      assert w[k..] == w;
    } else {
      assert w[..k] == ['-'];
      assert w[k..] == w[1..];
    }
  }

  /** Every decimal numeral, with or without a sign, is matched by `integer`. */
  lemma NumeralsMatchInteger(w: string)
    requires IsInteger(w)
    ensures D.Matches(Integer().regex, w)
  {
    var sign := Optional(Literal('-'));
    var digits := PositiveInteger();
    assert Unwrapped([sign, digits]) == [sign.regex, digits.regex];
    MatchesSequenceTwo(sign.regex, digits.regex, w);
    var k := if IsDigits(w) then 0 else 1;
    OptionalMatches(Literal('-'), w[..k]);
    PositiveIntegerMatches(w[k..]);
    if k == 0 {
      assert w[..k] == [] && w[k..] == w;
    } else {
      assert w[..k] == ['-'];
    }
    assert D.Matches(sign.regex, w[..k]) && D.Matches(digits.regex, w[k..]);
  }

  /** `integer` matches exactly the decimal numerals, with or without a leading minus sign. */
  lemma IntegerMatches(w: string)
    ensures D.Matches(Integer().regex, w) <==> IsInteger(w)
  {
    if D.Matches(Integer().regex, w) {
      IntegerMatchesOnlyNumerals(w);
    }
    if IsInteger(w) {
      NumeralsMatchInteger(w);
    }
  }
}
