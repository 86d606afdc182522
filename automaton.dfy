/**
 * Several tagged regular expressions run side by side
 * (src/scripting/tokenizing/automaton.rs).  The rules keep their order;
 * `Current` reports the tag of the first rule that accepts what has been
 * fed so far, so earlier rules win ties.
 */
module Automaton {
  import opened Wrappers
  import opened Regexes

  /** A regular expression with the tag it reports. */
  type Rule<T> = (RegexImp, T)

  /** The entries that survive `c`, each replaced by its derivative, in order (the `filter_map`). */
  function Survivors<T>(state: seq<Rule<T>>, c: char): seq<Rule<T>>
  {
    if state == [] then []
    else
      var last := state[|state| - 1];
      var d := Feed(last.0, c);
      Survivors(state[..|state| - 1], c) + (if d.Empty? then [] else [(d, last.1)])
  }

  /** The tag of the first entry whose expression accepts the empty string (`current`). */
  function FirstTerminal<T>(state: seq<Rule<T>>): (t: Option<T>)
    ensures t.None? <==> forall i :: 0 <= i < |state| ==> !IsTerminal(state[i].0)
    ensures t.Some? ==> exists i :: 0 <= i < |state| && IsTerminal(state[i].0) && state[i].1 == t.value
                                    && forall j :: 0 <= j < i ==> !IsTerminal(state[j].0)
  {
    if state == [] then None
    else if IsTerminal(state[0].0) then Some(state[0].1)
    else
      var t := FirstTerminal(state[1..]);
      assert forall i :: 0 <= i < |state| - 1 ==> state[1..][i] == state[i + 1];
      t
  }

  /**
   * The state reached from `rules` after feeding `w`: every rule whose
   * derivative by `w` is not Empty, with that derivative, in rule order.
   */
  function Generation<T>(rules: seq<Rule<T>>, w: string): seq<Rule<T>>
  {
    if rules == [] then []
    else
      var d := FeedString(rules[0].0, w);
      (if d.Empty? then [] else [(d, rules[0].1)]) + Generation(rules[1..], w)
  }

  /** The tag of the first rule whose expression matches `w`. */
  ghost function FirstMatching<T>(rules: seq<Rule<T>>, w: string): Option<T>
  {
    if rules == [] then None
    else if Matches(rules[0].0, w) then Some(rules[0].1)
    else FirstMatching(rules[1..], w)
  }

  /** Whether some rule matches a string that starts with `w`. */
  ghost predicate Alive<T>(rules: seq<Rule<T>>, w: string)
  {
    exists i, s :: 0 <= i < |rules| && Matches(rules[i].0, w + s)
  }

  ghost predicate AllWellFormed<T>(rules: seq<Rule<T>>)
  {
    forall i :: 0 <= i < |rules| ==> WellFormed(rules[i].0)
  }

  // ---------------------------------------------------------------------
  // The automaton and its builder

  class Automaton<T> {
    var rules: seq<Rule<T>>
    var state: seq<Rule<T>>

    constructor(rules: seq<Rule<T>>)
      ensures this.rules == rules && state == rules
    {
      this.rules := rules;
      state := rules;
    }

    /** `reset`: start again from the rules. */
    method Reset()
      modifies this
      ensures rules == old(rules) && state == rules
    {
      state := rules;
    }

    /** `is_terminal`: some entry accepts what has been fed. */
    function IsTerminal(): (b: bool)
      reads this
      ensures b <==> Current().Some?
    {
      exists i | 0 <= i < |state| :: Regexes.IsTerminal(state[i].0)
    }

    /** `current`: the tag of the first terminal entry. */
    function Current(): (t: Option<T>)
      reads this
      ensures t.Some? ==> exists i :: 0 <= i < |state| && Regexes.IsTerminal(state[i].0) && state[i].1 == t.value
                                      && forall j :: 0 <= j < i ==> !Regexes.IsTerminal(state[j].0)
    {
      FirstTerminal(state)
    }

    /** `feed`: keep the survivors if there are any; otherwise reject and change nothing. */
    method Feed(c: char) returns (accepted: bool)
      modifies this
      ensures rules == old(rules)
      ensures accepted <==> Survivors(old(state), c) != []
      ensures state == if accepted then Survivors(old(state), c) else old(state)
    {
      var nextGeneration: seq<Rule<T>> := [];
      for i := 0 to |state|
        invariant nextGeneration == Survivors(state[..i], c)
      {
        assert state[..i + 1][..i] == state[..i];
        var d := TryFeed(state[i].0, c);
        if d.Some? {
          nextGeneration := nextGeneration + [(d.value, state[i].1)];
        }
      }
      assert state[..|state|] == state;
      if nextGeneration == [] {
        accepted := false;
      } else {
        state := nextGeneration;
        accepted := true;
      }
    }
  }

  class AutomatonBuilder<T> {
    var rules: seq<Rule<T>>

    constructor()
      ensures rules == []
    {
      rules := [];
    }

    /** `add_rule`: rules keep their insertion order. */
    method AddRule(regex: RegexImp, t: T)
      modifies this
      ensures rules == old(rules) + [(regex, t)]
    {
      rules := rules + [(regex, t)];
    }

    /** `eject`: an automaton whose state is its rules. */
    method Eject() returns (automaton: Automaton<T>)
      ensures fresh(automaton)
      ensures automaton.rules == rules && automaton.state == rules
    {
      automaton := new Automaton(rules);
    }
  }

  // ---------------------------------------------------------------------
  // What the state means

  lemma {:induction false} SurvivorsAppend<T>(a: seq<Rule<T>>, b: seq<Rule<T>>, c: char)
    ensures Survivors(a + b, c) == Survivors(a, c) + Survivors(b, c)
    decreases |b|
  {
    if b == [] {
      assert a + b == a;
    } else {
      var b' := b[..|b| - 1];
      assert (a + b)[..|a + b| - 1] == a + b';
      assert (a + b)[|a + b| - 1] == b[|b| - 1];
      SurvivorsAppend(a, b', c);
    }
  }

  /** Feeding `c` to the generation of `w` gives the generation of `w + [c]`. */
  lemma {:induction false} GenerationStep<T>(rules: seq<Rule<T>>, w: string, c: char)
    ensures Survivors(Generation(rules, w), c) == Generation(rules, w + [c])
    decreases |rules|
  {
    if rules != [] {
      var r := rules[0].0;
      var d := FeedString(r, w);
      var head: seq<Rule<T>> := if d.Empty? then [] else [(d, rules[0].1)];
      SurvivorsAppend(head, Generation(rules[1..], w), c);
      GenerationStep(rules[1..], w, c);
      FeedStringSnoc(r, w, c);
      if !d.Empty? {
        assert head[..0] == [];
      }
    }
  }

  /** Before anything is fed, the generation is the rules themselves. */
  lemma {:induction false} GenerationStart<T>(rules: seq<Rule<T>>)
    requires forall i :: 0 <= i < |rules| ==> !rules[i].0.Empty?
    ensures Generation(rules, []) == rules
    decreases |rules|
  {
    if rules != [] {
      GenerationStart(rules[1..]);
      assert FeedString(rules[0].0, []) == rules[0].0;
      assert rules == [rules[0]] + rules[1..];
    }
  }

  /** For well-formed rules, the generation is non-empty exactly when some rule can still match. */
  lemma {:induction false} GenerationAlive<T>(rules: seq<Rule<T>>, w: string)
    requires AllWellFormed(rules)
    ensures Generation(rules, w) != [] <==> Alive(rules, w)
    decreases |rules|
  {
    if rules != [] {
      assert forall i :: 0 <= i < |rules| - 1 ==> rules[1..][i] == rules[i + 1];
      GenerationAlive(rules[1..], w);
      FeedStringDead(rules[0].0, w);
      if Alive(rules, w) && FeedString(rules[0].0, w).Empty? {
        var i, s :| 0 <= i < |rules| && Matches(rules[i].0, w + s);
        if i == 0 {
          assert false;
        }
        assert Matches(rules[1..][i - 1].0, w + s);
      }
      if !FeedString(rules[0].0, w).Empty? {
        var s :| Matches(rules[0].0, w + s);
        assert Matches(rules[0].0, w + s);
      }
      if Alive(rules[1..], w) {
        var i, s :| 0 <= i < |rules[1..]| && Matches(rules[1..][i].0, w + s);
        assert Matches(rules[i + 1].0, w + s);
      }
    }
  }

  /** The tag reported after feeding `w` is the first rule matching `w`. */
  lemma {:induction false} FirstTerminalGeneration<T>(rules: seq<Rule<T>>, w: string)
    ensures FirstTerminal(Generation(rules, w)) == FirstMatching(rules, w)
    decreases |rules|
  {
    if rules != [] {
      var d := FeedString(rules[0].0, w);
      FirstTerminalGeneration(rules[1..], w);
      FedTerminal(rules[0].0, w);
      if !d.Empty? {
        FirstTerminalCons(d, rules[0].1, Generation(rules[1..], w));
      } else {
        assert Generation(rules, w) == Generation(rules[1..], w);
      }
    }
  }

  /** The expression left after feeding `w` is terminal exactly when the original matches `w`. */
  lemma FedTerminal(r: RegexImp, w: string)
    ensures IsTerminal(FeedString(r, w)) <==> Matches(r, w)
  {
    FeedStringMatches(r, w, []);
    TerminalCorrect(FeedString(r, w));
    assert w + [] == w;
  }

  /** The first terminal of a state is its head's tag when the head is terminal, or else the first terminal of the rest. */
  lemma FirstTerminalCons<T>(r: RegexImp, tag: T, rest: seq<Rule<T>>)
    ensures FirstTerminal([(r, tag)] + rest) == if IsTerminal(r) then Some(tag) else FirstTerminal(rest)
  {
    var g := [(r, tag)] + rest;
    assert g[0] == (r, tag) && g[1..] == rest;
  }

  /** Feeding `w` one character at a time reaches the generation of `w`. */
  function FeedAll<T>(state: seq<Rule<T>>, w: string): seq<Rule<T>>
    decreases |w|
  {
    if w == [] then state else FeedAll(Survivors(state, w[0]), w[1..])
  }

  lemma {:induction false} FeedAllGeneration<T>(rules: seq<Rule<T>>, v: string, w: string)
    ensures FeedAll(Generation(rules, v), w) == Generation(rules, v + w)
    decreases |w|
  {
    if w == [] {
      assert v + w == v;
    } else {
      GenerationStep(rules, v, w[0]);
      FeedAllGeneration(rules, v + [w[0]], w[1..]);
      assert v + [w[0]] + w[1..] == v + w;
    }
  }

  // ---------------------------------------------------------------------
  // The unit test of automaton.rs

  function ExampleRules(): seq<Rule<int>>
  {
    [(LiteralChar('('), 0), (LiteralChar(')'), 1), (Integer(10), 2)]
  }

  lemma ExampleRulesWellFormed()
    ensures AllWellFormed(ExampleRules())
    ensures forall i :: 0 <= i < |ExampleRules()| ==> !ExampleRules()[i].0.Empty?
  {
    NumbersProductive(10);
    assert (x => x == '(')('(');
    assert (x => x == ')')(')');
  }

  lemma ExampleFacts(w: string)
    ensures Matches(LiteralChar('('), w) <==> w == "("
    ensures Matches(LiteralChar(')'), w) <==> w == ")"
    ensures Matches(Integer(10), w) <==> IsIntegerText(w, 10)
  {
    LiteralCharCorrect('(', w);
    LiteralCharCorrect(')', w);
    IntegerCorrect(10, w);
  }

  /** What the example needs to know of its rules: tags, well-formedness and languages. */
  ghost predicate ExampleLanguages(rules: seq<Rule<int>>)
  {
    && |rules| == 3 && rules[0].1 == 0 && rules[1].1 == 1 && rules[2].1 == 2
    && AllWellFormed(rules) && (forall i :: 0 <= i < |rules| ==> !rules[i].0.Empty?)
    && (forall w {:trigger Matches(rules[0].0, w)} :: Matches(rules[0].0, w) <==> w == "(")
    && (forall w {:trigger Matches(rules[1].0, w)} :: Matches(rules[1].0, w) <==> w == ")")
    && (forall w {:trigger Matches(rules[2].0, w)} :: Matches(rules[2].0, w) <==> IsIntegerText(w, 10))
  }

  lemma ExampleRulesLanguages()
    ensures ExampleLanguages(ExampleRules())
  {
    ExampleRulesWellFormed();
    forall w {
      ExampleFacts(w);
    }
  }

  /** Nothing fed: not terminal.  After '(' the first rule reports 0; a second '(' is rejected. */
  lemma AutomatonExampleParenthesis()
    ensures FirstTerminal(ExampleRules()).None?
    ensures Survivors(ExampleRules(), '(') != []
    ensures FirstTerminal(Survivors(ExampleRules(), '(')) == Some(0)
    ensures Survivors(Survivors(ExampleRules(), '('), '(') == []
  {
    ExampleRulesLanguages();
    ExampleStart(ExampleRules());
    ExampleParenthesis(ExampleRules());
    assert "((" == ['(', '('];
    ExampleDoubleDead(ExampleRules(), '(');
  }

  lemma ExampleStart(rules: seq<Rule<int>>)
    requires ExampleLanguages(rules)
    ensures FirstTerminal(rules).None?
  {
    GenerationStart(rules);
    FirstTerminalGeneration(rules, []);
    assert !Matches(rules[0].0, []) && !Matches(rules[1].0, []) && !Matches(rules[2].0, []);
    var tail := rules[1..];
    assert tail[0] == rules[1] && tail[1..] == [rules[2]];
    assert FirstMatching([rules[2]], []) == None by {
      assert [rules[2]][1..] == [];
    }
    assert FirstMatching(tail, []) == None;
  }

  lemma ExampleParenthesis(rules: seq<Rule<int>>)
    requires ExampleLanguages(rules)
    ensures Survivors(rules, '(') != []
    ensures FirstTerminal(Survivors(rules, '(')) == Some(0)
    ensures Survivors(Survivors(rules, '('), '(') == Generation(rules, "((")
  {
    GenerationStart(rules);
    assert [] + "(" == "(" && "(" + "(" == "((";
    GenerationStep(rules, [], '(');
    GenerationStep(rules, "(", '(');
    FirstTerminalGeneration(rules, "(");
    GenerationAlive(rules, "(");
    assert "(" + [] == "(";
    assert Matches(rules[0].0, "(" + []);
  }

  /**
   * A character that starts no integer, fed twice, leaves no rule alive:
   * the parenthesis rules match one character only.
   */
  lemma ExampleDoubleDead(rules: seq<Rule<int>>, c: char)
    requires ExampleLanguages(rules)
    requires c != '-' && !IsDigit(c, 10)
    ensures Generation(rules, [c, c]) == []
  {
    GenerationAlive(rules, [c, c]);
    forall i, s | 0 <= i < |rules| ensures !Matches(rules[i].0, [c, c] + s) {
      assert ([c, c] + s)[0] == c;
      assert |[c, c] + s| >= 2;
    }
  }

  /** Nothing fed: not terminal.  After ')' the second rule reports 1; a second ')' is rejected. */
  lemma AutomatonExampleRightParenthesis()
    ensures FirstTerminal(ExampleRules()).None?
    ensures Survivors(ExampleRules(), ')') != []
    ensures FirstTerminal(Survivors(ExampleRules(), ')')) == Some(1)
    ensures Survivors(Survivors(ExampleRules(), ')'), ')') == []
  {
    ExampleRulesLanguages();
    ExampleStart(ExampleRules());
    ExampleRightParenthesis(ExampleRules());
    assert "))" == [')', ')'];
    ExampleDoubleDead(ExampleRules(), ')');
  }

  lemma ExampleRightParenthesis(rules: seq<Rule<int>>)
    requires ExampleLanguages(rules)
    ensures Survivors(rules, ')') != []
    ensures FirstTerminal(Survivors(rules, ')')) == Some(1)
    ensures Survivors(Survivors(rules, ')'), ')') == Generation(rules, "))")
  {
    ExampleRightGeneration(rules);
    ExampleRightTerminal(rules);
  }

  lemma ExampleRightGeneration<T>(rules: seq<Rule<T>>)
    requires forall i :: 0 <= i < |rules| ==> !rules[i].0.Empty?
    ensures Survivors(rules, ')') == Generation(rules, ")")
    ensures Survivors(Survivors(rules, ')'), ')') == Generation(rules, "))")
  {
    GenerationTwice(rules, ')');
  }

  /** Feeding the rules one character, then again, reaches the generations of one and two of it. */
  lemma GenerationTwice<T>(rules: seq<Rule<T>>, c: char)
    requires forall i :: 0 <= i < |rules| ==> !rules[i].0.Empty?
    ensures Survivors(rules, c) == Generation(rules, [c])
    ensures Survivors(Survivors(rules, c), c) == Generation(rules, [c, c])
  {
    var empty: string := [];
    GenerationStart(rules);
    GenerationStep(rules, empty, c);
    assert empty + [c] == [c];
    GenerationStep(rules, [c], c);
    assert [c] + [c] == [c, c];
  }

  lemma ExampleRightTerminal(rules: seq<Rule<int>>)
    requires ExampleLanguages(rules)
    ensures Generation(rules, ")") != []
    ensures FirstTerminal(Generation(rules, ")")) == Some(1)
  {
    FirstTerminalGeneration(rules, ")");
    GenerationAlive(rules, ")");
    assert !Matches(rules[0].0, ")");
    assert rules[1..][0] == rules[1];
    assert ")" + [] == ")";
    assert Matches(rules[1].0, ")" + []);
  }

  lemma ExampleDigitsMatch(rules: seq<Rule<int>>, w: string)
    requires ExampleLanguages(rules)
    requires w == "1" || w == "11"
    ensures FirstMatching(rules, w) == Some(2)
    ensures Alive(rules, w)
  {
    assert IsIntegerText(w, 10);
    assert rules[1..][1..] == [rules[2]];
    assert !Matches(rules[0].0, w) && !Matches(rules[1..][0].0, w);
    assert Matches([rules[2]][0].0, w);
    assert FirstMatching([rules[2]], w) == Some(2);
    assert FirstMatching(rules[1..], w) == Some(2);
    assert w + [] == w;
    assert Matches(rules[2].0, w + []);
  }

  /** A digit is taken by the integer rule, which goes on accepting digits. */
  lemma AutomatonExampleDigits()
    ensures FirstTerminal(Survivors(ExampleRules(), '1')) == Some(2)
    ensures Survivors(Survivors(ExampleRules(), '1'), '1') != []
    ensures FirstTerminal(Survivors(Survivors(ExampleRules(), '1'), '1')) == Some(2)
  {
    ExampleRulesLanguages();
    ExampleDigits(ExampleRules());
  }

  lemma ExampleDigits(rules: seq<Rule<int>>)
    requires ExampleLanguages(rules)
    ensures FirstTerminal(Survivors(rules, '1')) == Some(2)
    ensures Survivors(Survivors(rules, '1'), '1') != []
    ensures FirstTerminal(Survivors(Survivors(rules, '1'), '1')) == Some(2)
  {
    GenerationStart(rules);
    assert [] + "1" == "1" && "1" + "1" == "11";
    GenerationStep(rules, [], '1');
    GenerationStep(rules, "1", '1');
    FirstTerminalGeneration(rules, "1");
    FirstTerminalGeneration(rules, "11");
    ExampleDigitsMatch(rules, "1");
    ExampleDigitsMatch(rules, "11");
    GenerationAlive(rules, "11");
  }
}
