# rustracer core in Dafny

This project models the core of `rustracer`, a ray tracer written in Rust
that is configured through a small Lisp-like scripting language. It
proves properties of that model. Three parts of the repository are
covered.

- **Scripting front end.**
  - Regular expressions matched by Brzozowski derivatives (`src/regex/mod.rs`).
  - A set of tagged regular expressions run side by side (`automaton.rs`).
  - A one-slot look-ahead iterator (`bufit.rs`).
  - The maximal-munch tokenizer and its token types (`tokenizer.rs`, `tokentype.rs`).
  - The stack parser (`parsing.rs`).
  - Values and environments (`values.rs`, `environment.rs`).
  - The evaluator and interpreter (`evaluating.rs`, `interpreter.rs`, `interpreting.rs`).
  - The number homogenisation of the prelude (`prelude.rs`).
- **Graph and NFA library.**
  - The labelled graph (`graph.rs`) and its walker, which follows epsilon edges to a fixpoint (`graphwalker.rs`).
  - The Thompson-style builder and walker (`nfa.rs`).
  - The regex combinators (`helpers.rs`) and the literal consumer (`literal.rs`).
  - `vec_diff` and `assert_same_elements` (`util/algorithms.rs`).
- **Renderer decision logic.**
  - The closest-hit rule (`primitive.rs`), unions, decorators and the xy-plane.
  - The point light and its one-shot iterator.
  - The ray tracer's shading loop.
  - The stratified sampler, together with the rectangle and rasterizer it uses.

Each source file has one Dafny module. The form of a module follows the
form of its source file:

- An object whose methods update its fields is a `class` with `modifies`
  clauses. Examples are `Automaton`, `BufferedIterator`, `Tokenizer`,
  `Parser`, `Environment`, `Graph`, `GraphWalker`, `NFABuilder`,
  `NFAWalker`, `LiteralConsumer`, `SampleIterator` and
  `PointLightIterator`.
- Loops are methods with invariants, proved against a specification
  function. Examples are `make_sequence`, `make_alternatives`,
  `vec_diff`, the worklist of `walk_epsilons`, the munch loop of
  `next_token`, the shading loops and the sampler's collection.
- Code made of expressions is datatypes, functions and lemmas.

Every operation has a partner:

- an independent denotational semantics, such as `Matches`, `Closure`,
  `Visible` or the multiset of a sequence;
- or an inverse, such as spelling and parsing;
- or an invariant the operation keeps, such as a closed graph or
  priorities below the next one.

A lemma ties the operation to its partner for all inputs.

Floating point numbers are modelled as `real`. The scene geometry and
hit queries are reduced to what the decision logic needs:

- the query for a ray's first hit is a function parameter;
- so are `Hit::smallest_positive` and `Vector3D::cos_angle_between`.

The standard library's `char::is_alphanumeric` and `str::parse::<f64>`
are parameters of the tokenizer.

## Model

| member | source | states |
|---|---|---|
| Regexes.TerminalCorrect | src/regex/mod.rs:46-55 | `is_terminal` holds exactly when the expression matches the empty string |
| Regexes.FeedCorrect | src/regex/mod.rs:57-91 | the derivative by `c` matches `s` exactly when the expression matches `c` followed by `s` (Brzozowski's law) |
| Regexes.FeedCorrectAll | src/regex/mod.rs:57-91 | the derivative law, for every continuation at once |
| Regexes.MakeSequence | src/regex/mod.rs:101-115 | the loop with early exit on Empty computes the fold `SequenceOf`; the result is Empty exactly when some child is Empty |
| Regexes.SequenceOfCorrect | src/regex/mod.rs:101-115 | a sequence matches `s` exactly when `s` splits into words of the children in order |
| Regexes.SequenceOfEmpty | src/regex/mod.rs:101-115 | the folded sequence is Empty exactly when some child is Empty |
| Regexes.SequencePairCorrect | src/regex/mod.rs:101-115 | a two-child sequence matches exactly the concatenations of a word of each |
| Regexes.MakeAlternatives | src/regex/mod.rs:117-137 | the loop that keeps at most one epsilon computes the fold `AlternativesOf`; the result is Empty exactly when every child is Empty |
| Regexes.AlternativesOfCorrect | src/regex/mod.rs:117-137 | alternatives match `s` exactly when some child does |
| Regexes.AlternativesOfEmpty | src/regex/mod.rs:117-137 | the folded alternatives are Empty exactly when every child is |
| Regexes.AlternativesFoldEpsilon | src/regex/mod.rs:117-137 | once the `contains_epsilon` flag is set, the accumulated expression matches the empty string |
| Regexes.KleeneOf | src/regex/mod.rs:197-203 | the star of Empty or Epsilon is Epsilon; any other child gets a star node |
| Regexes.KleeneOfCorrect | src/regex/mod.rs:139-145 | the smart star matches exactly what the star of its child matches |
| Regexes.SequenceOfNoInnerEmpty | src/regex/mod.rs:147-167 | a sequence of Empty-free children is Empty-free, so `Regex::sequence` keeps the assertion of `Regex::new` |
| Regexes.AlternativesOfNoInnerEmpty | src/regex/mod.rs:147-167 | alternatives of Empty-free children are Empty-free (or Empty when there are none) |
| Regexes.FeedMayCreateInnerEmpty | src/regex/mod.rs:171-175 | the derivative of the alternatives of `a` and `b` by `a` contains an inner Empty: `feed` does not keep the assertion `Regex::new` checks |
| Regexes.Regex.FeedMut | src/regex/mod.rs:223-225 | the wrapped expression becomes its derivative, and its language shifts by the fed character |
| Regexes.TryFeed | src/regex/mod.rs:233-241 | None exactly when the derivative is Empty, in which case no word starting with `c` matches; otherwise the result matches exactly the continuations |
| Regexes.AcceptsCorrect | src/regex/mod.rs:223-225 | feeding a whole string and asking `is_terminal` decides membership in the language |
| Regexes.FeedStringMatches | src/regex/mod.rs:223-225 | after feeding `w`, the expression matches `s` exactly when the original matches `w + s` |
| Regexes.FeedStringSnoc | src/regex/mod.rs:223-225 | feeding `w` and then `c` is feeding `w + [c]` |
| Regexes.FeedStringDead | src/regex/mod.rs:233-241 | for a well-formed expression, the derivative by `w` is Empty exactly when no word starting with `w` matches |
| Regexes.FeedWellFormed | src/regex/mod.rs:57-91 | derivatives keep every non-Empty expression productive (each of its parts matches something) |
| Regexes.ProductiveInhabited | src/regex/mod.rs:57-91 | a productive expression matches some word |
| Regexes.OptionalCorrect | src/regex/mod.rs:215-217 | `optional(r)` matches the empty string and exactly the words of `r` |
| Regexes.CharacterClassCorrect | src/regex/mod.rs:247-251 | a character class matches exactly the one-character strings of its characters |
| Regexes.LiteralCharCorrect | src/regex/mod.rs:209-213 | `literal(ch)` matches exactly `[ch]` |
| Regexes.OneOrMoreSingleCorrect | src/regex/mod.rs:253-255 | one-or-more of a one-character class matches exactly the non-empty strings of that class |
| Regexes.KleeneSingleCorrect | src/regex/mod.rs:139-145 | the star of a one-character class matches exactly the strings of that class |
| Regexes.PositiveIntegerCorrect | src/regex/mod.rs:277-279 | `positive_integer(radix)` matches exactly the non-empty digit strings of that radix |
| Regexes.IntegerCorrect | src/regex/mod.rs:281-283 | `integer(radix)` matches exactly the digit strings with an optional leading minus sign |
| Regexes.FloatCorrect | src/regex/mod.rs:285-291 | `float()` matches exactly an integer, a point and a non-empty digit string |
| Regexes.NumbersProductive | src/regex/mod.rs:281-291 | the integer and float expressions are productive |
| Regexes.IntegerAcceptsExamples | src/regex/mod.rs:416-425 | the integer expression accepts "0" and "-546846" |
| Regexes.IntegerRejectsExamples | src/regex/mod.rs:428-437 | the integer expression rejects "a", "0a" and "1x5", and after feeding each of them it is the Empty node |
| Regexes.IntegerDeadAfter | src/regex/mod.rs:428-437 | once a character that cannot continue an integer is fed, the integer expression is Empty whatever else was fed |
| Regexes.FloatAcceptsExamples | src/regex/mod.rs:464-473 | the float expression accepts "-546.846" and "0.0" |
| Regexes.FloatRejectsExamples | src/regex/mod.rs:476-484 | the float expression rejects "75.", ".92" and "-2" |
| Regexes.KleeneExamples | src/regex/mod.rs:364-389 | `a*` accepts "" and "aaa", rejects "b" and "ba", and is the Empty node after either |
| Regexes.KleeneDeadAfter | src/regex/mod.rs:377-389 | the star of a one-character literal is Empty once a first character outside its class is fed |
| Automaton.FirstTerminal | src/scripting/tokenizing/automaton.rs:34-36 | None exactly when no entry is terminal; otherwise the tag of the first terminal entry |
| Automaton.Automaton.constructor | src/scripting/tokenizing/automaton.rs:48-53 | the automaton starts with every rule active, in order |
| Automaton.Automaton.Reset | src/scripting/tokenizing/automaton.rs:13-15 | the state is the full rule list again |
| Automaton.Automaton.IsTerminal | src/scripting/tokenizing/automaton.rs:17-19 | terminal exactly when `current` has a tag |
| Automaton.Automaton.Current | src/scripting/tokenizing/automaton.rs:34-36 | the tag of the first state entry whose expression is terminal, no earlier entry being terminal |
| Automaton.Automaton.Feed | src/scripting/tokenizing/automaton.rs:21-32 | accepted exactly when some entry survives the character; then the state is the in-order survivors, otherwise unchanged |
| Automaton.AutomatonBuilder.constructor | src/scripting/tokenizing/automaton.rs:40-42 | the builder starts without rules |
| Automaton.AutomatonBuilder.AddRule | src/scripting/tokenizing/automaton.rs:44-46 | the rule is appended to the rules |
| Automaton.AutomatonBuilder.Eject | src/scripting/tokenizing/automaton.rs:48-53 | a fresh automaton whose rules and state are the builder's rules |
| Automaton.GenerationStep | src/scripting/tokenizing/automaton.rs:21-32 | feeding a character to the state reached by `w` gives the state reached by `w` plus that character |
| Automaton.GenerationAlive | src/scripting/tokenizing/automaton.rs:21-32 | for well-formed rules, the state reached by `w` is non-empty exactly when some rule matches a word that starts with `w` |
| Automaton.FirstTerminalGeneration | src/scripting/tokenizing/automaton.rs:34-36 | `current` after `w` is the tag of the first rule that matches `w` |
| Automaton.FeedAllGeneration | src/scripting/tokenizing/automaton.rs:21-32 | a run of successful feeds reaches the state determined by the text fed |
| Automaton.AutomatonExampleParenthesis | src/scripting/tokenizing/automaton.rs:71-78 | in the unit test, "(" makes the left-parenthesis tag current, and a second character kills every rule |
| Automaton.AutomatonExampleRightParenthesis | src/scripting/tokenizing/automaton.rs:79-85 | in the unit test, ")" makes the right-parenthesis tag current, and a second ")" kills every rule |
| Automaton.ExampleDoubleDead | src/scripting/tokenizing/automaton.rs:71-85 | with the unit test's rules, any character that is neither a digit nor '-' fed twice leaves no rule alive |
| Automaton.AutomatonExampleDigits | src/scripting/tokenizing/automaton.rs:86-95 | in the unit test, a string of digits keeps the integer tag current |
| Bufit.BufferedIterator.constructor | src/data/bufit.rs:13-17 | the first item is pulled into the buffer; the remaining items are the whole source |
| Bufit.BufferedIterator.Current | src/data/bufit.rs:19-21 | None exactly when nothing remains; otherwise the first remaining item |
| Bufit.BufferedIterator.Next | src/data/bufit.rs:23-25 | the remaining items lose their first item; nothing changes once exhausted |
| Bufit.WalkExample | src/data/bufit.rs:36-49 | walking "abcd" shows a, b, c, d and then None |
| Tokens.ParseI64 | src/scripting/tokenizing/tokentype.rs:24-34 | any parsed value lies in the 64-bit signed range |
| Tokens.ToToken | src/scripting/tokenizing/tokentype.rs:13-43 | the token has the requested type; a parenthesis succeeds exactly on its own character, an integer exactly when the text parses as i64, a float exactly when the float parser succeeds; each failure carries that type's error |
| Tokens.ToTokenSpelling | src/scripting/tokenizing/tokentype.rs:13-43 | converting a token's own spelling back gives the token (round trip) |
| Tokens.ParseIntegerText | src/scripting/tokenizing/tokentype.rs:24-34 | the decimal text of any i64 parses back to it |
| Tokens.ParseDigits | src/scripting/tokenizing/tokentype.rs:24-34 | a digit string and its negation parse to their value, or fail exactly when that value is out of range |
| Tokens.DecimalTextValue | src/scripting/tokenizing/tokentype.rs:24-34 | the digits written for `n` have value `n` |
| Tokens.ParseRejectExamples | src/scripting/tokenizing/tokentype.rs:24-34 | "-", "" and "1x" do not parse as integers |
| Tokenizer.CreateAutomaton | src/scripting/tokenizing/tokenizer.rs:18-28 | a fresh automaton over the five token rules in priority order |
| Tokenizer.TokenRulesLanguage | src/scripting/tokenizing/tokenizer.rs:18-28 | the five rules match exactly "(", ")", integer text, float text and identifier text |
| Tokenizer.IdentifierCorrect | src/scripting/tokenizing/tokenizer.rs:30-37 | the identifier expression matches exactly the non-empty strings of identifier symbols and alphanumeric characters, a leading digit included |
| Tokenizer.TokenRulesWellFormed | src/scripting/tokenizing/tokenizer.rs:18-37 | the token rules are well formed, so a dead automaton means no rule can match any longer |
| Tokenizer.DropWhitespace | src/scripting/tokenizing/tokenizer.rs:39-52 | never longer than the input, and starts with a non-whitespace character when not empty |
| Tokenizer.DropWhitespaceCount | src/scripting/tokenizing/tokenizer.rs:39-52 | what is left is a suffix of the input, and every character dropped is whitespace |
| Tokenizer.Tokenizer.constructor | src/scripting/tokenizing/tokenizer.rs:11-16 | the tokenizer holds the whole input and a fresh automaton over the token rules |
| Tokenizer.Tokenizer.SkipWhitespace | src/scripting/tokenizing/tokenizer.rs:39-52 | the remaining input becomes the input without its leading whitespace |
| Tokenizer.Tokenizer.NextToken | src/scripting/tokenizing/tokenizer.rs:58-103 | the result and the remaining input are those of the specification `NextTokenSpec` |
| Tokenizer.NextTokenSpec | src/scripting/tokenizing/tokenizer.rs:58-103 | never grows the input, and a step that yields a token or an error consumes at least one character |
| Tokenizer.NextTokenSpecEnd | src/scripting/tokenizing/tokenizer.rs:58-103 | `Ok(None)` exactly when only whitespace remains |
| Tokenizer.NextTokenSpecRest | src/scripting/tokenizing/tokenizer.rs:58-103 | the remaining input is always a suffix of the input |
| Tokenizer.NextTokenMaximalMunch | src/scripting/tokenizing/tokenizer.rs:58-103 | the token is the longest prefix that some rule can still extend, classified by the first rule that matches it exactly |
| Tokenizer.NextTokenLongestPrefix | src/scripting/tokenizing/tokenizer.rs:58-103 | given the longest live prefix after whitespace, the step yields that prefix as the token, with its start and end locations |
| Tokenizer.NoFloatErrorAfterAcceptedStart | src/scripting/tokenizing/tokenizer.rs:58-103 | with a float parser that accepts every float text, `next_token` never reports `FloatingPointNumberError` when some rule accepts the token's first character |
| Tokenizer.RejectedStartJoinsIdentifier | src/scripting/tokenizing/tokenizer.rs:62-70 | the result of the first `feed` is ignored: a first character no rule accepts still heads the token text, and an identifier made so is not identifier text |
| Tokenizer.NextTokenSkipsWhitespace | src/scripting/tokenizing/tokenizer.rs:39-52 | leading whitespace does not change the next token |
| Tokenizer.LongestAliveUnique | src/scripting/tokenizing/tokenizer.rs:58-103 | the length of the longest live prefix is unique |
| Tokenizer.MunchGeneration | src/scripting/tokenizing/tokenizer.rs:70-84 | the munch loop stops at the state reached by the text munched, and the next character would kill every rule |
| TokenizerTests.ParenthesesWithWhitespace | src/scripting/tokenizing/tokenizer.rs:175-183 | " ( ) " gives "(" at 1, ")" at 3 and then the end |
| TokenizerTests.Integers | src/scripting/tokenizing/tokenizer.rs:186-196 | "1 23 456 -10" gives the integers 1, 23, 456 and -10 with their spans, then the end |
| TokenizerTests.FloatingPoints | src/scripting/tokenizing/tokenizer.rs:209-218 | "1.0 12.3 999.7" gives the three floats with their spans, then the end |
| TokenizerTests.Identifiers | src/scripting/tokenizing/tokenizer.rs:221-230 | "+ abc HELLO-WORLD" gives three identifiers with their spans, then the end |
| TokenizerTests.Mix | src/scripting/tokenizing/tokenizer.rs:233-248 | "(foo (+ 1.0 20) 8)" gives its nine tokens in order with their spans, then the end |
| TokenizerTests.IntegerWins | src/scripting/tokenizing/tokenizer.rs:18-28 | integer text is classified as Integer, not Identifier, because the integer rule comes first |
| TokenizerTests.FloatWins | src/scripting/tokenizing/tokenizer.rs:18-28 | float text is classified as FloatingPointNumber |
| TokenizerTests.IdentifierWins | src/scripting/tokenizing/tokenizer.rs:18-28 | identifier text that is not a number is classified as Identifier |
| Parsing.Parser.constructor | src/scripting/parsing.rs:16-20 | the stack holds one empty frame |
| Parsing.Parser.Feed | src/scripting/parsing.rs:22-44 | the result and the new stack are those of the specification `FeedStack` |
| Parsing.FeedDepth | src/scripting/parsing.rs:22-44 | an atom is appended to the top frame; "(" pushes an empty frame; ")" pops the top frame into the frame below as a list, or underflows when there is no frame below |
| Parsing.Parser.Top | src/scripting/parsing.rs:46-48 | StackUnderflow exactly when the stack is empty; otherwise the top frame |
| Parsing.Parser.Push | src/scripting/parsing.rs:50-53 | the value is appended to the top frame, or StackUnderflow |
| Parsing.Parser.Pop | src/scripting/parsing.rs:55-57 | StackUnderflow on an empty stack; otherwise the top frame is removed and returned |
| Parsing.Parser.Eject | src/scripting/parsing.rs:59-65 | succeeds exactly when one frame is left, and returns it; otherwise UnfinishedList or StackUnderflow |
| Parsing.FeedAllAppend | src/scripting/parsing.rs:22-44 | feeding two token runs is feeding the first, then the second unless the first failed |
| Parsing.FeedSpelled | src/scripting/parsing.rs:22-44 | the tokens spelling a value push exactly that value onto the top frame |
| Parsing.ParseSpelledForms | src/scripting/parsing.rs:22-65 | parsing the spelling of any sequence of parsable values gives back those values (round trip) |
| Parsing.ParseListExample | src/scripting/parsing.rs:88-106 | "(1 2 3)" parses to one list of three integers |
| Parsing.ParseSymbolExample | src/scripting/parsing.rs:76-85 | a single symbol token parses to that symbol |
| Values.ExactlyOneKind | src/scripting/values.rs:19-66 | each value satisfies exactly one `is_*` predicate, the one of its variant |
| Values.EqualIsStructural | src/scripting/values.rs:70-80 | two values are equal exactly when they are identical and contain no native function |
| Values.EqualSymmetric | src/scripting/values.rs:70-80 | equality is symmetric |
| Values.NativeListNotReflexive | src/scripting/values.rs:70-80 | a list holding a native function is not equal to itself |
| Environments.Frame.Lookup | src/scripting/environment.rs:39-44 | a failed lookup reports the identifier as unbound |
| Environments.LookupVisible | src/scripting/environment.rs:39-44 | lookup succeeds exactly for the identifiers visible through the parent chain, with the nearest binding |
| Environments.Frame.Bind | src/scripting/environment.rs:46-48 | the frame keeps its parent and now binds the identifier |
| Environments.LookupBind | src/scripting/environment.rs:46-48 | after binding, a lookup of that identifier gives the value, and every other lookup is unchanged |
| Environments.BindOverwrites | src/scripting/environment.rs:46-48 | binding twice is binding the last value |
| Environments.VisibleShadows | src/scripting/environment.rs:39-44 | a frame's own binding hides its parents' bindings of the same name |
| Environments.NewFrame | src/scripting/environment.rs:33-37 | a new frame has no bindings and the given parent |
| Environments.LookupFresh | src/scripting/environment.rs:19-21 | nothing is bound in a fresh environment |
| Environments.Environment.constructor | src/scripting/environment.rs:19-21 | the environment holds a fresh top frame without parent |
| Environments.Environment.Lookup | src/scripting/environment.rs:23-25 | the binding visible from the top frame, or Unbound |
| Environments.Environment.Bind | src/scripting/environment.rs:27-29 | the top frame gains the binding: its lookup gives the value, every other lookup is unchanged |
| Evaluating.EvalLeaves | src/scripting/evaluating.rs:18-46 | atoms and native functions evaluate to themselves, a symbol to its visible binding or the unbound error, the empty list to Nil |
| Evaluating.EvalAll | src/scripting/evaluating.rs:18-46 | evaluating the items of a list, on success, yields one value per item |
| Evaluating.EvalAllFirstError | src/scripting/evaluating.rs:18-46 | when the natives leave the environment unchanged, the items evaluate in order: success exactly when every item succeeds, with their values; otherwise the first failing item's error. Every caller meets that condition, since the prelude binds no natives |
| Evaluating.EvalCall | src/scripting/evaluating.rs:18-46 | when the natives leave the environment unchanged and every item succeeds, a native function at the head is applied to the other values; any other head fails with the non-function error. Every caller meets the natives condition, since the prelude binds no natives |
| Evaluating.EvalKeepsEnvironment | src/scripting/evaluating.rs:18-46 | evaluation leaves the environment unchanged when the natives do |
| Evaluating.EvaluateIntegerExample | src/scripting/evaluating.rs:70-77 | 42 evaluates to 42 |
| Interpreter.Interpret | src/scripting/interpreter.rs:12-35 | a symbol yields exactly what `Environment::lookup` yields |
| Interpreter.InterpretCases | src/scripting/interpreter.rs:12-35 | atoms are their own value, the empty list is Nil, a symbol is looked up, and a list whose head is not a function fails with CallingNonFunction |
| Interpreting.Interpreter.constructor | src/scripting/interpreting.rs:22-26 | the interpreter starts with the prelude, in which nothing is bound |
| Interpreting.Interpreter.InterpretString | src/scripting/interpreting.rs:28-53 | the result and the new environment are those of the specification: tokenize, parse, then evaluate each form in order |
| Interpreting.EvaluateFormsLastOrFirstError | src/scripting/interpreting.rs:28-53 | when the natives leave the environment unchanged, the value of the last form, or the error of the first form that fails, wrapped as an evaluation error. Every caller meets that condition, since the prelude binds no natives |
| Interpreting.BlankInputIsNil | src/scripting/interpreting.rs:28-53 | input of only whitespace evaluates to Nil |
| Interpreting.FlipInvolutive | src/scripting/interpreting.rs:55-57 | flipping a pair twice gives the pair back |
| Interpreting.LocatedSpellsInput | src/scripting/interpreting.rs:28-53 | pairing each character with its index keeps the characters and numbers them in order |
| Prelude.CreatePrelude | src/scripting/prelude.rs:7-11 | a fresh environment in which nothing is bound |
| Prelude.HomogenizeNumbers | src/scripting/prelude.rs:29-47 | the loop computes the specification `Homogenized` |
| Prelude.HomogenizedSnoc | src/scripting/prelude.rs:29-47 | one more value keeps integers as integers, switches every earlier integer to a float at the first float, and fails on a non-number |
| Prelude.HomogenizedShape | src/scripting/prelude.rs:29-47 | fails exactly when some value is not a number; otherwise all integers stay integers, or every value is converted to a float |
| Prelude.HomogenizeMixExample | src/scripting/prelude.rs:101-108 | (5, 7.8, 9.1) becomes the floats (5.0, 7.8, 9.1) |
| Graphs.Graph.constructor | src/data/graph.rs:24-28 | a new graph has no vertices |
| Graphs.Graph.VertexCount | src/data/graph.rs:82-84 | the valid ids are exactly those below the count |
| Graphs.Graph.CreateVertex | src/data/graph.rs:30-39 | the id is the old count, and a vertex without edges is appended |
| Graphs.Graph.GetVertex | src/data/graph.rs:59-63 | the vertex for a valid id, InvalidVertexId otherwise |
| Graphs.Graph.VertexLabel | src/data/graph.rs:41-43 | the label for a valid id, InvalidVertexId otherwise |
| Graphs.Graph.SetVertexLabel | src/data/graph.rs:45-47 | for a valid id only that vertex's label changes; otherwise InvalidVertexId and nothing changes |
| Graphs.Graph.CreateEdge | src/data/graph.rs:49-57 | for a valid start, only the start vertex gains the edge; otherwise InvalidVertexId and nothing changes |
| Graphs.Vertex.AddEdgeTo | src/data/graph.rs:98-105 | the label is kept and the targets gain `end` |
| Graphs.AddEdgeToArcs | src/data/graph.rs:98-105 | the new label is appended after the earlier labels towards `end`; other targets are unchanged |
| Graphs.Vertex.ArcsTo | src/data/graph.rs:111-113 | the labels towards `to`, or NoArcsTo when there are none |
| Graphs.Graph.ReachableFrom | src/data/graph.rs:74-76 | the targets of the vertex's edges, InvalidVertexId for an invalid id |
| Graphs.Graph.ReachableThrough | src/data/graph.rs:88-94 | the targets of edges carrying the label, InvalidVertexId for an invalid id |
| Graphs.ReachableThroughIsMatching | src/data/graph.rs:117-128 | reaching through a label is reaching through edges equal to it |
| Graphs.ReachableThroughAddEdge | src/data/graph.rs:117-128 | a new edge adds its target to the targets of its label only |
| Graphs.Graph.ReachableWhere | src/data/graphwalker.rs:21-47 | the targets of edges whose label satisfies a predicate, InvalidVertexId for an invalid id |
| Graphs.Graph.ArcsBetween | src/data/graph.rs:78-80 | the labels between two vertices, InvalidVertexId for an invalid start, NoArcsTo without edges |
| Graphs.AddEdgeKeepsClosed | src/data/graph.rs:49-57 | an edge between valid vertices keeps every edge target valid |
| Graphs.VertexCountExample | src/data/graph.rs:141-153 | the count goes 0, 1, 2, 3 as vertices are created |
| Graphs.ReachableByExample | src/data/graph.rs:191-211 | the targets through 'a', 'b' and 'c' in the unit test |
| GraphWalkers.Closure | src/data/graphwalker.rs:49-71 | the epsilon closure contains the start set, is closed under epsilon edges, and stays among the valid ids |
| GraphWalkers.ClosureLeast | src/data/graphwalker.rs:49-71 | the closure is contained in every epsilon-closed superset of the start set |
| GraphWalkers.ClosureIdempotent | src/data/graphwalker.rs:49-71 | closing a closure changes nothing |
| GraphWalkers.WorklistStep | src/data/graphwalker.rs:49-71 | one worklist step keeps the active set between the start set and its closure |
| GraphWalkers.GraphWalker.constructor | src/data/graphwalker.rs:10-19 | the walker starts at the epsilon closure of the start vertex |
| GraphWalkers.GraphWalker.WalkEpsilons | src/data/graphwalker.rs:49-71 | the worklist loop makes the active set its epsilon closure |
| GraphWalkers.WorklistDone | src/data/graphwalker.rs:49-71 | once the worklist is empty the active set is exactly the epsilon closure of the start set |
| GraphWalkers.GraphWalker.WorklistRound | src/data/graphwalker.rs:59-70 | one round of the outer loop keeps the worklist invariant and either activates more vertices or schedules fewer |
| GraphWalkers.GraphWalker.Walk | src/data/graphwalker.rs:21-47 | no move and no change when no active vertex has a matching edge; otherwise moved, and active is the closure of the matching targets |
| GraphWalkers.GraphWalker.DepartingArcs | src/data/graphwalker.rs:77-87 | exactly the labels of the edges leaving some active vertex |
| GraphWalkers.GraphWalker.SetActivePositions | src/data/graphwalker.rs:89-92 | the active set becomes the closure of the given positions |
| GraphWalkers.ArcsDepartingFrom | src/data/graphwalker.rs:77-87 | the labels leaving a valid vertex, an error for an invalid one |
| GraphWalkers.EpsilonTestClosures | src/data/graphwalker.rs:165-203 | the closures of the epsilon test's vertices |
| GraphWalkers.EpsilonTestSteps | src/data/graphwalker.rs:165-203 | the moves of the epsilon test on 'a' and 'c' |
| Nfa.Build | src/scripting/regex/nfa.rs:40-98 | a build only appends vertices and returns a valid exit vertex |
| Nfa.BuildGrows | src/scripting/regex/nfa.rs:40-98 | a build keeps every vertex label and every edge already in the graph |
| Nfa.BuildClosed | src/scripting/regex/nfa.rs:40-98 | a build keeps every edge target valid |
| Nfa.LabelExitKeepsPriorities | src/scripting/regex/nfa.rs:32-38 | labelling the exit with the next priority keeps distinct terminals on distinct priorities below the next one |
| Nfa.NFABuilder.constructor | src/scripting/regex/nfa.rs:25-30 | one non-terminal start vertex, next priority 0 |
| Nfa.NFABuilder.Add | src/scripting/regex/nfa.rs:32-38 | the graph is the build of the expression from the start, with its exit labelled terminal at the current priority; the priority increases by one |
| Nfa.NFABuilder.AddHelper | src/scripting/regex/nfa.rs:40-98 | the recursive construction on the graph computes `Build` |
| Nfa.NFABuilder.Eject | src/scripting/regex/nfa.rs:100-102 | the graph and start, closed, with priorities below the next one |
| Nfa.LeastTerminalUnique | src/scripting/regex/nfa.rs:153-168 | the active terminal vertex with least priority is unique |
| Nfa.NFAWalker.constructor | src/scripting/regex/nfa.rs:110-116 | the walker starts at the epsilon closure of the start |
| Nfa.NFAWalker.Walk | src/scripting/regex/nfa.rs:118-125 | no move and no change when no active vertex has an edge for the character; otherwise moved, and active is the epsilon closure of the targets (the following `walk_epsilon` keeps it) |
| Nfa.NFAWalker.WalkChar | src/scripting/regex/nfa.rs:127-136 | the graph walker's step with `is_char`: no move and no change when no active vertex has an edge for the character; otherwise moved, and active is the epsilon closure of the targets |
| Nfa.NFAWalker.WalkEpsilon | src/scripting/regex/nfa.rs:138-147 | active becomes its epsilon closure |
| Nfa.NFAWalker.PriorityTerminalLabel | src/scripting/regex/nfa.rs:153-168 | None exactly when no active vertex is terminal; otherwise the label of the active terminal with least priority |
| Nfa.NFAWalker.SetActivePositions | src/scripting/regex/nfa.rs:170-172 | the active set becomes the closure of the given positions |
| Nfa.NFAWalker.ActivePositions | src/scripting/regex/nfa.rs:174-176 | the active positions are valid vertex ids |
| Nfa.NFAWalker.DepartingArcs | src/scripting/regex/nfa.rs:178-180 | exactly the labels of the edges leaving some active vertex |
| Nfa.LiteralTest | src/scripting/regex/nfa.rs:195-214 | with rules 'a' and 'b', walking 'a' gives label 1 and walking 'b' from the start gives label 2 |
| Nfa.PriorityTest | src/scripting/regex/nfa.rs:341-363 | the same expression added twice: "abc" gives the label added first |
| NfaTests.AbStarBuilt | src/scripting/regex/nfa.rs:40-98 | `(ab)*` builds a star exit that is the terminal, with epsilon edges from the start and from the end of "ab" to it and a loop back from the end of "ab" to the start |
| NfaTests.KleeneOfSequenceTest | src/scripting/regex/nfa.rs:313-338 | with `(ab)*` added as 1: 1 at the start, nothing after "a", 1 after "ab", nothing after "aba", 1 after "abab" |
| NfaTests.LiteralArmVertices | src/scripting/regex/nfa.rs:53-58 | a literal arm adds one vertex, reached from the entry by the literal, with an epsilon edge to the alternatives' exit |
| NfaTests.BuildLiteralArm | src/scripting/regex/nfa.rs:69-80 | the `for` loop of alternatives builds a literal arm, then the remaining arms on the result |
| NfaTests.BuildThreeLiterals | src/scripting/regex/nfa.rs:69-80 | three literal alternatives add the exit and one arm per literal, each left from the entry by its literal |
| NfaTests.Alt2Built | src/scripting/regex/nfa.rs:40-98 | `[abc][xyz]` builds the nine-vertex graph of two alternatives in sequence, the second leaving from the exit of the first |
| NfaTests.Alternatives2Test | src/scripting/regex/nfa.rs:261-290 | with `[abc][xyz]` added as 1 and any `first` in "abc" and `second` in "xyz": nothing at the start, nothing after `first`, 1 after `second` |
| NfaTests.StarOfLiteral | src/scripting/regex/defs.rs:1-7 | every letter of a word the star of a literal matches is that literal |
| NfaTests.StarOrBRejectsAb | src/scripting/regex/defs.rs:1-7 | `Alternatives[a*, b]` does not match "ab" |
| NfaTests.StarOrBBuilt | src/scripting/regex/nfa.rs:81-96 | in the graph of `Alternatives[a*, b]` the star's loop back leads to the start, from which the 'b' arm also leaves |
| NfaTests.StarOrBTest | src/scripting/regex/nfa.rs:81-96 | with `Alternatives[a*, b]` added as 1 the walker finds 1 after "ab", although `Alternatives[a*, b]` does not match "ab" |
| RegexHelpers.LiteralSeqMatches | src/scripting/regex/helpers.rs:9-11 | `literal_seq` matches exactly its word |
| RegexHelpers.CharacterClassMatches | src/scripting/regex/helpers.rs:33-35 | a character class matches exactly its one-character strings |
| RegexHelpers.OptionalMatches | src/scripting/regex/helpers.rs:53-55 | `optional` matches the empty word and the child's words |
| RegexHelpers.KleeneOfClassMatches | src/scripting/regex/helpers.rs:13-15 | the star of a class matches exactly the strings of that class |
| RegexHelpers.OneOrMoreOfClassMatches | src/scripting/regex/helpers.rs:37-39 | one-or-more of a class matches exactly the non-empty strings of that class |
| RegexHelpers.DigitMatches | src/scripting/regex/helpers.rs:41-43 | `digit` matches exactly one decimal digit |
| RegexHelpers.PositiveIntegerMatches | src/scripting/regex/helpers.rs:45-47 | `positive_integer` matches exactly the non-empty digit strings |
| RegexHelpers.IntegerMatches | src/scripting/regex/helpers.rs:57-59 | `integer` matches exactly the digit strings with an optional leading minus |
| RegexHelpers.Unwrapped | src/scripting/regex/helpers.rs:17-25 | the wrapped expressions, in order |
| LiteralConsumers.CreateConsumer | src/scripting/regex/literal.rs:18-21 | a fresh consumer awaiting the literal's character, not done |
| LiteralConsumers.LiteralConsumer.Feed | src/scripting/regex/literal.rs:25-37 | accepted exactly when the awaited character comes, which makes the consumer done; otherwise nothing changes; a done consumer refuses everything |
| LiteralConsumers.LiteralMatch | src/scripting/regex/literal.rs:52-58 | feeding the expected character is accepted and the consumer is done |
| LiteralConsumers.LiteralNoMatch | src/scripting/regex/literal.rs:61-67 | another character is refused and the consumer is not done |
| LiteralConsumers.LiteralMatchOnce | src/scripting/regex/literal.rs:25-37 | the same character is accepted once only |
| Algorithms.VecDiff | src/util/algorithms.rs:7-36 | the nested loops compute the specification `Diff` |
| Algorithms.FirstUnused | src/util/algorithms.rs:14-26 | the inner loop finds the first unused equal element of `ys` |
| Algorithms.Unpaired | src/util/algorithms.rs:28-33 | the indices of `ys` left unused, in increasing order |
| Algorithms.DiffPairs | src/util/algorithms.rs:7-36 | each shared pair relates equal elements, and no element of `ys` is paired twice |
| Algorithms.DiffPartition | src/util/algorithms.rs:7-36 | every index of `xs` is either shared or left-only, never both, in increasing order |
| Algorithms.DiffRightOnly | src/util/algorithms.rs:7-36 | the right-only indices are exactly the unpaired indices of `ys`, in increasing order |
| Algorithms.DiffGreedy | src/util/algorithms.rs:7-36 | each element of `xs` takes the first equal unused element of `ys`, and a left-only element had none left |
| Algorithms.UnpairedDisjoint | src/util/algorithms.rs:7-36 | no left-only element equals a right-only element |
| Algorithms.DiffCounts | src/util/algorithms.rs:7-36 | shared and left-only values make up `xs`, shared and right-only values make up `ys`, as multisets |
| Algorithms.DiffSameElements | src/util/algorithms.rs:7-36 | nothing is left-only or right-only exactly when the sequences are permutations of each other |
| Algorithms.AssertSameElements | src/util/algorithms.rs:39-61 | fails exactly when the two sequences are not permutations of each other |
| Algorithms.VecDiffExample | src/util/algorithms.rs:82-94 | [0, 0, 0] against [1, 0] shares (0, 1), leaves 1 and 2 on the left and 0 on the right |
| Primitives.OverwriteIfCloser | src/primitives/primitive.rs:23-30 | the result keeps the smaller t; it is the new hit exactly when that is strictly closer |
| Unions.FindFirstPositiveHit | src/primitives/union.rs:17-34 | the loop folds the children's hits in order, as `CombineAll` does |
| Unions.MissesLeaveResult | src/primitives/union.rs:17-34 | children that miss leave the result unchanged; an empty union misses |
| Unions.SingleHitWins | src/primitives/union.rs:17-34 | when exactly one child hits, the union's hit is that child's |
| Unions.TwoHitsCompete | src/primitives/union.rs:17-34 | two hits are resolved by `smallest_positive` |
| Unions.ClosestChildHit | src/primitives/union.rs:17-34 | with a `smallest_positive` that keeps the closer hit, the union hits exactly when a child does, with one of the children's hits, and no child's hit is closer |
| Decorators.FindFirstPositiveHit | src/primitives/decorator.rs:19-23 | the decorator hits exactly when its child hits; the hit is the child's with the decorator's material and every other field unchanged |
| Decorators.Decorate | src/primitives/decorator.rs:19-23 | hits exactly when the child hits, with the same hit except that its material is the decorator's |
| Decorators.OutermostMaterialWins | src/primitives/decorator.rs:19-23 | nested decorators give the outermost material |
| Planes.PlaneHit | src/primitives/plane.rs:32-59 | the plane is hit exactly when the ray starts off the plane and heads towards it; the hit lies on z = 0 at positive t, has the hit point's x and y as uv, the world x and y axes, a normal facing the ray's origin, and no material |
| Planes.PlaneHitFromAbove | src/primitives/plane.rs:72-86 | from (0, 0, 5) straight down: the origin, normal +z |
| Planes.PlaneHitFromBelow | src/primitives/plane.rs:89-103 | from (0, 0, -5) straight up: the origin, normal -z |
| PointLights.LightraysTo | src/lights/point.rs:24-32 | a fresh iterator holding the one ray from the light's position through the point, in the light's colour |
| PointLights.PointLightIterator.Next | src/lights/point.rs:38-40 | yields the pending ray once; the iterator is empty afterwards |
| RayTracers.ProcessLightRay | src/tracing/raytracer.rs:70-92 | a light ray contributes only when nothing hits it before t = 0.999 and the surface faces the light |
| RayTracers.ProcessLightRayNonNegative | src/tracing/raytracer.rs:70-92 | non-negative light and diffuse colours give a non-negative contribution |
| RayTracers.Trace | src/tracing/raytracer.rs:24-39 | the colour is the specification's; black on a miss or on a hit without material properties |
| RayTracers.ProcessLights | src/tracing/raytracer.rs:41-49 | the loop sums every light's contribution, as `SumOfLights` does |
| RayTracers.ProcessLight | src/tracing/raytracer.rs:51-68 | the iterator loop sums the light's rays and divides by their count, as `LightContribution` does |
| RayTracers.PointLightContribution | src/tracing/raytracer.rs:51-68 | for a point light the contribution is that of its single ray |
| RayTracers.SumOfLightsAppend | src/tracing/raytracer.rs:41-49 | the sum over two light lists is the sum of the two sums |
| RayTracers.SumOfLightsNonNegative | src/tracing/raytracer.rs:41-49 | non-negative lights and diffuse colour give a non-negative sum |
| RayTracers.TraceNonNegative | src/tracing/raytracer.rs:24-39 | a traced colour is never negative when the scene's colours are not |
| Samplers.CellFromRelative | src/math/rasterizer2d.rs:19-29 | a relative point of cell (col, row) is the point ((col + x) / width, (row + y) / height) of the whole rectangle |
| Samplers.Samples | src/samplers/stratified.rs:24-32 | one sample per cell, horizontal times vertical samples |
| Samplers.SampleOfCell | src/samplers/stratified.rs:38-53 | the sample at row-major index row * horizontal + col is the rectangle's point ((col + 0.5) / horizontal, (row + 0.5) / vertical) |
| Samplers.SampleAt | src/samplers/stratified.rs:38-53 | the sample at row-major index row * horizontal + col is the centre of that cell |
| Samplers.RowMajor | src/samplers/stratified.rs:38-53 | the row-major index determines its column and row |
| Samplers.SampleIterator.constructor | src/samplers/stratified.rs:24-32 | the iterator starts at row 0, column 0 |
| Samplers.SampleIterator.Next | src/samplers/stratified.rs:38-53 | past the last row, None and no change; otherwise the centre of the current cell, advancing the column and wrapping to the next row; it yields exactly the remaining samples in order |
| Samplers.Sample | src/samplers/stratified.rs:24-32 | a fresh iterator whose remaining samples are all of `Samples` |
| Samplers.Collect | src/samplers/stratified.rs:24-53 | draining the iterator gives exactly `Samples` |
| Samplers.Sampling5 | src/samplers/stratified.rs:114-121 | a 2 by 3 sampler over the rectangle at (1, 0) with axes (4, 0) and (0, 6) gives six samples, the one of cell (col, row) being (2 + 2col, 1 + 2row) |

## Left out

- f64 arithmetic is modelled as `real`. Rounding, NaN and infinities are not modelled.
- `str::parse::<f64>` is a parameter `parseFloat` of the tokenizer and of `Tokens.ToToken`. Only its success is modelled, not which text it accepts. `ToToken` states that a float token is `Ok` exactly when `parseFloat` succeeds. With a parser that accepts all float text, as Rust's does, `Tokenizer.NoFloatErrorAfterAcceptedStart` rules out `FloatingPointNumberError` whenever some rule accepts the token's first character. The error remains possible after a rejected first character, as in Rust: `".1.0"` is typed as a float with text `".1.0"`.
- Tokens.ToToken: the `ParseIntError` and `ParseFloatError` payloads of `IntegerError` and `FloatingPointNumberError` are dropped. The standard library's error values are not part of this model.
- Regexes.Digit: `char::is_digit` panics in Rust on a radix above 36 when the first character is fed. The model instead requires `2 <= radix <= 36` when the expression is built.
- Bufit.BufferedIterator: the inner iterator is a sequence of the items it will still yield. This assumes a fused iterator, one that yields nothing once it has yielded `None`.
- `Rc` sharing is not modelled: expressions, frames and graphs are values.
- Automaton.AutomatonBuilder.Eject: the builder is not consumed. Rust's move semantics have no counterpart here, so the builder stays usable.
- `char::is_alphanumeric` is a parameter of the tokenizer. The tests state only that it agrees with ASCII letters and digits on ASCII characters.
- Regexes.SequenceOfNoInnerEmpty: the debug assertion of `Regex::new` is modelled only for the constructors `sequence` and `alternatives`. `Regexes.FeedMayCreateInnerEmpty` shows that derivatives do not keep it. Rust never checks it there, because `feed` does not go through `Regex::new`.
- Evaluating.Eval: native functions are a parameter `natives`, from a handle, the environment and the arguments to a result and an environment. The prelude's natives are commented out in the source.
- The parser's `Rc<Value>` results are values.
- The stack of `Parser` is a sequence of frames.
- graph.rs and graphwalker.rs do not agree on the graph's type parameters:
  - graphwalker.rs calls `arcs_departing_from`, which graph.rs does not define;
  - it also calls `reachable_through` with a predicate, whereas graph.rs takes a label;
  - the model defines `ArcsDepartingFrom` and `ReachableWhere` as graphwalker.rs uses them.
- The automaton `NFABuilder` builds is not proved to accept exactly the words the expression matches. It does not in general: the Kleene construction loops back to the vertex it was entered from (src/scripting/regex/nfa.rs:81-96), so sibling alternatives leaving that vertex become reachable again. `NfaTests.StarOrBTest` shows the automaton of `a* | b` accepting "ab". The model builds the graph as the source does.
- Evaluating.Evaluate: `evaluate` returns `Environment::lookup` for a symbol (src/scripting/evaluating.rs:25), whose error type is `InterpreterError` (src/scripting/environment.rs:23), whereas `evaluate` returns `EvaluationError`. The model reports an unbound symbol as `EvaluationError.Unbound(id)`.
- Some unit tests are not restated one by one; general lemmas cover them:
  - `parenthesis`, `parentheses` and `floating_point` of src/scripting/tokenizing/tokenizer.rs, by `Tokenizer.NextTokenMaximalMunch`;
  - `graphwalker_walk_without_epsilons` of src/data/graphwalker.rs, and the moves of `graphwalker_walk_with_epsilons` other than 'a' and 'c', by `GraphWalkers.GraphWalker.Walk`;
  - `homogenize_single_i64`, `homogenize_single_f64`, `homogenize_multiple_i64`, `homogenize_multiple_f64` and `homogenize_mix1` of src/scripting/prelude.rs, by `Prelude.HomogenizedShape`.
- The unit tests `sequence`, `alternatives1` and `kleene` of src/scripting/regex/nfa.rs are not restated. `kleene_of_sequence` and `alternatives2` go through the same constructions.
- nfa.rs calls `walk_transitively`, which graphwalker.rs does not define. It is modelled as the epsilon closure `WalkEpsilons` computes.
- nfa.rs builds `VertexLabel::Terminal(label, priority)`, whereas defs.rs declares `Terminal` with one field. The model follows nfa.rs.
- defs.rs names the expression type `Regex` where nfa.rs imports `RegularExpression`. The model uses `RegularExpression`.
- helpers.rs uses a `Regex` struct that is not defined in the files shown. It is modelled as a wrapper around a `RegularExpression<char>`.
- literal.rs implements `Regex` and `Consumer` traits that are not defined in the files shown. Only the literal consumer is modelled.
- `GraphWalker::new` takes the graph by reference, and `NFAWalker` owns its graph. Both are modelled as a class holding a `Graph` object that it does not modify.
- Walk results are sets. The `Vec` and `HashSet` orders do not matter to any caller.
- GraphWalkers.GraphWalker.WalkEpsilons: the `todo` vector is a set, and each round takes any scheduled vertex rather than the last one pushed. The closure it reaches does not depend on that order.
- Nfa.NFABuilder.Add: `next_priority` is an unbounded integer. i32 overflow after 2^31 rules is not modelled.
- Nfa.NFAWalker.constructor: it requires a graph whose edge targets are valid vertices. Rust would panic with "Bug" on an edge to an invalid vertex.
- GraphWalkers.GraphWalker.constructor: it requires a graph whose edge targets are valid vertices and a valid start vertex. Rust would panic with "Bug" on an edge to an invalid vertex or an invalid start.
- GraphWalkers.GraphWalker.SetActivePositions: it requires a graph whose edge targets are valid vertices and valid positions. Rust would panic with "Bug" on an edge to an invalid vertex or an invalid position.
- Nfa.NFAWalker.SetActivePositions: it requires a graph whose edge targets are valid vertices and valid positions. Rust would panic with "Bug" on an edge to an invalid vertex or an invalid position.
- primitive.rs and plane.rs disagree on the fields of `Hit`. The model's `Hit` holds the fields of both.
- stratified.rs uses `Rectangle2D` and `Position2D`, whereas rasterizer2d.rs and rectangle.rs use `Rectangle<2>` and `Position<2>`. The model uses one rectangle type.
- Primitives.OverwriteIfCloser: `Hit` is `Copy`, so the update in place is a method returning the new hit.
- Unions.FindFirstPositiveHit: the children are a sequence of values, queried through the parameter `hitOf`. `Hit::smallest_positive` is a parameter.
- RayTracers.Trace: the scene's root primitive is a parameter, a function from a ray to its first hit. `cos_angle_between` is a parameter, and colours are three reals.
- Only point lights are modelled, so `process_light` always sees exactly one ray. The division by zero rays, which gives NaN in Rust, cannot arise.
- Samplers.SampleIterator.constructor: it requires `horizontal > 0 || vertical == 0`, for the reason given on the next line.
- Samplers.Sample: it requires `horizontal > 0 || vertical == 0`. With zero columns and some rows, the iterator's column never wraps, and `Rasterizer2D::at` would fail its debug assertion.
- Samplers.Sample: the `u32` to `i32` casts of the row and column are not modelled.
- Samplers.Sampling5: the test compares the whole sequence. The model states the six samples cell by cell.
- Algorithms.AssertSameElements: the macro panics with a message. The model returns `failed: bool` instead.
- The renderer's spheres and transformers, the cameras, materials, animations and image export are not part of the core modelled here.
