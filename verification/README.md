# Impala candidate processing, modelled in Dafny

This project models the last step of code completion for the Impala SQL
dialect: `ImpalaSQL.processCandidates`. The candidate collector reports two
things that are reachable at the caret. The first is a set of grammar rule
contexts (rule candidates). The second is a set of terminal token types (token
candidates). `processCandidates` turns them into `Suggestions`:

- **syntax**: one `SyntaxSuggestion` per rule candidate whose rule is one of
  the ten *preferred rules*. Each one carries the entity category
  (`TABLE_CREATE`, `TABLE`, `COLUMN`, …) and the tokens from the rule's start
  through the caret (`wordRanges`).
- **keywords**: for every token candidate whose symbolic name starts with
  `KW_` and whose display name is non-empty, that display name; when the
  display name both begins and ends with a single quote, its first and last
  characters are dropped.

The model is split into modules:

- `Wrappers`: `Option`, which stands in for `undefined` / `null`.
- `JsSemantics`: the ECMAScript meaning of `slice` (negative arguments count
  from the end, both ends are clamped, and an end not after the start gives
  nothing), `startsWith`, `endsWith`, and the truthiness of `string | null`.
  The same `Slice` serves `allTokens.slice(…)` and `displayName.slice(1, -1)`.
- `JsSwitch`: ECMAScript `switch` semantics with fall-through, for clauses
  that assign or `break`.
- `ImpalaRules`: the rule identities, the `EntityContextType` categories, the
  preferred-rules set, and the source's `switch` written clause by clause
  (`ImpalaSwitch`). Running that switch (`Classify`) is proved equal to a
  plain lookup table (`EntityTable`).
- `Sequences`: `FilterMap`, which keeps the present results of a partial
  step in order. Both loops of `processCandidates` have this shape. It also
  holds the lemmas that pin down which entry lands where.
- `KeywordFilter`: the vocabulary lookups, quote stripping and the keyword
  list.
- `SuggestionAssembler`: word ranges, the syntax list, and
  `ProcessCandidates` itself.

Inputs are abstract. Tokens are a type parameter `T`. The two candidate maps
are sequences in their insertion order. The parser's vocabulary is two total
functions `int -> Option<string>`. Rule identities are the ten named rules
plus `Other(id)` for every other rule of the grammar.

Behaviours of the code worth knowing:

- A candidate whose start lies after the caret is still reported, with an
  empty word range (`SuggestionAssembler.WordRangeSpan`).
- The stripped display name is pushed without a further emptiness test, so a
  display name `'` or `''` yields the keyword `""`
  (`KeywordFilter.StripQuotesOneLayer`).
- Only one layer of quotes is stripped, so `'''` yields `'`
  (`KeywordFilter.StripQuotesOneLayer`).
- The `columnNamePath` case has no `break` and falls through into `default`,
  which only breaks, so the category stays `COLUMN`
  (`ImpalaRules.SwitchIsTable`).

`if (syntaxContextType)` is modelled as "the classification is present". The
`EntityContextType` values are string constants whose definitions are not
part of this model; the model takes them to be non-empty, hence truthy.

## Model

| member | source | states |
|---|---|---|
| JsSemantics.RelativeIndex | src/parser/impala/index.ts:61-64 | a slice argument resolves to a position in [0, len]: an in-range non-negative argument is itself, a negative one counts back from the end, and out-of-range ones clamp to the nearest end |
| JsSemantics.Slice | src/parser/impala/index.ts:61-64 | `slice` returns the contiguous run of elements that begins at the resolved start, with length max(0, resolved end − resolved start) |
| JsSemantics.RelativeIndexMonotone | src/parser/impala/index.ts:61-64 | resolving two slice arguments of the same sign keeps their order |
| JsSemantics.SliceNonNegative | src/parser/impala/index.ts:61-64 | with non-negative arguments, `slice` is `s[start..min(end, len)]`, or empty when start is not below that end |
| JsSemantics.SliceEmptyWhenInverted | src/parser/impala/index.ts:61-64 | an end at or before a start of the same sign gives the empty slice |
| JsSemantics.SliceDropsEnds | src/parser/impala/index.ts:125 | `s.slice(1, -1)` has length max(0, n − 2) and is `s` without its first and last element |
| JsSemantics.StartsWith | src/parser/impala/index.ts:122 | `startsWith` holds exactly when the prefix is no longer than the string and matches its first characters one by one |
| JsSemantics.EndsWith | src/parser/impala/index.ts:124 | `endsWith` holds exactly when the suffix is no longer than the string and matches its last characters one by one |
| JsSwitch.FirstCase | src/parser/impala/index.ts:67-106 | the entry `case` is the first clause whose label equals the discriminant, and no earlier clause matches; absent only when no clause matches |
| JsSwitch.FirstDefault | src/parser/impala/index.ts:107-108 | the `default` clause is found exactly when one exists, and it is the first one |
| JsSwitch.Exec | src/parser/impala/index.ts:67-109 | running statements either leaves the variable as it was or sets it to a value some statement assigns; what follows the first `break` is stated by `BreakStops`, and which assignment wins by `LastAssignWins` |
| JsSwitch.LastAssignWins | src/parser/impala/index.ts:67-109 | among break-free statements the last assignment decides the value, whatever was assigned or held before it |
| JsSwitch.ExecBreakFreeThen | src/parser/impala/index.ts:67-109 | break-free statements followed by others run in sequence: the others start from the value the break-free ones leave |
| JsSwitch.BreakStops | src/parser/impala/index.ts:67-109 | statements after the first `break` have no effect: a break-free prefix, a `break` and any continuation give what the prefix alone gives |
| JsSwitch.Evaluate | src/parser/impala/index.ts:66-109 | after the switch the variable keeps its prior value or holds a value that some clause assigns; which value is stated by `EvaluateEntered` (entered clause breaks), `EvaluateFallsThrough` (it does not) and `EvaluateNoEntry` (no clause entered) |
| JsSwitch.EvaluateEntered | src/parser/impala/index.ts:66-109 | for any switch, entering at clause k whose body is break-free statements, a `break`, then anything, leaves exactly the value those statements leave from the prior value; later clauses have no effect |
| JsSwitch.EvaluateFallsThrough | src/parser/impala/index.ts:104-109 | for any switch, entering at a clause whose body has no `break` runs that body and then falls through into the following clauses with the value the body leaves (as `columnNamePath` falls into `default`) |
| JsSwitch.EvaluateNoEntry | src/parser/impala/index.ts:66-109 | a switch with no matching `case` and no `default` runs nothing and leaves the value as it was |
| JsSwitch.EntersAtCase | src/parser/impala/index.ts:67-106 | control enters at a matching `case` when no earlier `case` matches |
| JsSwitch.EntersAtDefault | src/parser/impala/index.ts:107-108 | control enters at `default` when no `case` matches |
| JsSwitch.AssignThenBreak | src/parser/impala/index.ts:68-103 | a clause that assigns and then breaks decides the value, whatever clauses follow (a corollary of `BreakStops`) |
| ImpalaRules.PreferredRuleFor | src/parser/impala/index.ts:25-36 | every category has a rule in the preferred-rules set |
| ImpalaRules.Classify | src/parser/impala/index.ts:66-111 | the switch as written, starting from `undefined`, gives each preferred rule its named category (`tableNameCreate` to TABLE_CREATE, `tableNamePath` to TABLE, …); it is defined exactly on the ten preferred rules and absent for every other rule; each category comes from its one rule; and CREATE rules give exactly the creation categories |
| ImpalaRules.SwitchIsTable | src/parser/impala/index.ts:67-109 | running the switch, fall-through included, agrees with the lookup table on every rule; `columnNamePath` still gives COLUMN although its clause has no `break` |
| ImpalaRules.TableFacts | src/parser/impala/index.ts:67-109 | the table is defined exactly on the preferred rules, is inverted by `PreferredRuleFor`, and separates creation from reference positions |
| ImpalaRules.ClassifyInverse | src/parser/impala/index.ts:67-109 | a rule is classified as category c if and only if it is c's rule (both directions) |
| Sequences.FilterMap | src/parser/impala/index.ts:58-117 | a push-some-skip-others loop yields no more entries than it has inputs |
| Sequences.FilterMapAppend | src/parser/impala/index.ts:58-117 | processing a concatenation processes each part in turn |
| Sequences.FilterMapAt | src/parser/impala/index.ts:58-117 | every input with a result contributes exactly that result, at its rank |
| Sequences.RankIncreases | src/parser/impala/index.ts:58-117 | entries of inputs with results appear in input order, never sharing a position |
| Sequences.FilterMapOrigin | src/parser/impala/index.ts:58-117 | every entry is the result of some input, at that input's rank |
| KeywordFilter.StripQuotes | src/parser/impala/index.ts:123-126 | a display name that begins and ends with `'` loses its first and last character (length max(0, n − 2)); any other is kept unchanged; no case change |
| KeywordFilter.StripQuotesOfQuote | src/parser/impala/index.ts:123-126 | stripping undoes quoting: `'w'` gives back `w` for every `w` |
| KeywordFilter.StripQuotesOneLayer | src/parser/impala/index.ts:123-127 | a display name `'` or `''` gives the empty keyword and `'''` gives `'` |
| KeywordFilter.KeywordOf | src/parser/impala/index.ts:120-128 | a token candidate yields a keyword if and only if its symbolic name exists and starts with `KW_` and its display name is non-empty; the keyword is the quote-stripped display name |
| KeywordFilter.Keywords | src/parser/impala/index.ts:119-129 | there are at most as many keywords as token candidates |
| KeywordFilter.KeywordsAt | src/parser/impala/index.ts:119-129 | every `KW_` candidate with a display name contributes its stripped display name, at its rank (`Sequences.FilterMapAt` applied to the keyword step) |
| KeywordFilter.KeywordsOrigin | src/parser/impala/index.ts:119-129 | every keyword is the stripped display name of some `KW_` candidate (`Sequences.FilterMapOrigin` applied to the keyword step) |
| KeywordFilter.KeywordsInCandidateOrder | src/parser/impala/index.ts:119-129 | keywords keep the token candidates' order (`Sequences.RankIncreases` applied to the keyword step) |
| KeywordFilter.NoKeywordTerminalNoKeywords | src/parser/impala/index.ts:119-129 | with no `KW_` candidate there are no keywords |
| SuggestionAssembler.WordRange | src/parser/impala/index.ts:60-64 | with shifted start and caret not negative, the word range is `allTokens[start+offset .. min(caret+offset+1, len))`, or empty when the start is not below that end |
| SuggestionAssembler.WordRangeSpan | src/parser/impala/index.ts:60-64 | the word range is empty when the start lies after the caret (the candidate is still reported); when both lie in the stream it holds exactly the tokens from start to caret, inclusive |
| SuggestionAssembler.SuggestionFor | src/parser/impala/index.ts:59-116 | a rule candidate contributes a suggestion exactly when its rule is preferred; the suggestion's category is the one whose rule that is, and its tokens are the candidate's word range |
| SuggestionAssembler.Syntax | src/parser/impala/index.ts:58-117 | there are at most as many suggestions as rule candidates |
| SuggestionAssembler.ProcessCandidates | src/parser/impala/index.ts:50-134 | the syntax list is determined by the rule candidates, tokens, caret and offset alone, and the keyword list by the token candidates and vocabulary alone; neither is longer than its candidate list |
| SuggestionAssembler.CollectSyntax | src/parser/impala/index.ts:58-117 | the loop over rule candidates builds exactly the syntax list |
| SuggestionAssembler.CollectKeywords | src/parser/impala/index.ts:119-129 | the loop over token candidates builds exactly the keyword list |
| SuggestionAssembler.SyntaxSnoc | src/parser/impala/index.ts:111-116 | one more rule candidate appends its suggestion, if any, at the end |
| SuggestionAssembler.SyntaxAt | src/parser/impala/index.ts:58-117 | every candidate with a preferred rule contributes one suggestion with its category and word range, at its rank (`Sequences.FilterMapAt` applied to the syntax step) |
| SuggestionAssembler.SyntaxOrigin | src/parser/impala/index.ts:58-117 | every suggestion comes from a candidate with a preferred rule and carries that rule's category and word range (`Sequences.FilterMapOrigin` applied to the syntax step) |
| SuggestionAssembler.SyntaxInCandidateOrder | src/parser/impala/index.ts:58-117 | suggestions keep the rule candidates' order (`Sequences.RankIncreases` applied to the syntax step) |
| SuggestionAssembler.NoPreferredRuleNoSyntax | src/parser/impala/index.ts:67-116 | rule candidates outside the preferred rules yield no suggestion |
| SuggestionAssembler.SyntaxCategoriesDistinct | src/parser/impala/index.ts:58-117 | when no rule occurs twice among the candidates (they are keys of a map), no category occurs twice among the suggestions |

## Left out

- Lexer and parser construction (`createLexerFromCharStream`, `createParserFromTokenStream`, src/parser/impala/index.ts:17-23): factories over generated ANTLR code that is not part of this model.
- The split listener, error listener and entity collector factories (src/parser/impala/index.ts:38-48): wiring to classes whose code is not part of this model.
- The candidate collection itself and the vocabulary internals: they come from external libraries. Their outputs are inputs here: candidate sequences and two lookup functions.
- The numeric values of the grammar's rule constants and the string values of `EntityContextType`: they are generated or defined elsewhere. Rules and categories are datatype constructors. `Other(id)` never equals a named rule; the generated rule numbers are distinct, so this matches.
- The `ruleList` field of a rule candidate: `processCandidates` never reads it.
- Caret clamping, statement splitting and tolerant parsing: callers of `processCandidates`, not part of it. They only supply `allTokens`, the caret and the offset.
- JavaScript's conversion of non-integer numbers in `slice`: indices here are integers.
