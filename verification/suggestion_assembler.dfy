/** `ImpalaSQL.processCandidates`: turns the candidate collector's rule and
    token candidates into syntax suggestions (an entity category plus the
    tokens it would replace) and keywords. */
module SuggestionAssembler {
  import opened Wrappers
  import opened JsSemantics
  import opened Sequences
  import opened ImpalaRules
  import opened KeywordFilter

  /** A rule candidate: the rule reached at the caret and the index, in the
      sub-statement's own token stream, of the token where that rule starts. */
  datatype RuleCandidate = RuleCandidate(ruleType: RuleId, startTokenIndex: int)

  /** The collector's output, in its maps' insertion order: rule candidates
      and the token types of the token candidates. */
  datatype Candidates = Candidates(rules: seq<RuleCandidate>, tokens: seq<int>)

  datatype SyntaxSuggestion<T> = SyntaxSuggestion(syntaxContextType: EntityContextType, wordRanges: seq<T>)

  datatype Suggestions<T> = Suggestions(syntax: seq<SyntaxSuggestion<T>>, keywords: seq<string>)

  /** The tokens of the whole input from a rule's start token through the
      caret token, both indices shifted from the sub-statement into the whole
      token stream by `tokenIndexOffset`: `allTokens.slice(start, caret + 1)`
      on the shifted indices. With the shifted start and caret not negative,
      that is the run of tokens from the start through the caret, cut off at
      the end of the stream. */
  function WordRange<T>(allTokens: seq<T>, startTokenIndex: int, caretTokenIndex: int, tokenIndexOffset: int): (w: seq<T>)
    ensures 0 <= startTokenIndex + tokenIndexOffset && -1 <= caretTokenIndex + tokenIndexOffset ==>
              w == var from := startTokenIndex + tokenIndexOffset;
                   var to := Min(caretTokenIndex + tokenIndexOffset + 1, |allTokens|);
                   if from < to then allTokens[from..to] else []
  {
    Slice(allTokens, startTokenIndex + tokenIndexOffset, caretTokenIndex + tokenIndexOffset + 1)
  }

  /** What the word range holds at the edges: a start after the caret gives
      no tokens (the candidate is still reported); when start and caret both
      lie in the stream the range holds exactly the tokens from one to the
      other, inclusive, so it begins at the start token and ends at the caret
      token. */
  lemma WordRangeSpan<T>(allTokens: seq<T>, startTokenIndex: int, caretTokenIndex: int, tokenIndexOffset: int)
    ensures caretTokenIndex < startTokenIndex && -1 <= caretTokenIndex + tokenIndexOffset ==>
              WordRange(allTokens, startTokenIndex, caretTokenIndex, tokenIndexOffset) == []
    ensures var w := WordRange(allTokens, startTokenIndex, caretTokenIndex, tokenIndexOffset);
            0 <= startTokenIndex + tokenIndexOffset <= caretTokenIndex + tokenIndexOffset < |allTokens| ==>
              && |w| == caretTokenIndex - startTokenIndex + 1
              && w[0] == allTokens[startTokenIndex + tokenIndexOffset]
              && w[|w| - 1] == allTokens[caretTokenIndex + tokenIndexOffset]
  {
  }

  /** The suggestion one rule candidate contributes: present exactly when its
      rule is preferred, carrying the category whose rule that is and the
      candidate's word range. */
  function SuggestionFor<T>(c: RuleCandidate, allTokens: seq<T>, caretTokenIndex: int, tokenIndexOffset: int): (r: Option<SyntaxSuggestion<T>>)
    ensures r.Some? <==> c.ruleType in PreferredRules
    ensures r.Some? ==> PreferredRuleFor(r.value.syntaxContextType) == c.ruleType
    ensures r.Some? ==> r.value.wordRanges == WordRange(allTokens, c.startTokenIndex, caretTokenIndex, tokenIndexOffset)
  {
    match Classify(c.ruleType)
    case None => None
    case Some(ctx) => Some(SyntaxSuggestion(ctx, WordRange(allTokens, c.startTokenIndex, caretTokenIndex, tokenIndexOffset)))
  }

  function SyntaxStep<T>(allTokens: seq<T>, caretTokenIndex: int, tokenIndexOffset: int): RuleCandidate -> Option<SyntaxSuggestion<T>> {
    c => SuggestionFor(c, allTokens, caretTokenIndex, tokenIndexOffset)
  }

  /** The syntax suggestions of a sequence of rule candidates, in candidate
      order. */
  function Syntax<T>(rules: seq<RuleCandidate>, allTokens: seq<T>, caretTokenIndex: int, tokenIndexOffset: int): (r: seq<SyntaxSuggestion<T>>)
    ensures |r| <= |rules|
  {
    FilterMap(SyntaxStep(allTokens, caretTokenIndex, tokenIndexOffset), rules)
  }

  /** `processCandidates`: one pass over the rule candidates, then one over
      the token candidates. The syntax list depends only on the rule
      candidates, the tokens, the caret and the offset; the keyword list only
      on the token candidates and the vocabulary. */
  method ProcessCandidates<T>(candidates: Candidates, allTokens: seq<T>, caretTokenIndex: int, tokenIndexOffset: int, vocab: Vocabulary)
    returns (s: Suggestions<T>)
    ensures s.syntax == Syntax(candidates.rules, allTokens, caretTokenIndex, tokenIndexOffset)
    ensures s.keywords == Keywords(vocab, candidates.tokens)
    ensures |s.syntax| <= |candidates.rules| && |s.keywords| <= |candidates.tokens|
  {
    var syntax := CollectSyntax(candidates.rules, allTokens, caretTokenIndex, tokenIndexOffset);
    var keywords := CollectKeywords(candidates.tokens, vocab);
    s := Suggestions(syntax, keywords);
  }

  /** The loop over the rule candidates: classify each one and push a
      suggestion for every classified one. */
  method CollectSyntax<T>(rules: seq<RuleCandidate>, allTokens: seq<T>, caretTokenIndex: int, tokenIndexOffset: int)
    returns (syntax: seq<SyntaxSuggestion<T>>)
    ensures syntax == Syntax(rules, allTokens, caretTokenIndex, tokenIndexOffset)
  {
    syntax := [];
    var i := 0;
    while i < |rules|
      invariant i <= |rules|
      invariant syntax == Syntax(rules[..i], allTokens, caretTokenIndex, tokenIndexOffset)
    {
      var candidate := rules[i];
      var tokenRanges := WordRange(allTokens, candidate.startTokenIndex, caretTokenIndex, tokenIndexOffset);
      var syntaxContextType := Classify(candidate.ruleType);
      SyntaxSnoc(rules, i, allTokens, caretTokenIndex, tokenIndexOffset);
      if syntaxContextType.Some? {
        syntax := syntax + [SyntaxSuggestion(syntaxContextType.value, tokenRanges)];
      }
      i := i + 1;
    }
    assert rules[..i] == rules;
  }

  /** One more rule candidate appends its suggestion, if any. */
  lemma SyntaxSnoc<T>(rules: seq<RuleCandidate>, i: nat, allTokens: seq<T>, caretTokenIndex: int, tokenIndexOffset: int)
    requires i < |rules|
    ensures Syntax(rules[..i + 1], allTokens, caretTokenIndex, tokenIndexOffset)
            == Syntax(rules[..i], allTokens, caretTokenIndex, tokenIndexOffset)
               + OptionToSeq(SuggestionFor(rules[i], allTokens, caretTokenIndex, tokenIndexOffset))
  {
    var f := SyntaxStep(allTokens, caretTokenIndex, tokenIndexOffset);
    assert rules[..i + 1] == rules[..i] + [rules[i]];
    FilterMapAppend(f, rules[..i], [rules[i]]);
    assert FilterMap(f, [rules[i]]) == OptionToSeq(f(rules[i]));
  }

  /** The loop over the token candidates: push the quote-stripped display
      name of every `KW_` terminal. */
  method CollectKeywords(tokenTypes: seq<int>, vocab: Vocabulary) returns (keywords: seq<string>)
    ensures keywords == Keywords(vocab, tokenTypes)
  {
    keywords := [];
    var k := 0;
    while k < |tokenTypes|
      invariant k <= |tokenTypes|
      invariant keywords == Keywords(vocab, tokenTypes[..k])
    {
      var tokenType := tokenTypes[k];
      var symbolicName := vocab.symbolicName(tokenType);
      var displayName := vocab.displayName(tokenType);
      if Truthy(displayName) && Truthy(symbolicName) && StartsWith(symbolicName.value, "KW_") {
        var keyword := if StartsWith(displayName.value, "'") && EndsWith(displayName.value, "'")
                       then Slice(displayName.value, 1, -1)
                       else displayName.value;
        keywords := keywords + [keyword];
      }
      assert tokenTypes[..k + 1] == tokenTypes[..k] + [tokenType];
      FilterMapAppend(KeywordStep(vocab), tokenTypes[..k], [tokenType]);
      k := k + 1;
    }
    assert tokenTypes[..k] == tokenTypes;
  }

  /** The step of the syntax loop yields a suggestion exactly for a preferred
      rule, with the table's category and the candidate's word range. */
  lemma StepOnPreferred<T>(c: RuleCandidate, allTokens: seq<T>, caretTokenIndex: int, tokenIndexOffset: int)
    ensures SyntaxStep(allTokens, caretTokenIndex, tokenIndexOffset)(c).Some? <==> c.ruleType in PreferredRules
    ensures c.ruleType in PreferredRules ==>
              SyntaxStep(allTokens, caretTokenIndex, tokenIndexOffset)(c)
              == Some(SyntaxSuggestion(Classify(c.ruleType).value,
                                       WordRange(allTokens, c.startTokenIndex, caretTokenIndex, tokenIndexOffset)))
  {
  }

  /** Every classified rule candidate contributes one suggestion, at its rank
      among the classified candidates, carrying its category and its word
      range. */
  lemma SyntaxAt<T>(rules: seq<RuleCandidate>, allTokens: seq<T>, caretTokenIndex: int, tokenIndexOffset: int, i: nat)
    requires i < |rules| && rules[i].ruleType in PreferredRules
    ensures Rank(SyntaxStep(allTokens, caretTokenIndex, tokenIndexOffset), rules, i)
            < |Syntax(rules, allTokens, caretTokenIndex, tokenIndexOffset)|
    ensures Syntax(rules, allTokens, caretTokenIndex, tokenIndexOffset)[Rank(SyntaxStep(allTokens, caretTokenIndex, tokenIndexOffset), rules, i)]
            == SyntaxSuggestion(Classify(rules[i].ruleType).value,
                                WordRange(allTokens, rules[i].startTokenIndex, caretTokenIndex, tokenIndexOffset))
  {
    StepOnPreferred(rules[i], allTokens, caretTokenIndex, tokenIndexOffset);
    FilterMapAt(SyntaxStep(allTokens, caretTokenIndex, tokenIndexOffset), rules, i);
  }

  /** Every suggestion comes from a rule candidate whose rule is preferred,
      and carries that rule's category and word range. */
  lemma SyntaxOrigin<T>(rules: seq<RuleCandidate>, allTokens: seq<T>, caretTokenIndex: int, tokenIndexOffset: int, j: nat)
    returns (i: nat)
    requires j < |Syntax(rules, allTokens, caretTokenIndex, tokenIndexOffset)|
    ensures i < |rules| && rules[i].ruleType in PreferredRules
    ensures Rank(SyntaxStep(allTokens, caretTokenIndex, tokenIndexOffset), rules, i) == j
    ensures Syntax(rules, allTokens, caretTokenIndex, tokenIndexOffset)[j]
            == SyntaxSuggestion(Classify(rules[i].ruleType).value,
                                WordRange(allTokens, rules[i].startTokenIndex, caretTokenIndex, tokenIndexOffset))
  {
    i := FilterMapOrigin(SyntaxStep(allTokens, caretTokenIndex, tokenIndexOffset), rules, j);
    StepOnPreferred(rules[i], allTokens, caretTokenIndex, tokenIndexOffset);
  }

  /** Suggestions keep the order of their rule candidates. */
  lemma SyntaxInCandidateOrder<T>(rules: seq<RuleCandidate>, allTokens: seq<T>, caretTokenIndex: int, tokenIndexOffset: int, i: nat, k: nat)
    requires i < k < |rules| && rules[i].ruleType in PreferredRules
    ensures Rank(SyntaxStep(allTokens, caretTokenIndex, tokenIndexOffset), rules, i)
            < Rank(SyntaxStep(allTokens, caretTokenIndex, tokenIndexOffset), rules, k)
  {
    var f := SyntaxStep(allTokens, caretTokenIndex, tokenIndexOffset);
    assert f(rules[i]) == SuggestionFor(rules[i], allTokens, caretTokenIndex, tokenIndexOffset);
    RankIncreases(f, rules, i, k);
  }

  /** Rule candidates outside the preferred rules yield no suggestion. */
  lemma NoPreferredRuleNoSyntax<T>(rules: seq<RuleCandidate>, allTokens: seq<T>, caretTokenIndex: int, tokenIndexOffset: int)
    requires forall c :: c in rules ==> c.ruleType !in PreferredRules
    ensures Syntax(rules, allTokens, caretTokenIndex, tokenIndexOffset) == []
  {
    if 0 < |Syntax(rules, allTokens, caretTokenIndex, tokenIndexOffset)| {
      var i := SyntaxOrigin(rules, allTokens, caretTokenIndex, tokenIndexOffset, 0);
    }
  }

  /** The rule candidates come from a map keyed by rule, so no rule occurs
      twice; then no category occurs twice among the suggestions. */
  lemma SyntaxCategoriesDistinct<T>(rules: seq<RuleCandidate>, allTokens: seq<T>, caretTokenIndex: int, tokenIndexOffset: int)
    requires forall a, b :: 0 <= a < b < |rules| ==> rules[a].ruleType != rules[b].ruleType
    ensures var r := Syntax(rules, allTokens, caretTokenIndex, tokenIndexOffset);
            forall a, b :: 0 <= a < b < |r| ==> r[a].syntaxContextType != r[b].syntaxContextType
  {
    var r := Syntax(rules, allTokens, caretTokenIndex, tokenIndexOffset);
    forall a, b | 0 <= a < b < |r|
      ensures r[a].syntaxContextType != r[b].syntaxContextType
    {
      var ia := SyntaxOrigin(rules, allTokens, caretTokenIndex, tokenIndexOffset, a);
      var ib := SyntaxOrigin(rules, allTokens, caretTokenIndex, tokenIndexOffset, b);
      assert ia != ib;
      ClassifyInverse(rules[ia].ruleType, r[a].syntaxContextType);
      ClassifyInverse(rules[ib].ruleType, r[b].syntaxContextType);
      if ia < ib {
        assert rules[ia].ruleType != rules[ib].ruleType;
      } else {
        assert rules[ib].ruleType != rules[ia].ruleType;
      }
    }
  }
}
