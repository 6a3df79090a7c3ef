/** The keyword half of `processCandidates`: a token candidate becomes a
    keyword when the parser's vocabulary calls it a `KW_` terminal, and its
    display name, less one layer of single quotes, is the keyword. */
module KeywordFilter {
  import opened Wrappers
  import opened JsSemantics
  import opened Sequences

  /** The parser's vocabulary, seen as two lookups from token type to name.
      Either may have no entry for a token type. */
  datatype Vocabulary = Vocabulary(
    symbolicName: int -> Option<string>,
    displayName: int -> Option<string>)

  /** The form ANTLR gives a literal token's display name: the text in single
      quotes. */
  function Quote(w: string): string {
    "'" + w + "'"
  }

  /** A display name that begins and ends with a single quote loses its first
      and last character; any other display name is kept as it is. No case
      change happens either way. */
  function StripQuotes(d: string): (k: string)
    ensures 0 < |d| && d[0] == '\'' && d[|d| - 1] == '\'' ==>
              |k| == Max(0, |d| - 2) && forall i :: 0 <= i < |k| ==> k[i] == d[i + 1]
    ensures !(0 < |d| && d[0] == '\'' && d[|d| - 1] == '\'') ==> k == d
  {
    if StartsWith(d, "'") && EndsWith(d, "'") then Slice(d, 1, -1) else d
  }

  /** Stripping undoes quoting, for every word. */
  lemma StripQuotesOfQuote(w: string)
    ensures StripQuotes(Quote(w)) == w
  {
    var q := Quote(w);
    assert q[1..|q| - 1] == w;
  }

  /** The filter's condition, without the redundant truthiness test on the
      symbolic name: a symbolic name that starts with `KW_` is already
      non-empty. */
  predicate IsKeywordTerminal(vocab: Vocabulary, tokenType: int) {
    && vocab.symbolicName(tokenType).Some?
    && StartsWith(vocab.symbolicName(tokenType).value, "KW_")
    && vocab.displayName(tokenType).Some?
    && vocab.displayName(tokenType).value != ""
  }

  /** The keyword one token candidate contributes, if any. It contributes one
      exactly when it is a `KW_` terminal with a non-empty display name, and
      the keyword is that display name with one layer of quotes removed. */
  function KeywordOf(vocab: Vocabulary, tokenType: int): (k: Option<string>)
    ensures k.Some? <==> IsKeywordTerminal(vocab, tokenType)
    ensures k.Some? ==> k.value == StripQuotes(vocab.displayName(tokenType).value)
  {
    var symbolicName := vocab.symbolicName(tokenType);
    var displayName := vocab.displayName(tokenType);
    if Truthy(displayName) && Truthy(symbolicName) && StartsWith(symbolicName.value, "KW_") then
      Some(StripQuotes(displayName.value))
    else
      None
  }

  function KeywordStep(vocab: Vocabulary): int -> Option<string> {
    t => KeywordOf(vocab, t)
  }

  /** The keywords of a sequence of token candidates, in candidate order. */
  function Keywords(vocab: Vocabulary, tokenTypes: seq<int>): (r: seq<string>)
    ensures |r| <= |tokenTypes|
  {
    FilterMap(KeywordStep(vocab), tokenTypes)
  }

  /** Every keyword terminal among the candidates contributes its stripped
      display name, at its rank among the keyword terminals. */
  lemma KeywordsAt(vocab: Vocabulary, tokenTypes: seq<int>, i: nat)
    requires i < |tokenTypes| && IsKeywordTerminal(vocab, tokenTypes[i])
    ensures Rank(KeywordStep(vocab), tokenTypes, i) < |Keywords(vocab, tokenTypes)|
    ensures Keywords(vocab, tokenTypes)[Rank(KeywordStep(vocab), tokenTypes, i)]
            == StripQuotes(vocab.displayName(tokenTypes[i]).value)
  {
    FilterMapAt(KeywordStep(vocab), tokenTypes, i);
  }

  /** Every keyword is the stripped display name of some keyword terminal
      among the candidates. */
  lemma KeywordsOrigin(vocab: Vocabulary, tokenTypes: seq<int>, j: nat) returns (i: nat)
    requires j < |Keywords(vocab, tokenTypes)|
    ensures i < |tokenTypes| && IsKeywordTerminal(vocab, tokenTypes[i])
    ensures Keywords(vocab, tokenTypes)[j] == StripQuotes(vocab.displayName(tokenTypes[i]).value)
    ensures Rank(KeywordStep(vocab), tokenTypes, i) == j
  {
    i := FilterMapOrigin(KeywordStep(vocab), tokenTypes, j);
  }

  /** Keywords keep the order of their token candidates. */
  lemma KeywordsInCandidateOrder(vocab: Vocabulary, tokenTypes: seq<int>, i: nat, k: nat)
    requires i < k < |tokenTypes| && IsKeywordTerminal(vocab, tokenTypes[i])
    ensures Rank(KeywordStep(vocab), tokenTypes, i) < Rank(KeywordStep(vocab), tokenTypes, k)
  {
    RankIncreases(KeywordStep(vocab), tokenTypes, i, k);
  }

  /** Only one layer of quotes goes, and nothing checks the result for
      emptiness: a display name of one or two quote characters gives the
      empty keyword, and three quotes leave one. */
  lemma StripQuotesOneLayer()
    ensures StripQuotes("'") == ""
    ensures StripQuotes("''") == ""
    ensures StripQuotes("'''") == "'"
  {
  }

  /** Token candidates that are not keyword terminals contribute nothing. */
  lemma NoKeywordTerminalNoKeywords(vocab: Vocabulary, tokenTypes: seq<int>)
    requires forall t :: t in tokenTypes ==> !IsKeywordTerminal(vocab, t)
    ensures Keywords(vocab, tokenTypes) == []
  {
    if 0 < |Keywords(vocab, tokenTypes)| {
      var i := KeywordsOrigin(vocab, tokenTypes, 0);
    }
  }
}
