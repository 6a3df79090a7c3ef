/** Keeping, in order, the present results of a partial step applied to each
    element: the shape of both loops in `processCandidates`, which push one
    entry for some candidates and nothing for the others. */
module Sequences {
  import opened Wrappers

  function OptionToSeq<B>(o: Option<B>): seq<B> {
    match o
    case None => []
    case Some(b) => [b]
  }

  /** The results of `f` on `xs`, in order, with the absent ones left out. */
  function FilterMap<A, B>(f: A -> Option<B>, xs: seq<A>): (r: seq<B>)
    ensures |r| <= |xs|
  {
    if |xs| == 0 then [] else OptionToSeq(f(xs[0])) + FilterMap(f, xs[1..])
  }

  /** Processing a concatenation processes each part in turn. */
  lemma {:induction false} FilterMapAppend<A, B>(f: A -> Option<B>, xs: seq<A>, ys: seq<A>)
    ensures FilterMap(f, xs + ys) == FilterMap(f, xs) + FilterMap(f, ys)
  {
    if |xs| == 0 {
      assert xs + ys == ys;
    } else {
      assert (xs + ys)[1..] == xs[1..] + ys;
      FilterMapAppend(f, xs[1..], ys);
    }
  }

  /** The number of entries the first `i` elements contribute: the position
      at which element `i`'s entry, if any, lands. */
  function Rank<A, B>(f: A -> Option<B>, xs: seq<A>, i: nat): nat
    requires i <= |xs|
  {
    |FilterMap(f, xs[..i])|
  }

  /** Every element with a result contributes that result, at its rank. */
  lemma FilterMapAt<A, B>(f: A -> Option<B>, xs: seq<A>, i: nat)
    requires i < |xs| && f(xs[i]).Some?
    ensures Rank(f, xs, i) < |FilterMap(f, xs)|
    ensures FilterMap(f, xs)[Rank(f, xs, i)] == f(xs[i]).value
  {
    assert xs == xs[..i] + ([xs[i]] + xs[i + 1..]);
    FilterMapAppend(f, xs[..i], [xs[i]] + xs[i + 1..]);
    FilterMapAppend(f, [xs[i]], xs[i + 1..]);
  }

  /** Ranks strictly increase across elements that have a result, so two
      such elements never share an entry and their entries keep their order. */
  lemma RankIncreases<A, B>(f: A -> Option<B>, xs: seq<A>, i: nat, k: nat)
    requires i < k <= |xs| && f(xs[i]).Some?
    ensures Rank(f, xs, i) < Rank(f, xs, k)
  {
    assert xs[..k] == xs[..i] + ([xs[i]] + xs[i + 1..k]);
    FilterMapAppend(f, xs[..i], [xs[i]] + xs[i + 1..k]);
    FilterMapAppend(f, [xs[i]], xs[i + 1..k]);
  }

  /** Every entry comes from some element with a result, at that element's
      rank. */
  lemma {:induction false} FilterMapOrigin<A, B>(f: A -> Option<B>, xs: seq<A>, j: nat) returns (i: nat)
    requires j < |FilterMap(f, xs)|
    ensures i < |xs| && f(xs[i]).Some?
    ensures Rank(f, xs, i) == j && FilterMap(f, xs)[j] == f(xs[i]).value
    decreases |xs|
  {
    var n := |xs| - 1;
    assert xs == xs[..n] + [xs[n]];
    FilterMapAppend(f, xs[..n], [xs[n]]);
    if j < |FilterMap(f, xs[..n])| {
      i := FilterMapOrigin(f, xs[..n], j);
      assert xs[..n][..i] == xs[..i];
    } else {
      i := n;
      assert xs[..n] == xs[..i];
    }
  }
}
