/** The few pieces of ECMAScript semantics the candidate processing relies on:
    `Array.prototype.slice` / `String.prototype.slice`, `startsWith`, `endsWith`,
    and the truthiness of a value that is either a string or absent. */
module JsSemantics {
  import opened Wrappers

  function Min(a: int, b: int): int { if a <= b then a else b }

  function Max(a: int, b: int): int { if a <= b then b else a }

  /** How `slice` resolves one of its arguments against a length: a negative
      argument counts back from the end, and the result is clamped to [0, len]. */
  function RelativeIndex(rel: int, len: nat): (k: nat)
    ensures k <= len
    ensures 0 <= rel <= len ==> k == rel
    ensures rel < 0 <= rel + len ==> k == len + rel
    ensures len < rel ==> k == len
    ensures rel + len < 0 ==> k == 0
  {
    if rel < 0 then Max(len + rel, 0) else Min(rel, len)
  }

  /** `s.slice(start, end)`: the elements from the resolved start up to (not
      including) the resolved end, or nothing when the end does not lie after
      the start. */
  function Slice<T>(s: seq<T>, start: int, end: int): (r: seq<T>)
    ensures RelativeIndex(start, |s|) + |r| <= |s|
    ensures r == s[RelativeIndex(start, |s|)..RelativeIndex(start, |s|) + |r|]
    ensures |r| == Max(0, RelativeIndex(end, |s|) - RelativeIndex(start, |s|))
  {
    var from := RelativeIndex(start, |s|);
    var to := RelativeIndex(end, |s|);
    if from < to then s[from..to] else []
  }

  /** Resolving a relative index keeps the order of two arguments of the same
      sign (a negative and a non-negative one may swap places). */
  lemma RelativeIndexMonotone(a: int, b: int, len: nat)
    requires a <= b
    requires 0 <= a || b < 0
    ensures RelativeIndex(a, len) <= RelativeIndex(b, len)
  {
  }

  /** With non-negative arguments, `slice` is the ordinary sub-sequence with
      its end clamped to the length. */
  lemma SliceNonNegative<T>(s: seq<T>, start: int, end: int)
    requires 0 <= start && 0 <= end
    ensures Slice(s, start, end)
            == if start < Min(end, |s|) then s[start..Min(end, |s|)] else []
  {
  }

  /** An end that does not lie after a start of the same sign gives the empty
      slice. */
  lemma SliceEmptyWhenInverted<T>(s: seq<T>, start: int, end: int)
    ensures end <= start && (0 <= end || start < 0) ==> Slice(s, start, end) == []
  {
    if end <= start && (0 <= end || start < 0) {
      RelativeIndexMonotone(end, start, |s|);
    }
  }

  /** `s.slice(1, -1)` drops the first and the last element. */
  lemma SliceDropsEnds<T>(s: seq<T>)
    ensures |Slice(s, 1, -1)| == Max(0, |s| - 2)
    ensures 2 <= |s| ==> Slice(s, 1, -1) == s[1..|s| - 1]
  {
  }

  /** `s.startsWith(prefix)`: the first characters of `s` are those of
      `prefix`, one by one. */
  function StartsWith(s: string, prefix: string): (b: bool)
    ensures b <==> |prefix| <= |s| && forall i :: 0 <= i < |prefix| ==> s[i] == prefix[i]
  {
    |prefix| <= |s| && s[..|prefix|] == prefix
  }

  /** `s.endsWith(suffix)`: the last characters of `s` are those of
      `suffix`, one by one. */
  function EndsWith(s: string, suffix: string): (b: bool)
    ensures b <==> |suffix| <= |s| && forall i :: 0 <= i < |suffix| ==> s[|s| - |suffix| + i] == suffix[i]
  {
    |suffix| <= |s| && s[|s| - |suffix|..] == suffix
  }

  /** The truthiness of a `string | null`: the falsy values are `null` and
      the empty string. */
  predicate Truthy(o: Option<string>) {
    o.Some? && o.value != ""
  }
}
