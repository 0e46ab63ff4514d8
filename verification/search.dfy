/** First-match search over sequences.

    The server locates a poll, or an option inside a poll, with
    `Array.prototype.find` and then mutates the element it found in place.
    The model searches the sequence of ids instead and returns the position,
    so that the handlers can update the element at that position. */
module Search {

  datatype Option<+T> = None | Some(value: T)

  /** No value occurs twice in `s`. */
  predicate Distinct<T(==)>(s: seq<T>) {
    forall a, b :: 0 <= a < b < |s| ==> s[a] != s[b]
  }

  /** `i` is the first position at which `x` occurs in `s`. */
  predicate IsFirst<T(==)>(s: seq<T>, x: T, i: int) {
    0 <= i < |s| && s[i] == x && forall j :: 0 <= j < i ==> s[j] != x
  }

  /** The position `find` stops at, or None when no element matches. */
  function FirstIndex<T(==)>(s: seq<T>, x: T): (r: Option<nat>)
    ensures r.Some? ==> IsFirst(s, x, r.value)
    ensures r.None? <==> x !in s
  {
    if |s| == 0 then None
    else if s[0] == x then Some(0)
    else match FirstIndex(s[1..], x)
      case None => None
      case Some(i) => Some(i + 1)
  }

  /** A sequence has at most one first position of a value. */
  lemma FirstIsUnique<T>(s: seq<T>, x: T, i: int)
    requires IsFirst(s, x, i)
    ensures forall j :: IsFirst(s, x, j) ==> j == i
  {
  }

  /** When the values are distinct, the first match is the only match. */
  lemma FirstOfDistinct<T>(s: seq<T>, x: T, i: int)
    requires Distinct(s)
    requires 0 <= i < |s| && s[i] == x
    ensures IsFirst(s, x, i)
    ensures FirstIndex(s, x) == Some(i)
  {
  }
}
