/**
 * Order-preserving selection: what `Array.prototype.filter`, `delete` on an
 * object and the chained filters of `intersect` all guarantee about the
 * elements they keep.
 */
module Subsequences {

  /** `s` is `t` with some elements left out, the rest in the same order. */
  predicate IsSubsequence<T(==)>(s: seq<T>, t: seq<T>)
    decreases |t|
  {
    s == [] || (t != [] && ((s[0] == t[0] && IsSubsequence(s[1..], t[1..])) || IsSubsequence(s, t[1..])))
  }

  /** Keeping the first element of `t` in front of a selection from the rest. */
  lemma KeepFirst<T>(x: T, s: seq<T>, t: seq<T>)
    requires IsSubsequence(s, t)
    ensures IsSubsequence([x] + s, [x] + t)
  {
    assert ([x] + s)[1..] == s && ([x] + t)[1..] == t;
  }

  /** Dropping the first element of `t`. */
  lemma DropFirst<T>(x: T, s: seq<T>, t: seq<T>)
    requires IsSubsequence(s, t)
    ensures IsSubsequence(s, [x] + t)
  {
    assert ([x] + t)[1..] == t;
  }
}
