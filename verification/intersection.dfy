/**
 * `intersect(arrays)` (server.js:29): with no lists it gives `[]`; otherwise
 * it folds `(a, b) => a.filter(x => b.includes(x))` from the first list on, so
 * the result keeps the order (and any repeats) of the first voter's list.
 */
module Intersection {
  import opened Subsequences

  /** `a.filter(x => b.includes(x))`. */
  function FilterIn(a: seq<string>, b: seq<string>): seq<string>
  {
    if a == [] then [] else (if a[0] in b then [a[0]] else []) + FilterIn(a[1..], b)
  }

  /** `rest.reduce((a, b) => a.filter(x => b.includes(x)), acc)`. */
  function Reduce(acc: seq<string>, rest: seq<seq<string>>): seq<string>
    decreases |rest|
  {
    if rest == [] then acc else Reduce(FilterIn(acc, rest[0]), rest[1..])
  }

  /** `x` belongs to every one of `lists`. */
  predicate InAll(x: string, lists: seq<seq<string>>)
  {
    forall i :: 0 <= i < |lists| ==> x in lists[i]
  }

  /**
   * Reference definition: the elements of `a`, in order, that every one of
   * `lists` contains.
   */
  function CommonPart(a: seq<string>, lists: seq<seq<string>>): seq<string>
  {
    if a == [] then [] else (if InAll(a[0], lists) then [a[0]] else []) + CommonPart(a[1..], lists)
  }

  function Intersect(lists: seq<seq<string>>): (r: seq<string>)
    ensures lists == [] ==> r == []
    ensures lists != [] ==> r == CommonPart(lists[0], lists[1..])
  {
    if lists == [] then []
    else
      ReduceIsCommonPart(lists[0], lists[1..]);
      Reduce(lists[0], lists[1..])
  }

  lemma {:induction false} FilterThenCommon(a: seq<string>, b: seq<string>, rest: seq<seq<string>>)
    ensures CommonPart(FilterIn(a, b), rest) == CommonPart(a, [b] + rest)
  {
    if a != [] {
      FilterThenCommon(a[1..], b, rest);
      var x := a[0];
      assert InAll(x, [b] + rest) <==> x in b && InAll(x, rest) by {
        if x in b && InAll(x, rest) {
          forall i | 0 <= i < |[b] + rest| ensures x in ([b] + rest)[i] {
            if i > 0 {
              assert ([b] + rest)[i] == rest[i - 1];
            }
          }
        }
        if InAll(x, [b] + rest) {
          assert ([b] + rest)[0] == b;
          forall i | 0 <= i < |rest| ensures x in rest[i] {
            assert ([b] + rest)[i + 1] == rest[i];
          }
        }
      }
      var f := FilterIn(a[1..], b);
      if x in b {
        assert FilterIn(a, b) == [x] + f;
        assert ([x] + f)[0] == x && ([x] + f)[1..] == f;
      } else {
        assert FilterIn(a, b) == f;
      }
    }
  }

  /** The fold computes the reference definition. */
  lemma {:induction false} ReduceIsCommonPart(acc: seq<string>, rest: seq<seq<string>>)
    ensures Reduce(acc, rest) == CommonPart(acc, rest)
    decreases |rest|
  {
    if rest == [] {
      CommonPartOfNoLists(acc);
    } else {
      ReduceIsCommonPart(FilterIn(acc, rest[0]), rest[1..]);
      FilterThenCommon(acc, rest[0], rest[1..]);
      assert [rest[0]] + rest[1..] == rest;
    }
  }

  lemma {:induction false} CommonPartOfNoLists(a: seq<string>)
    ensures CommonPart(a, []) == a
  {
    if a != [] {
      CommonPartOfNoLists(a[1..]);
    }
  }

  lemma {:induction false} CommonPartMembership(a: seq<string>, lists: seq<seq<string>>)
    ensures forall x :: x in CommonPart(a, lists) <==> x in a && InAll(x, lists)
  {
    if a != [] {
      CommonPartMembership(a[1..], lists);
      assert a == [a[0]] + a[1..];
    }
  }

  lemma {:induction false} CommonPartIsSubsequence(a: seq<string>, lists: seq<seq<string>>)
    ensures IsSubsequence(CommonPart(a, lists), a)
  {
    if a != [] {
      CommonPartIsSubsequence(a[1..], lists);
      assert a == [a[0]] + a[1..];
      if InAll(a[0], lists) {
        assert CommonPart(a, lists) == [a[0]] + CommonPart(a[1..], lists);
        KeepFirst(a[0], CommonPart(a[1..], lists), a[1..]);
      } else {
        assert CommonPart(a, lists) == CommonPart(a[1..], lists);
        DropFirst(a[0], CommonPart(a[1..], lists), a[1..]);
      }
    }
  }

  /**
   * A day is in the intersection exactly when there is at least one list and
   * every list contains it.
   */
  lemma IntersectMembership(lists: seq<seq<string>>)
    ensures forall x :: x in Intersect(lists) <==> lists != [] && InAll(x, lists)
  {
    if lists != [] {
      CommonPartMembership(lists[0], lists[1..]);
      forall x ensures x in lists[0] && InAll(x, lists[1..]) <==> InAll(x, lists) {
        if InAll(x, lists) {
          forall i | 0 <= i < |lists[1..]| ensures x in lists[1..][i] {
            assert lists[1..][i] == lists[i + 1];
          }
        }
      }
    }
  }

  /** The intersection lists days of the first voter's list, in that list's order. */
  lemma IntersectSubsequence(lists: seq<seq<string>>)
    requires lists != []
    ensures IsSubsequence(Intersect(lists), lists[0])
  {
    CommonPartIsSubsequence(lists[0], lists[1..]);
  }

  /** A single voter's list comes back unchanged. */
  lemma IntersectSingle(a: seq<string>)
    ensures Intersect([a]) == a
  {
    CommonPartOfNoLists(a);
  }
}
