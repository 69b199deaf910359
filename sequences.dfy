/**
 * Filtering a sequence and taking the first element that survives: the
 * first-match idiom every selection step of the tool is built from.
 */
module Sequences {

  /** `i` is the position of the first element of `s` that satisfies `p`. */
  predicate IsFirst<T>(s: seq<T>, i: int, p: T -> bool) {
    0 <= i < |s| && p(s[i]) && forall j :: 0 <= j < i ==> !p(s[j])
  }

  /** The elements of `s` that satisfy `p`, in their original order. */
  function Filter<T>(s: seq<T>, p: T -> bool): (r: seq<T>)
    ensures |r| <= |s|
    ensures forall x :: x in r ==> x in s && p(x)
    ensures forall i :: 0 <= i < |s| && p(s[i]) ==> s[i] in r
  {
    if s == [] then []
    else if p(s[0]) then [s[0]] + Filter(s[1..], p)
    else Filter(s[1..], p)
  }

  /**
   * `Filter(s, p)[0]` is undefined exactly when nothing satisfies `p`, and is
   * otherwise the first element of `s` that does.
   */
  lemma {:induction false} FilterHead<T>(s: seq<T>, p: T -> bool)
    ensures Filter(s, p) == [] <==> forall i :: 0 <= i < |s| ==> !p(s[i])
    ensures Filter(s, p) != [] ==> exists i :: IsFirst(s, i, p) && Filter(s, p)[0] == s[i]
  {
    if s != [] && !p(s[0]) {
      FilterHead(s[1..], p);
      if Filter(s, p) != [] {
        var i :| IsFirst(s[1..], i, p) && Filter(s[1..], p)[0] == s[1..][i];
        assert IsFirst(s, i + 1, p);
      }
    } else if s != [] {
      assert IsFirst(s, 0, p);
    }
  }

  /** Filtering by `p` and then by `q` is filtering once by their conjunction `pq`. */
  lemma {:induction false} FilterFilter<T>(s: seq<T>, p: T -> bool, q: T -> bool, pq: T -> bool)
    requires forall x :: pq(x) == (p(x) && q(x))
    ensures Filter(Filter(s, p), q) == Filter(s, pq)
  {
    if s != [] {
      FilterFilter(s[1..], p, q, pq);
      if p(s[0]) {
        assert Filter(s, p) == [s[0]] + Filter(s[1..], p);
        assert Filter(s, p)[1..] == Filter(s[1..], p);
      }
    }
  }
}
