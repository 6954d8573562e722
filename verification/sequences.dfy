/** `Array.prototype.filter` over sequences, and the facts about it that the
    delete operation, the stable sort and the pair search rely on. */
module Sequences {

  /** `a` is obtained from `b` by dropping elements: same elements, same order. */
  predicate SubsequenceOf<T(==)>(a: seq<T>, b: seq<T>)
    decreases |b|
  {
    if a == [] then true
    else if b == [] then false
    else (a[0] == b[0] && SubsequenceOf(a[1..], b[1..])) || SubsequenceOf(a, b[1..])
  }

  /** The elements of `s` that `keep` accepts, in their original order. */
  function Filter<T(==)>(s: seq<T>, keep: T -> bool): (r: seq<T>)
    ensures |r| <= |s|
    ensures forall i :: 0 <= i < |r| ==> r[i] in s && keep(r[i])
    ensures forall i :: 0 <= i < |s| && keep(s[i]) ==> s[i] in r
    ensures SubsequenceOf(r, s)
  {
    if s == [] then []
    else if keep(s[0]) then [s[0]] + Filter(s[1..], keep)
    else Filter(s[1..], keep)
  }

  /** Filtering keeps every copy of an accepted element and no copy of a rejected one. */
  lemma {:induction false} FilterCounts<T(!new)>(s: seq<T>, keep: T -> bool)
    ensures forall x :: multiset(Filter(s, keep))[x] == if keep(x) then multiset(s)[x] else 0
  {
    if s != [] {
      FilterCounts(s[1..], keep);
      assert s == [s[0]] + s[1..];
    }
  }

  /** Filtering distributes over concatenation, so kept elements keep their relative order. */
  lemma {:induction false} FilterAppend<T>(s: seq<T>, t: seq<T>, keep: T -> bool)
    ensures Filter(s + t, keep) == Filter(s, keep) + Filter(t, keep)
  {
    if s != [] {
      assert (s + t)[0] == s[0];
      assert (s + t)[1..] == s[1..] + t;
      FilterAppend(s[1..], t, keep);
      if keep(s[0]) {
        assert Filter(s + t, keep) == [s[0]] + Filter(s[1..] + t, keep);
        assert Filter(s, keep) == [s[0]] + Filter(s[1..], keep);
        assert [s[0]] + (Filter(s[1..], keep) + Filter(t, keep)) ==
               ([s[0]] + Filter(s[1..], keep)) + Filter(t, keep);
      } else {
        assert Filter(s + t, keep) == Filter(s[1..] + t, keep);
        assert Filter(s, keep) == Filter(s[1..], keep);
      }
    } else {
      assert s + t == t;
    }
  }

  /** Filtering one element past the end. */
  lemma FilterSnoc<T>(s: seq<T>, x: T, keep: T -> bool)
    ensures Filter(s + [x], keep) == Filter(s, keep) + (if keep(x) then [x] else [])
  {
    FilterAppend(s, [x], keep);
    assert Filter([x], keep) == (if keep(x) then [x] else []) by {
      assert [x][1..] == [];
    }
  }

  /** When every element is accepted, nothing is dropped. */
  lemma {:induction false} FilterKeepsAll<T>(s: seq<T>, keep: T -> bool)
    requires forall x :: x in s ==> keep(x)
    ensures Filter(s, keep) == s
  {
    if s != [] {
      FilterKeepsAll(s[1..], keep);
    }
  }

  /** Filtering twice with the same test is filtering once. */
  lemma FilterIdempotent<T>(s: seq<T>, keep: T -> bool)
    ensures Filter(Filter(s, keep), keep) == Filter(s, keep)
  {
    FilterKeepsAll(Filter(s, keep), keep);
  }

  /** Two tests that agree on every element of `s` select the same elements. */
  lemma {:induction false} FilterAgreeing<T>(s: seq<T>, k1: T -> bool, k2: T -> bool)
    requires forall x :: x in s ==> k1(x) == k2(x)
    ensures Filter(s, k1) == Filter(s, k2)
  {
    if s != [] {
      FilterAgreeing(s[1..], k1, k2);
    }
  }
}
