/** The sort run after every save: `Array.prototype.sort` with a comparator that
    puts later dates first. The sort is stable (equal dates keep their order) and
    ISO `YYYY-MM-DD` dates are compared as text, which is (year, month, day) order. */
module DateSort {
  import opened Types
  import opened Text
  import opened Sequences
  import IsoDate

  /** Record `a` has an earlier date than record `b`. */
  predicate Earlier(a: CotRecord, b: CotRecord) {
    LexLess(a.date, b.date)
  }

  /** Newest first: no record is followed by one with a later date. */
  predicate NewestFirst(s: seq<CotRecord>) {
    forall i, j :: 0 <= i < j < |s| ==> !Earlier(s[i], s[j])
  }

  /** For ISO dates, newest first means no record is followed by a later calendar day,
      compared as (year, month, day). */
  lemma NewestFirstIsChronological(s: seq<CotRecord>)
    requires forall i :: 0 <= i < |s| ==> IsoDate.IsIsoDate(s[i].date)
    ensures NewestFirst(s) <==>
            forall i, j :: 0 <= i < j < |s| ==> !IsoDate.ChronologicallyBefore(s[i].date, s[j].date)
  {
    forall i, j | 0 <= i < j < |s|
      ensures Earlier(s[i], s[j]) <==> IsoDate.ChronologicallyBefore(s[i].date, s[j].date)
    {
      IsoDate.IsoTextOrderIsChronological(s[i].date, s[j].date);
    }
  }

  /** Inserting `x` behind a newest-first list: it moves left past every record
      with an earlier date and stops behind the first one that is not earlier. */
  function InsertByDate(s: seq<CotRecord>, x: CotRecord): (r: seq<CotRecord>)
    ensures |r| == |s| + 1
  {
    if s == [] then [x]
    else
      var init, last := s[..|s| - 1], s[|s| - 1];
      assert s == init + [last];
      if Earlier(last, x) then InsertByDate(init, x) + [last] else s + [x]
  }

  /** The stable sort: insertion of each record, left to right, into the sorted prefix. */
  function SortNewestFirst(s: seq<CotRecord>): (r: seq<CotRecord>)
    ensures |r| == |s|
  {
    if s == [] then []
    else
      var init, last := s[..|s| - 1], s[|s| - 1];
      assert s == init + [last];
      InsertByDate(SortNewestFirst(init), last)
  }

  /** Insertion adds exactly the one record. */
  lemma {:induction false} InsertPermutes(s: seq<CotRecord>, x: CotRecord)
    ensures multiset(InsertByDate(s, x)) == multiset(s) + multiset{x}
  {
    if s != [] {
      var init, last := s[..|s| - 1], s[|s| - 1];
      assert s == init + [last];
      InsertPermutes(init, x);
    }
  }

  /** The sort is a permutation of its input. */
  lemma {:induction false} SortPermutes(s: seq<CotRecord>)
    ensures multiset(SortNewestFirst(s)) == multiset(s)
  {
    if s != [] {
      var init, last := s[..|s| - 1], s[|s| - 1];
      assert s == init + [last];
      SortPermutes(init);
      InsertPermutes(SortNewestFirst(init), last);
    }
  }

  lemma {:induction false} InsertKeepsNewestFirst(s: seq<CotRecord>, x: CotRecord)
    requires NewestFirst(s)
    ensures NewestFirst(InsertByDate(s, x))
  {
    if s != [] {
      var y, init := s[|s| - 1], s[..|s| - 1];
      assert s == init + [y];
      if Earlier(y, x) {
        InsertKeepsNewestFirst(init, x);
        InsertPermutes(init, x);
        var r := InsertByDate(init, x);
        forall k | 0 <= k < |r| ensures !Earlier(r[k], y) {
          assert r[k] in multiset(init) + multiset{x};
          if r[k] == x {
            LexLessIrreflexive(x.date);
            if Earlier(x, y) { LexLessTransitive(x.date, y.date, x.date); }
          } else {
            assert r[k] in init;
          }
        }
        assert InsertByDate(s, x) == r + [y];
      } else {
        forall k | 0 <= k < |s| ensures !Earlier(s[k], x) {
          if k < |s| - 1 { NotLessTransitive(s[k].date, y.date, x.date); }
        }
      }
    }
  }

  /** The sort's output is newest first. */
  lemma {:induction false} SortIsNewestFirst(s: seq<CotRecord>)
    ensures NewestFirst(SortNewestFirst(s))
  {
    if s != [] {
      SortIsNewestFirst(s[..|s| - 1]);
      InsertKeepsNewestFirst(SortNewestFirst(s[..|s| - 1]), s[|s| - 1]);
    }
  }

  /** A list that is already newest first comes out of the sort unchanged. */
  lemma {:induction false} SortOfNewestFirst(s: seq<CotRecord>)
    requires NewestFirst(s)
    ensures SortNewestFirst(s) == s
  {
    if s != [] {
      var init := s[..|s| - 1];
      SortOfNewestFirst(init);
      assert s == init + [s[|s| - 1]];
    }
  }

  /** Inserting behind a last record that is earlier passes that record. */
  lemma InsertPastLast(t: seq<CotRecord>, y: CotRecord, x: CotRecord)
    requires Earlier(y, x)
    ensures InsertByDate(t + [y], x) == InsertByDate(t, x) + [y]
  {
    assert (t + [y])[..|t + [y]| - 1] == t;
  }

  /** Inserting behind a last record that is not earlier appends. */
  lemma InsertAppends(t: seq<CotRecord>, x: CotRecord)
    requires t == [] || !Earlier(t[|t| - 1], x)
    ensures InsertByDate(t, x) == t + [x]
  {
  }

  /** Filtering commutes with one insertion step when the list is newest first. */
  lemma {:induction false} FilterInsert(s: seq<CotRecord>, x: CotRecord, keep: CotRecord -> bool)
    requires NewestFirst(s)
    ensures Filter(InsertByDate(s, x), keep) ==
            if keep(x) then InsertByDate(Filter(s, keep), x) else Filter(s, keep)
  {
    if s == [] {
      FilterSnoc([], x, keep);
      assert [] + [x] == [x];
    } else {
      var init, y := s[..|s| - 1], s[|s| - 1];
      assert s == init + [y];
      FilterSnoc(init, y, keep);
      var fi := Filter(init, keep);
      if Earlier(y, x) {
        assert NewestFirst(init) by {
          forall i, j | 0 <= i < j < |init| ensures !Earlier(init[i], init[j]) {
            assert init[i] == s[i] && init[j] == s[j];
          }
        }
        var ins := InsertByDate(init, x);
        InsertPastLast(init, y, x);
        assert InsertByDate(s, x) == ins + [y];
        FilterInsert(init, x, keep);
        FilterSnoc(ins, y, keep);
        if keep(x) && keep(y) {
          InsertPastLast(fi, y, x);
          calc {
            Filter(InsertByDate(s, x), keep);
            Filter(ins, keep) + [y];
            InsertByDate(fi, x) + [y];
            InsertByDate(fi + [y], x);
          }
        } else if keep(x) {
          assert Filter(s, keep) == fi + [] == fi;
          assert Filter(InsertByDate(s, x), keep) == InsertByDate(fi, x) + [] == InsertByDate(fi, x);
        } else if keep(y) {
          assert Filter(InsertByDate(s, x), keep) == fi + [y];
        } else {
          assert Filter(s, keep) == fi + [] == fi;
          assert Filter(InsertByDate(s, x), keep) == fi + [] == fi;
        }
      } else {
        InsertAppends(s, x);
        FilterSnoc(s, x, keep);
        var fs := Filter(s, keep);
        if keep(x) && fs != [] {
          var z := fs[|fs| - 1];
          assert z in s;
          var k :| 0 <= k < |s| && s[k] == z;
          if k < |s| - 1 { NotLessTransitive(z.date, y.date, x.date); }
          InsertAppends(fs, x);
        } else if keep(x) {
          InsertAppends(fs, x);
        }
      }
    }
  }

  /** Stability: filtering the sorted list is sorting the filtered list. */
  lemma {:induction false} FilterSort(s: seq<CotRecord>, keep: CotRecord -> bool)
    ensures Filter(SortNewestFirst(s), keep) == SortNewestFirst(Filter(s, keep))
  {
    if s == [] {
    } else {
      var init, x := s[..|s| - 1], s[|s| - 1];
      assert s == init + [x];
      var sorted, fi := SortNewestFirst(init), Filter(init, keep);
      assert SortNewestFirst(s) == InsertByDate(sorted, x);
      FilterSort(init, keep);
      SortIsNewestFirst(init);
      FilterInsert(sorted, x, keep);
      FilterSnoc(init, x, keep);
      if keep(x) {
        SortPrefixStep(fi + [x], |fi|);
        assert (fi + [x])[..|fi|] == fi;
        assert (fi + [x])[..|fi| + 1] == fi + [x];
        calc {
          Filter(SortNewestFirst(s), keep);
          InsertByDate(Filter(sorted, keep), x);
          InsertByDate(SortNewestFirst(fi), x);
          SortNewestFirst(fi + [x]);
          SortNewestFirst(Filter(s, keep));
        }
      } else {
        assert Filter(s, keep) == fi + [] == fi;
      }
    }
  }

  /** The test "is dated `date`". */
  function OnDate(date: string): CotRecord -> bool {
    (r: CotRecord) => r.date == date
  }

  /** The records that share one date keep their original relative order. */
  lemma SortIsStable(s: seq<CotRecord>, date: string)
    ensures Filter(SortNewestFirst(s), OnDate(date)) == Filter(s, OnDate(date))
  {
    var same := Filter(s, OnDate(date));
    FilterSort(s, OnDate(date));
    forall i, j | 0 <= i < j < |same| ensures !Earlier(same[i], same[j]) {
      LexLessIrreflexive(date);
    }
    SortOfNewestFirst(same);
  }

  /** Where the inner loop stops: `x` lands after the last record that is not
      earlier than it, and every record past that point moves one place right. */
  lemma {:induction false} InsertLands(sorted: seq<CotRecord>, j: nat, x: CotRecord)
    requires j <= |sorted|
    requires forall k :: j <= k < |sorted| ==> Earlier(sorted[k], x)
    requires j == 0 || !Earlier(sorted[j - 1], x)
    ensures InsertByDate(sorted, x) == sorted[..j] + [x] + sorted[j..]
    decreases |sorted| - j
  {
    if j == |sorted| {
      assert sorted[..j] == sorted && sorted[j..] == [];
    } else {
      var n := |sorted| - 1;
      var init := sorted[..n];
      assert sorted == init + [sorted[n]];
      InsertLands(init, j, x);
      assert init[..j] == sorted[..j];
      assert init[j..] + [sorted[n]] == sorted[j..];
    }
  }

  /** One step of the outer loop: the sorted prefix grows by one insertion. */
  lemma SortPrefixStep(s: seq<CotRecord>, i: nat)
    requires i < |s|
    ensures SortNewestFirst(s[..i + 1]) == InsertByDate(SortNewestFirst(s[..i]), s[i])
  {
    assert s[..i + 1][..i] == s[..i];
  }

  /** `InsertLands`, element by element. */
  lemma InsertLandsAt(sorted: seq<CotRecord>, j: nat, x: CotRecord)
    requires j <= |sorted|
    requires forall k :: j <= k < |sorted| ==> Earlier(sorted[k], x)
    requires j == 0 || !Earlier(sorted[j - 1], x)
    ensures forall k :: 0 <= k < j ==> InsertByDate(sorted, x)[k] == sorted[k]
    ensures InsertByDate(sorted, x)[j] == x
    ensures forall k :: j < k <= |sorted| ==> InsertByDate(sorted, x)[k] == sorted[k - 1]
  {
    InsertLands(sorted, j, x);
  }

  /** The inner loop of the insertion sort: shifts the records of `a[..i]` that are
      earlier than `x` one place right, stopping at the first that is not, and
      returns the gap left for `x`. */
  method ShiftPastEarlier(a: array<CotRecord>, i: nat, x: CotRecord) returns (j: nat)
    requires i < a.Length
    modifies a
    ensures j <= i
    ensures forall k :: 0 <= k < j ==> a[k] == old(a[k])
    ensures forall k :: j < k <= i ==> a[k] == old(a[k - 1])
    ensures forall k :: i < k < a.Length ==> a[k] == old(a[k])
    ensures forall k :: j <= k < i ==> Earlier(old(a[k]), x)
    ensures j == 0 || !Earlier(old(a[j - 1]), x)
  {
    j := i;
    while j > 0 && Earlier(a[j - 1], x)
      invariant 0 <= j <= i
      invariant forall k :: 0 <= k < j ==> a[k] == old(a[k])
      invariant forall k :: j < k <= i ==> a[k] == old(a[k - 1])
      invariant forall k :: i < k < a.Length ==> a[k] == old(a[k])
      invariant forall k :: j <= k < i ==> Earlier(old(a[k]), x)
    {
      a[j] := a[j - 1];
      j := j - 1;
    }
  }

  /** One insertion step: moves `a[i]` left into the newest-first prefix `a[..i]`. */
  method InsertAt(a: array<CotRecord>, i: nat)
    requires i < a.Length
    modifies a
    ensures a[..i + 1] == InsertByDate(old(a[..i]), old(a[i]))
    ensures a[i + 1..] == old(a[i + 1..])
  {
    var x := a[i];
    ghost var sorted := a[..i];
    ghost var rest := a[i + 1..];
    var j := ShiftPastEarlier(a, i, x);
    a[j] := x;
    InsertLandsAt(sorted, j, x);
    forall k | 0 <= k <= i
      ensures a[..i + 1][k] == InsertByDate(sorted, x)[k]
    {
    }
    forall k | 0 <= k < |rest|
      ensures a[i + 1..][k] == rest[k]
    {
    }
    assert a[i + 1..] == rest;
  }

  /** `Array.prototype.sort` on the record array, as an in-place insertion sort. */
  method SortByDateInPlace(a: array<CotRecord>)
    modifies a
    ensures a[..] == SortNewestFirst(old(a[..]))
  {
    ghost var input := a[..];
    var i := 0;
    while i < a.Length
      invariant 0 <= i <= a.Length
      invariant a[..i] == SortNewestFirst(input[..i])
      invariant a[i..] == input[i..]
    {
      InsertAt(a, i);
      SortPrefixStep(input, i);
      i := i + 1;
    }
    assert input[..a.Length] == input;
  }
}
