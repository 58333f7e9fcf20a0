// Sets of indices as sequences of half-open ranges, and what counting and
// shifting mean for them.
module Ranges {
  datatype Range = Range(first: nat, second: nat)

  // Every range is non-empty and ends before the next one begins.
  ghost predicate Sorted(rs: seq<Range>) {
    && (forall i | 0 <= i < |rs| :: rs[i].first < rs[i].second)
    && (forall i, j | 0 <= i < j < |rs| :: rs[i].second < rs[j].first)
  }

  // The same, except that ranges may touch.
  ghost predicate Loose(rs: seq<Range>) {
    && (forall i | 0 <= i < |rs| :: rs[i].first < rs[i].second)
    && (forall i, j | 0 <= i < j < |rs| :: rs[i].second <= rs[j].first)
  }

  lemma {:induction false} SortedIsLoose(rs: seq<Range>)
    requires Sorted(rs)
    ensures Loose(rs)
  {
  }

  ghost predicate Has(rs: seq<Range>, x: int) {
    exists i :: 0 <= i < |rs| && rs[i].first <= x < rs[i].second
  }

  function Length(r: Range): int {
    r.second - r.first
  }

  function Total(rs: seq<Range>): int {
    if rs == [] then 0 else Length(rs[0]) + Total(rs[1..])
  }

  lemma {:induction false} TotalConcat(a: seq<Range>, b: seq<Range>)
    ensures Total(a + b) == Total(a) + Total(b)
  {
    if a == [] {
      assert a + b == b;
    } else {
      assert (a + b)[1..] == a[1..] + b;
      TotalConcat(a[1..], b);
    }
  }

  function Overlap(r: Range, lo: int, hi: int): int {
    var a := if r.first < lo then lo else r.first;
    var b := if hi < r.second then hi else r.second;
    if a < b then b - a else 0
  }

  // How many members lie in [lo, hi).
  function CountIn(rs: seq<Range>, lo: int, hi: int): (n: int)
    ensures n >= 0
  {
    if rs == [] then 0 else Overlap(rs[0], lo, hi) + CountIn(rs[1..], lo, hi)
  }

  lemma {:induction false} CountConcat(a: seq<Range>, b: seq<Range>, lo: int, hi: int)
    ensures CountIn(a + b, lo, hi) == CountIn(a, lo, hi) + CountIn(b, lo, hi)
  {
    if a == [] {
      assert a + b == b;
    } else {
      assert (a + b)[1..] == a[1..] + b;
      CountConcat(a[1..], b, lo, hi);
    }
  }

  // Ranges inside [lo, hi) count in full.
  lemma {:induction false} CountWhole(rs: seq<Range>, lo: int, hi: int)
    requires forall i | 0 <= i < |rs| :: lo <= rs[i].first < rs[i].second <= hi
    ensures CountIn(rs, lo, hi) == Total(rs)
  {
    if rs != [] {
      CountWhole(rs[1..], lo, hi);
    }
  }

  // Ranges outside [lo, hi) do not count.
  lemma {:induction false} CountNone(rs: seq<Range>, lo: int, hi: int)
    requires forall i | 0 <= i < |rs| :: rs[i].second <= lo || hi <= rs[i].first
    ensures CountIn(rs, lo, hi) == 0
  {
    if rs != [] {
      CountNone(rs[1..], lo, hi);
    }
  }

  lemma {:induction false} SortedTail(rs: seq<Range>)
    requires Sorted(rs) && rs != []
    ensures Sorted(rs[1..])
    ensures forall i | 0 <= i < |rs[1..]| :: rs[0].second < rs[1..][i].first
  {
  }

  lemma {:induction false} HasSplit(a: seq<Range>, b: seq<Range>, x: int)
    ensures Has(a + b, x) <==> Has(a, x) || Has(b, x)
  {
    if Has(a, x) {
      var i :| 0 <= i < |a| && a[i].first <= x < a[i].second;
      assert (a + b)[i] == a[i];
    }
    if Has(b, x) {
      var i :| 0 <= i < |b| && b[i].first <= x < b[i].second;
      assert (a + b)[|a| + i] == b[i];
    }
  }

  lemma {:induction false} HasHead(rs: seq<Range>, x: int)
    requires rs != []
    ensures Has(rs, x) <==> rs[0].first <= x < rs[0].second || Has(rs[1..], x)
  {
    HasSplit([rs[0]], rs[1..], x);
    assert [rs[0]] + rs[1..] == rs;
    assert Has([rs[0]], x) <==> rs[0].first <= x < rs[0].second by {
      assert [rs[0]][0] == rs[0];
    }
  }

  // ----- Counting means cardinality -----

  ghost function Interval(lo: int, hi: int): (s: set<int>)
    ensures forall x :: x in s <==> lo <= x < hi
    ensures |s| == if lo < hi then hi - lo else 0
    decreases hi - lo
  {
    if lo < hi then Interval(lo, hi - 1) + {hi - 1} else {}
  }

  ghost function Members(rs: seq<Range>, lo: int, hi: int): set<int> {
    set x | x in Interval(lo, hi) && Has(rs, x)
  }

  lemma {:induction false} HeadDisjoint(rs: seq<Range>, x: int)
    requires Sorted(rs) && rs != [] && x < rs[0].second
    ensures !Has(rs[1..], x)
  {
    SortedTail(rs);
  }

  // The members inside the first range, and apart from them all others.
  lemma {:induction false} MembersSplit(rs: seq<Range>, lo: int, hi: int)
    requires Sorted(rs) && rs != []
    ensures |Members(rs, lo, hi)| == Overlap(rs[0], lo, hi) + |Members(rs[1..], lo, hi)|
  {
    hide Has, Sorted;
    var a := if rs[0].first < lo then lo else rs[0].first;
    var b := if hi < rs[0].second then hi else rs[0].second;
    var head, tail := Interval(a, b), Members(rs[1..], lo, hi);
    forall x
      ensures x in Members(rs, lo, hi) <==> x in head || x in tail
      ensures x in head ==> x !in tail
    {
      HasHead(rs, x);
      if x < rs[0].second {
        HeadDisjoint(rs, x);
      }
    }
    assert Members(rs, lo, hi) == head + tail;
    assert head !! tail;
  }

  lemma {:induction false} CountIsCardinality(rs: seq<Range>, lo: int, hi: int)
    requires Sorted(rs)
    ensures CountIn(rs, lo, hi) == |Members(rs, lo, hi)|
  {
    hide Has;
    if rs == [] {
      forall x
        ensures !Has(rs, x)
      {
        NoneHas(x);
      }
      assert Members(rs, lo, hi) == {};
    } else {
      SortedTail(rs);
      CountIsCardinality(rs[1..], lo, hi);
      MembersSplit(rs, lo, hi);
    }
  }

  lemma {:induction false} NoneHas(x: int)
    ensures !Has([], x)
  {
  }

  // ----- shift and unshift -----

  // Where the index-th element goes when the members become free places first:
  // every range that begins at or below it moves it up by its length.
  function Shifted(rs: seq<Range>, index: int): int {
    if rs == [] || rs[0].first > index then index else Shifted(rs[1..], index + Length(rs[0]))
  }

  // Where an element at the index goes when the members before it are taken out.
  function Unshifted(rs: seq<Range>, index: int): int {
    index - CountIn(rs, 0, index)
  }

  // The shifted index is free and has exactly `index` free indices below it.
  lemma {:induction false} ShiftExact(rs: seq<Range>, index: int)
    requires Sorted(rs) && index >= 0
    ensures Shifted(rs, index) >= index
    ensures !Has(rs, Shifted(rs, index))
    ensures Unshifted(rs, Shifted(rs, index)) == index
  {
    if rs == [] {
    } else if rs[0].first > index {
      CountNone(rs, 0, index);
    } else {
      SortedTail(rs);
      ShiftExact(rs[1..], index + Length(rs[0]));
      HasHead(rs, Shifted(rs, index));
    }
  }

  // Fewer free indices lie below a smaller free index.
  lemma {:induction false} CountMonotone(rs: seq<Range>, a: int, b: int)
    requires Sorted(rs) && 0 <= a <= b
    ensures CountIn(rs, 0, b) == CountIn(rs, 0, a) + CountIn(rs, a, b)
    ensures 0 <= CountIn(rs, a, b) <= b - a
    ensures a < b && !Has(rs, a) ==> CountIn(rs, a, b) < b - a
    decreases |rs|
  {
    CountSplit(rs, 0, a, b);
    CountIsCardinality(rs, a, b);
    var all := Interval(a, b);
    SubsetSize(Members(rs, a, b), all);
    if a < b && !Has(rs, a) {
      SubsetSize(Members(rs, a, b), all - {a});
    }
  }

  lemma {:induction false} CountSplit(rs: seq<Range>, lo: int, mid: int, hi: int)
    requires lo <= mid <= hi
    ensures CountIn(rs, lo, hi) == CountIn(rs, lo, mid) + CountIn(rs, mid, hi)
  {
    if rs != [] {
      CountSplit(rs[1..], lo, mid, hi);
    }
  }

  lemma {:induction false} SubsetSize(a: set<int>, b: set<int>)
    requires a <= b
    ensures |a| <= |b|
  {
    assert b == a + (b - a);
  }

  // unshift grows with the index, strictly between free indices.
  lemma {:induction false} UnshiftMonotone(rs: seq<Range>, a: int, b: int)
    requires Sorted(rs) && 0 <= a <= b
    ensures 0 <= Unshifted(rs, a) <= Unshifted(rs, b)
    ensures a < b && !Has(rs, a) ==> Unshifted(rs, a) < Unshifted(rs, b)
  {
    CountMonotone(rs, a, b);
    CountMonotone(rs, 0, a);
  }

  // shift and unshift are inverse to each other, strictly increasing bijections
  // between all indices and the indices outside the set.
  lemma {:induction false} ShiftInverse(rs: seq<Range>, j: int)
    requires Sorted(rs) && j >= 0 && !Has(rs, j)
    ensures Shifted(rs, Unshifted(rs, j)) == j
  {
    UnshiftMonotone(rs, 0, j);
    var k := Shifted(rs, Unshifted(rs, j));
    ShiftExact(rs, Unshifted(rs, j));
    if k < j {
      UnshiftMonotone(rs, k, j);
    } else if j < k {
      UnshiftMonotone(rs, j, k);
    }
  }

  lemma {:induction false} ShiftMonotone(rs: seq<Range>, a: int, b: int)
    requires Sorted(rs) && 0 <= a < b
    ensures Shifted(rs, a) < Shifted(rs, b)
  {
    ShiftExact(rs, a);
    ShiftExact(rs, b);
    if Shifted(rs, b) <= Shifted(rs, a) {
      UnshiftMonotone(rs, Shifted(rs, b), Shifted(rs, a));
    }
  }

  // A change set maps the surviving old positions to the new positions that
  // are not insertions.
  function NewPosition(deletions: seq<Range>, insertions: seq<Range>, old_: int): int {
    Shifted(insertions, Unshifted(deletions, old_))
  }

  lemma {:induction false} NewPositionBijective(deletions: seq<Range>, insertions: seq<Range>)
    requires Sorted(deletions) && Sorted(insertions)
    ensures forall m: int | m >= 0 && !Has(deletions, m) ::
              NewPosition(deletions, insertions, m) >= 0 && !Has(insertions, NewPosition(deletions, insertions, m))
    ensures forall m, n: int | 0 <= m < n && !Has(deletions, m) && !Has(deletions, n) ::
              NewPosition(deletions, insertions, m) < NewPosition(deletions, insertions, n)
    ensures forall n: int | n >= 0 && !Has(insertions, n) ::
              var m := NewPosition(insertions, deletions, n);
              m >= 0 && !Has(deletions, m) && NewPosition(deletions, insertions, m) == n
  {
    forall m: int | m >= 0
      ensures NewPosition(deletions, insertions, m) >= 0 && !Has(insertions, NewPosition(deletions, insertions, m))
    {
      UnshiftMonotone(deletions, 0, m);
      ShiftExact(insertions, Unshifted(deletions, m));
    }
    forall m, n: int | 0 <= m < n && !Has(deletions, m) && !Has(deletions, n)
      ensures NewPosition(deletions, insertions, m) < NewPosition(deletions, insertions, n)
    {
      UnshiftMonotone(deletions, 0, m);
      UnshiftMonotone(deletions, m, n);
      ShiftMonotone(insertions, Unshifted(deletions, m), Unshifted(deletions, n));
    }
    forall n: int | n >= 0 && !Has(insertions, n)
      ensures var m := NewPosition(insertions, deletions, n);
              m >= 0 && !Has(deletions, m) && NewPosition(deletions, insertions, m) == n
    {
      UnshiftMonotone(insertions, 0, n);
      ShiftExact(deletions, Unshifted(insertions, n));
      ShiftInverse(insertions, n);
    }
  }
}
