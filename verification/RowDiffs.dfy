// Turning matching blocks into deletions and insertions, and when a change set
// carries one sequence of rows onto another.
module RowDiffs {
  import opened Wrappers
  import opened Ranges
  import opened IndexSets
  import opened CollectionChanges
  import opened ChangeMoves
  import opened ChangeBuilders
  import opened RowMatches

  // ----- What a change set is for -----

  // The changes turn the old rows into the new ones: survivors land on their own
  // row, and all other places are insertions. A row that is gone is no value.
  ghost predicate CarriesOver(c: Changes, prev: seq<Option<nat>>, next: seq<nat>) {
    && (forall m: nat :: Has(c.deletions, m) ==> m < |prev|)
    && (forall n: nat :: Has(c.insertions, n) ==> n < |next|)
    && (forall m: nat | m < |prev| && !Has(c.deletions, m) ::
          0 <= NewAt(c, m) < |next| && prev[m] == Some(next[NewAt(c, m)]))
    && (forall n: nat | n < |next| && !Has(c.insertions, n) :: 0 <= OldAt(c, n) < |prev|)
  }

  ghost predicate Rising(ps: seq<nat>) {
    forall k, l | 0 <= k < l < |ps| :: ps[k] < ps[l]
  }

  // Below n exactly the positions ps are free.
  ghost predicate FreeBelow(rs: seq<Range>, ps: seq<nat>, n: nat) {
    && Rising(ps) && (forall k | 0 <= k < |ps| :: ps[k] < n)
    && (forall m: nat | m < n :: Has(rs, m) <==> m !in ps)
  }

  // The k-th free position has k free ones below it.
  lemma {:induction false} FreeRank(rs: seq<Range>, ps: seq<nat>, n: nat, k: nat)
    requires Sorted(rs) && FreeBelow(rs, ps, n) && k < |ps|
    ensures Unshifted(rs, ps[k]) == k
  {
    hide Has, Sorted, CountIn;
    var lo: int := if k == 0 then 0 else ps[k - 1];
    CountSplit(rs, 0, lo, ps[k]);
    CountIsCardinality(rs, lo, ps[k]);
    forall m: nat | lo <= m < ps[k]
      ensures m in ps ==> k > 0 && m == lo
    {
      if l: nat :| l < |ps| && ps[l] == m {
        assert l < k;
      }
    }
    if k == 0 {
      assert Members(rs, lo, ps[k]) == Interval(lo, ps[k]);
      CountIsCardinality(rs, 0, 0);
      assert Members(rs, 0, 0) == {};
    } else {
      FreeRank(rs, ps, n, k - 1);
      assert Members(rs, lo, ps[k]) == Interval(lo, ps[k]) - {lo};
    }
  }

  // Free positions on both sides, in the same order and with the same rows.
  lemma {:induction false} AlignedCarries(c: Changes, prev: seq<Option<nat>>, next: seq<nat>, olds: seq<nat>,
                                          news: seq<nat>)
    requires Proper(c) && FreeBelow(c.deletions, olds, |prev|) && FreeBelow(c.insertions, news, |next|)
    requires |olds| == |news| && forall k | 0 <= k < |olds| :: prev[olds[k]] == Some(next[news[k]])
    requires forall m: nat :: Has(c.deletions, m) ==> m < |prev|
    requires forall n: nat :: Has(c.insertions, n) ==> n < |next|
    ensures CarriesOver(c, prev, next)
  {
    hide Has, Sorted, CountIn, Shifted;
    forall k: nat | k < |olds|
      ensures NewAt(c, olds[k]) == news[k] && OldAt(c, news[k]) == olds[k]
    {
      FreeRank(c.deletions, olds, |prev|, k);
      FreeRank(c.insertions, news, |next|, k);
      assert olds[k] in olds && news[k] in news;
      ShiftInverse(c.insertions, news[k]);
      ShiftInverse(c.deletions, olds[k]);
    }
    forall m: nat | m < |prev| && !Has(c.deletions, m)
      ensures 0 <= NewAt(c, m) < |next| && prev[m] == Some(next[NewAt(c, m)])
    {
      var k :| 0 <= k < |olds| && olds[k] == m;
    }
    forall n: nat | n < |next| && !Has(c.insertions, n)
      ensures 0 <= OldAt(c, n) < |prev|
    {
      var k :| 0 <= k < |news| && news[k] == n;
    }
  }

  // ----- Sorting -----

  ghost predicate Order<T(!new)>(leq: (T, T) -> bool) {
    && (forall x, y :: leq(x, y) || leq(y, x))
    && (forall x, y, z :: leq(x, y) && leq(y, z) ==> leq(x, z))
  }

  ghost predicate InOrder<T>(s: seq<T>, leq: (T, T) -> bool) {
    forall i, j | 0 <= i < j < |s| :: leq(s[i], s[j])
  }

  // std::sort: of the result only that it is sorted and has the same elements.
  method Sort<T(!new)>(s: seq<T>, leq: (T, T) -> bool) returns (r: seq<T>)
    requires Order(leq)
    ensures InOrder(r, leq) && multiset(r) == multiset(s)
  {
    r := [];
    var i: nat := 0;
    while i < |s|
      invariant i <= |s| && InOrder(r, leq) && multiset(r) == multiset(s[..i])
    {
      var k: nat := 0;
      while k < |r| && leq(r[k], s[i])
        invariant k <= |r| && forall j | 0 <= j < k :: leq(r[j], s[i])
      {
        k := k + 1;
      }
      InsertInOrder(r, leq, s[i], k);
      assert s[..i + 1] == s[..i] + [s[i]];
      assert r == r[..k] + r[k..];
      r := r[..k] + [s[i]] + r[k..];
      i := i + 1;
    }
    assert s[..i] == s;
  }

  lemma {:induction false} InsertInOrder<T(!new)>(r: seq<T>, leq: (T, T) -> bool, x: T, k: nat)
    requires Order(leq) && InOrder(r, leq) && k <= |r| && (forall j | 0 <= j < k :: leq(r[j], x))
    requires k < |r| ==> !leq(r[k], x)
    ensures InOrder(r[..k] + [x] + r[k..], leq)
  {
  }

  // Sequences with the same elements, none of them twice.
  lemma {:induction false} SameDistinct<T>(s: seq<T>, r: seq<T>)
    requires multiset(r) == multiset(s) && forall i, j | 0 <= i < j < |s| :: s[i] != s[j]
    ensures |r| == |s| && (forall x :: x in r <==> x in s)
    ensures forall i, j | 0 <= i < j < |r| :: r[i] != r[j]
  {
    assert |multiset(r)| == |multiset(s)|;
    forall x
      ensures x in r <==> x in s
    {
      assert x in multiset(r) <==> x in multiset(s);
    }
    forall x
      ensures multiset(s)[x] <= 1
    {
      AtMostOnce(s, x);
    }
    forall i, j | 0 <= i < j < |r|
      ensures r[i] != r[j]
    {
      assert r == r[..j] + r[j..];
      assert r[i] in multiset(r[..j]) && r[j] in multiset(r[j..]) by {
        assert r[..j][i] == r[i] && r[j..][0] == r[j];
      }
      assert multiset(r)[r[i]] <= 1;
    }
  }

  lemma {:induction false} AtMostOnce<T>(s: seq<T>, x: T)
    requires forall i, j | 0 <= i < j < |s| :: s[i] != s[j]
    ensures multiset(s)[x] <= 1
  {
    if s != [] {
      AtMostOnce(s[1..], x);
      assert s == [s[0]] + s[1..];
    }
  }

  // ----- Moves in a sorted collection -----

  // A row with its position, its old position if it has one, and what is left of
  // that once the rows that are gone are taken out.
  datatype RowInfo = RowInfo(rowIndex: nat, prevTvIndex: Option<nat>, tvIndex: nat, shiftedTvIndex: nat)

  // The positions below i of ps that are not picked have joined the set.
  ghost predicate Outside(before: seq<Range>, ps: seq<nat>, picked: seq<nat>, i: nat, after: seq<Range>) {
    forall y: int :: Has(after, y) <==>
      Has(before, y) || exists x: nat :: x < i && x < |ps| && x !in picked && ps[x] == y
  }

  lemma {:induction false} OutsideNone(before: seq<Range>, ps: seq<nat>)
    ensures Outside(before, ps, [], 0, before)
  {
  }

  lemma {:induction false} OutsideOne(before: seq<Range>, ps: seq<nat>, picked: seq<nat>, i: nat, now: seq<Range>,
                                      after: seq<Range>)
    requires Outside(before, ps, picked, i, now) && i < |ps| && i !in picked
    requires forall y: int :: Has(after, y) <==> Has(now, y) || y == ps[i]
    ensures Outside(before, ps, picked, i + 1, after)
  {
    hide Has;
  }

  function Span(i: nat, size: nat): (s: seq<nat>)
    ensures |s| == size && forall k | 0 <= k < size :: s[k] == i + k
  {
    seq(size, k requires 0 <= k < size => i + k)
  }

  lemma {:induction false} OutsideSpan(before: seq<Range>, ps: seq<nat>, picked: seq<nat>, i: nat, size: nat,
                                       after: seq<Range>)
    requires Outside(before, ps, picked, i, after)
    ensures Outside(before, ps, picked + Span(i, size), i + size, after)
  {
    hide Has;
    forall x: nat
      ensures x in picked + Span(i, size) <==> x in picked || i <= x < i + size
    {
      if i <= x < i + size {
        assert Span(i, size)[x - i] == x;
      }
    }
  }

  // Rows picked on both sides: in order, below i and j, and the same rows.
  ghost predicate Aligned(a: seq<Row>, order: seq<nat>, s: seq<nat>, t: seq<nat>, i: nat, j: nat) {
    && |s| == |t| && Rising(s) && Rising(t) && i <= |a| && j <= |order|
    && forall k | 0 <= k < |s| :: s[k] < i && t[k] < j && a[s[k]].rowIndex == order[t[k]]
  }

  lemma {:induction false} AlignedSpan(w: Window, a: seq<Row>, order: seq<nat>, s: seq<nat>, t: seq<nat>, i: nat,
                                       j: nat, m: Match)
    requires Aligned(a, order, s, t, i, j) && i <= m.i && j <= m.j && Common(w, a, order, m.i, m.j, m.size)
    ensures Aligned(a, order, s + Span(m.i, m.size), t + Span(m.j, m.size), m.i + m.size, m.j + m.size)
  {
    var s', t' := s + Span(m.i, m.size), t + Span(m.j, m.size);
    forall k | 0 <= k < |s'|
      ensures s'[k] < m.i + m.size && t'[k] < m.j + m.size && a[s'[k]].rowIndex == order[t'[k]]
    {
      if k >= |s| {
        assert s'[k] == m.i + (k - |s|) && t'[k] == s'[k] - m.i + m.j;
      }
    }
  }

  function RowsOf(rows: seq<RowInfo>): (s: seq<nat>)
    ensures |s| == |rows| && forall i | 0 <= i < |s| :: s[i] == rows[i].rowIndex
  {
    seq(|rows|, i requires 0 <= i < |rows| => rows[i].rowIndex)
  }

  function NewPositions(rows: seq<RowInfo>): (s: seq<nat>)
    ensures |s| == |rows| && forall i | 0 <= i < |s| :: s[i] == rows[i].tvIndex
  {
    seq(|rows|, i requires 0 <= i < |rows| => rows[i].tvIndex)
  }

  function Positions(a: seq<Row>): (s: seq<nat>)
    ensures |s| == |a| && forall i | 0 <= i < |s| :: s[i] == a[i].tvIndex
  {
    seq(|a|, i requires 0 <= i < |a| => a[i].tvIndex)
  }

  // Every row has an old position of its own, and they come in their new order.
  ghost predicate Kept(rows: seq<RowInfo>) {
    && (forall i | 0 <= i < |rows| :: rows[i].prevTvIndex.Some?)
    && (forall i, j | 0 <= i < j < |rows| :: rows[i].prevTvIndex != rows[j].prevTvIndex)
    && Rising(NewPositions(rows))
  }

  // One of the rows was at position p, and is this row.
  ghost predicate WasAt(rows: seq<RowInfo>, row: nat, p: nat) {
    exists y :: 0 <= y < |rows| && rows[y].rowIndex == row && rows[y].prevTvIndex == Some(p)
  }

  // a is the rows in their old order.
  ghost predicate InOldOrder(rows: seq<RowInfo>, a: seq<Row>) {
    && |a| == |rows| && Rising(Positions(a))
    && (forall x | 0 <= x < |a| :: WasAt(rows, a[x].rowIndex, a[x].tvIndex))
    && (forall y | 0 <= y < |rows| && rows[y].prevTvIndex.Some? :: rows[y].prevTvIndex.value in Positions(a))
  }

  function OldRows(rows: seq<RowInfo>): (s: seq<Row>)
    requires Kept(rows)
    ensures |s| == |rows|
    ensures forall i | 0 <= i < |s| :: s[i] == Row(rows[i].rowIndex, rows[i].prevTvIndex.value)
  {
    seq(|rows|, i requires 0 <= i < |rows| && Kept(rows) => Row(rows[i].rowIndex, rows[i].prevTvIndex.value))
  }

  predicate Earlier(x: Row, y: Row) {
    x.tvIndex < y.tvIndex || (x.tvIndex == y.tvIndex && x.rowIndex <= y.rowIndex)
  }

  lemma {:induction false} SortedOldRows(rows: seq<RowInfo>, a: seq<Row>)
    requires Kept(rows) && multiset(a) == multiset(OldRows(rows)) && InOrder(a, Earlier)
    ensures InOldOrder(rows, a)
  {
    hide Rising;
    var all := OldRows(rows);
    SameDistinct(all, a);
    forall x | 0 <= x < |a|
      ensures WasAt(rows, a[x].rowIndex, a[x].tvIndex)
    {
      assert a[x] in all;
      var y :| 0 <= y < |all| && all[y] == a[x];
    }
    forall y | 0 <= y < |rows|
      ensures rows[y].prevTvIndex.value in Positions(a)
    {
      assert all[y] in a;
      var x :| 0 <= x < |a| && a[x] == all[y];
      assert Positions(a)[x] == all[y].tvIndex;
    }
    SortedRises(rows, a);
  }

  lemma {:induction false} SortedRises(rows: seq<RowInfo>, a: seq<Row>)
    requires Kept(rows) && InOrder(a, Earlier) && (forall x :: x in a ==> x in OldRows(rows))
    requires forall i, j | 0 <= i < j < |a| :: a[i] != a[j]
    ensures Rising(Positions(a))
  {
    var all := OldRows(rows);
    forall i, j | 0 <= i < j < |a|
      ensures a[i].tvIndex < a[j].tvIndex
    {
      assert a[i] in all && a[j] in all && Earlier(a[i], a[j]);
      var x, y :| 0 <= x < |all| && 0 <= y < |all| && all[x] == a[i] && all[y] == a[j];
    }
  }

  method OldOrder(rows: seq<RowInfo>) returns (a: seq<Row>)
    requires Kept(rows)
    ensures InOldOrder(rows, a)
  {
    hide Kept, InOldOrder;
    a := Sort(OldRows(rows), Earlier);
    SortedOldRows(rows, a);
  }

  method NewOrder(rows: seq<RowInfo>) returns (b: seq<Row>)
    ensures Listing(b, RowsOf(rows))
  {
    var all := seq(|rows|, i requires 0 <= i < |rows| => Row(rows[i].rowIndex, i));
    b := Sort(all, (x: Row, y: Row) => Before(x, y) || x == y);
    SameDistinct(all, b);
    forall x | 0 <= x < |b|
      ensures b[x].tvIndex < |rows| && rows[b[x].tvIndex].rowIndex == b[x].rowIndex
    {
      assert b[x] in all;
    }
    forall j | 0 <= j < |rows|
      ensures Row(rows[j].rowIndex, j) in b
    {
      assert all[j] in all;
    }
  }

  // The positions from i to end join the set.
  method AddPositions(s: IndexSet, ps: seq<nat>, i: nat, end: nat, ghost before: seq<Range>, ghost picked: seq<nat>)
    requires s.Valid() && i <= end <= |ps| && Outside(before, ps, picked, i, s.Ranges())
    requires forall x | x in picked :: x < i
    modifies s.v
    ensures s.Valid() && Outside(before, ps, picked, end, s.Ranges())
  {
    hide Sorted, Has, Outside;
    var k := i;
    while k < end
      invariant i <= k <= end && s.Valid() && Outside(before, ps, picked, k, s.Ranges())
    {
      ghost var now := s.Ranges();
      s.Add(ps[k]);
      OutsideOne(before, ps, picked, k, now, s.Ranges());
      k := k + 1;
    }
  }

  // Position x lies in one of the first n blocks, on the old side and on the new.
  ghost predicate InOld(ms: seq<Match>, n: nat, x: nat) {
    exists k :: 0 <= k < n && k < |ms| && ms[k].i <= x < ms[k].i + ms[k].size
  }

  ghost predicate InNew(ms: seq<Match>, n: nat, x: nat) {
    exists k :: 0 <= k < n && k < |ms| && ms[k].j <= x < ms[k].j + ms[k].size
  }

  // Picked are the positions before the first difference and those in a block.
  ghost predicate PickedUpTo(ms: seq<Match>, n: nat, first: nat, s: seq<nat>, t: seq<nat>) {
    && (forall x: nat :: x in s <==> x < first || InOld(ms, n, x))
    && (forall x: nat :: x in t <==> x < first || InNew(ms, n, x))
  }

  lemma {:induction false} InSpan(i: nat, size: nat, x: nat)
    ensures x in Span(i, size) <==> i <= x < i + size
  {
    if i <= x < i + size {
      assert Span(i, size)[x - i] == x;
    }
  }

  lemma {:induction false} PickedFirst(ms: seq<Match>, first: nat)
    ensures PickedUpTo(ms, 0, first, Span(0, first), Span(0, first))
  {
    forall x: nat
      ensures x in Span(0, first) <==> x < first
    {
      InSpan(0, first, x);
    }
  }

  lemma {:induction false} PickedSpan(ms: seq<Match>, n: nat, first: nat, s: seq<nat>, t: seq<nat>)
    requires n < |ms| && PickedUpTo(ms, n, first, s, t)
    ensures PickedUpTo(ms, n + 1, first, s + Span(ms[n].i, ms[n].size), t + Span(ms[n].j, ms[n].size))
  {
    var m := ms[n];
    forall x: nat
      ensures x in s + Span(m.i, m.size) <==> x < first || InOld(ms, n + 1, x)
      ensures x in t + Span(m.j, m.size) <==> x < first || InNew(ms, n + 1, x)
    {
      InSpan(m.i, m.size, x);
      InSpan(m.j, m.size, x);
      if k :| 0 <= k < n && ms[k].i <= x < ms[k].i + ms[k].size {
        assert InOld(ms, n, x);
      }
      if k :| 0 <= k < n && ms[k].j <= x < ms[k].j + ms[k].size {
        assert InNew(ms, n, x);
      }
    }
  }

  // Between the matches old positions become deletions and new ones insertions.
  method AlignMatches(a: seq<Row>, rows: seq<RowInfo>, first: nat, matches: seq<Match>, c: CollectionChangeBuilder)
    returns (ghost s: seq<nat>, ghost t: seq<nat>)
    requires c.Valid() && first <= |a| == |rows|
    requires forall k | 0 <= k < first :: a[k].rowIndex == rows[k].rowIndex
    requires Chain(Window(first, |a|, first, |a|), a, RowsOf(rows), matches)
    requires matches != [] && matches[|matches| - 1] == Match(|a|, |a|, 0, Some(0))
    modifies c.deletions.v, c.insertions.v
    ensures c.deletions.Valid() && c.insertions.Valid() && Aligned(a, RowsOf(rows), s, t, |a|, |a|)
    ensures Outside(old(c.deletions.Ranges()), Positions(a), s, |a|, c.deletions.Ranges())
    ensures Outside(old(c.insertions.Ranges()), NewPositions(rows), t, |a|, c.insertions.Ranges())
    ensures PickedUpTo(matches, |matches|, first, s, t)
  {
    hide Sorted, Has, Outside, Common, MovesOk, PickedUpTo, Aligned;
    ghost var dels, inss := c.deletions.Ranges(), c.insertions.Ranges();
    s, t := Span(0, first), Span(0, first);
    StartAligned(a, rows, first, matches, dels, inss);
    var i: nat, j: nat, k: nat := first, first, 0;
    while k < |matches|
      invariant k <= |matches| && c.deletions.Valid() && c.insertions.Valid()
      invariant Aligned(a, RowsOf(rows), s, t, i, j) && PickedUpTo(matches, k, first, s, t)
      invariant Outside(dels, Positions(a), s, i, c.deletions.Ranges())
      invariant Outside(inss, NewPositions(rows), t, j, c.insertions.Ranges())
      invariant if k == 0 then i == j == first
                else i == matches[k - 1].i + matches[k - 1].size && j == matches[k - 1].j + matches[k - 1].size
    {
      var m := matches[k];
      assert Common(Window(first, |a|, first, |a|), a, RowsOf(rows), m.i, m.j, m.size);
      CommonInside(Window(first, |a|, first, |a|), a, RowsOf(rows), m.i, m.j, m.size);
      AlignMatch(a, rows, i, j, m, c, dels, inss, s, t, Window(first, |a|, first, |a|));
      PickedSpan(matches, k, first, s, t);
      s, t := s + Span(m.i, m.size), t + Span(m.j, m.size);
      i, j, k := m.i + m.size, m.j + m.size, k + 1;
    }
  }

  lemma {:induction false} StartAligned(a: seq<Row>, rows: seq<RowInfo>, first: nat, matches: seq<Match>,
                                        dels: seq<Range>, inss: seq<Range>)
    requires first <= |a| == |rows| && forall k | 0 <= k < first :: a[k].rowIndex == rows[k].rowIndex
    ensures Aligned(a, RowsOf(rows), Span(0, first), Span(0, first), first, first)
    ensures PickedUpTo(matches, 0, first, Span(0, first), Span(0, first))
    ensures Outside(dels, Positions(a), Span(0, first), first, dels)
    ensures Outside(inss, NewPositions(rows), Span(0, first), first, inss)
  {
    hide Has, Outside, PickedUpTo;
    OutsideNone(dels, Positions(a));
    OutsideNone(inss, NewPositions(rows));
    assert [] + Span(0, first) == Span(0, first);
    OutsideSpan(dels, Positions(a), [], 0, first, dels);
    OutsideSpan(inss, NewPositions(rows), [], 0, first, inss);
    PickedFirst(matches, first);
  }

  // One match: what lies before it is added, what lies in it is passed over.
  method AlignMatch(a: seq<Row>, rows: seq<RowInfo>, i: nat, j: nat, m: Match, c: CollectionChangeBuilder,
                    ghost dels: seq<Range>, ghost inss: seq<Range>, ghost s: seq<nat>, ghost t: seq<nat>,
                    ghost w: Window)
    requires c.deletions.Valid() && c.insertions.Valid() && c.deletions.v != c.insertions.v && |a| == |rows|
    requires Aligned(a, RowsOf(rows), s, t, i, j) && i <= m.i && j <= m.j
    requires m.i + m.size <= |a| && m.j + m.size <= |a| && Common(w, a, RowsOf(rows), m.i, m.j, m.size)
    requires Outside(dels, Positions(a), s, i, c.deletions.Ranges())
    requires Outside(inss, NewPositions(rows), t, j, c.insertions.Ranges())
    modifies c.deletions.v, c.insertions.v
    ensures c.deletions.Valid() && c.insertions.Valid()
    ensures Aligned(a, RowsOf(rows), s + Span(m.i, m.size), t + Span(m.j, m.size), m.i + m.size, m.j + m.size)
    ensures Outside(dels, Positions(a), s + Span(m.i, m.size), m.i + m.size, c.deletions.Ranges())
    ensures Outside(inss, NewPositions(rows), t + Span(m.j, m.size), m.j + m.size, c.insertions.Ranges())
  {
    hide Sorted, Has, Outside, Common, Rising;
    AddPositions(c.deletions, Positions(a), i, m.i, dels, s);
    AddPositions(c.insertions, NewPositions(rows), j, m.j, inss, t);
    AlignedSpan(w, a, RowsOf(rows), s, t, i, j, m);
    OutsideSpan(dels, Positions(a), s, m.i, m.size, c.deletions.Ranges());
    OutsideSpan(inss, NewPositions(rows), t, m.j, m.size, c.insertions.Ranges());
  }

  ghost predicate HasOld(rows: seq<RowInfo>, p: int) {
    exists x :: 0 <= x < |rows| && rows[x].prevTvIndex.Some? && rows[x].prevTvIndex.value == p
  }

  ghost predicate HasNew(rows: seq<RowInfo>, p: int) {
    exists x :: 0 <= x < |rows| && rows[x].tvIndex == p
  }

  // One row was at p and one is at q, and they are the same.
  ghost predicate SameRow(rows: seq<RowInfo>, p: nat, q: nat) {
    exists x, y :: 0 <= x < |rows| && 0 <= y < |rows| && rows[x].prevTvIndex == Some(p) && rows[y].tvIndex == q
                && rows[x].rowIndex == rows[y].rowIndex
  }

  // All rows but those picked on both sides have become deletions and insertions.
  ghost predicate Diffed(rows: seq<RowInfo>, olds: seq<nat>, news: seq<nat>, dels: seq<Range>, dels': seq<Range>,
                         inss: seq<Range>, inss': seq<Range>) {
    && |olds| == |news| && Rising(olds) && Rising(news)
    && (forall k | 0 <= k < |olds| :: SameRow(rows, olds[k], news[k]))
    && (forall y: int :: Has(dels', y) <==> Has(dels, y) || (HasOld(rows, y) && y !in olds))
    && (forall y: int :: Has(inss', y) <==> Has(inss, y) || (HasNew(rows, y) && y !in news))
  }

  function Picked(ps: seq<nat>, s: seq<nat>): (r: seq<nat>)
    requires forall k | 0 <= k < |s| :: s[k] < |ps|
    ensures |r| == |s| && forall k | 0 <= k < |r| :: r[k] == ps[s[k]]
  {
    seq(|s|, k requires 0 <= k < |s| && s[k] < |ps| => ps[s[k]])
  }

  lemma {:induction false} PickedRises(ps: seq<nat>, s: seq<nat>)
    requires Rising(ps) && Rising(s) && forall k | 0 <= k < |s| :: s[k] < |ps|
    ensures Rising(Picked(ps, s))
    ensures forall x | 0 <= x < |ps| :: ps[x] in Picked(ps, s) <==> x in s
  {
    var r := Picked(ps, s);
    forall x: nat | x < |ps|
      ensures ps[x] in r <==> x in s
    {
      if x in s {
        var k :| 0 <= k < |s| && s[k] == x;
        assert r[k] == ps[x];
      }
      if ps[x] in r {
        var k :| 0 <= k < |r| && r[k] == ps[x];
        assert s[k] in s;
      }
    }
  }

  // What is outside the picked ones, said of positions.
  lemma {:induction false} OutsidePicked(before: seq<Range>, ps: seq<nat>, s: seq<nat>, after: seq<Range>)
    requires Rising(ps) && Rising(s) && (forall k | 0 <= k < |s| :: s[k] < |ps|)
    requires Outside(before, ps, s, |ps|, after)
    ensures forall y: int :: Has(after, y) <==> Has(before, y) || (y in ps && y !in Picked(ps, s))
  {
    hide Has, Rising;
    PickedRises(ps, s);
    forall y: int
      ensures Has(after, y) <==> Has(before, y) || (y in ps && y !in Picked(ps, s))
    {
      if y in ps {
        var x: nat :| x < |ps| && ps[x] == y;
      }
    }
  }

  lemma {:induction false} AlignedDiffs(rows: seq<RowInfo>, a: seq<Row>, s: seq<nat>, t: seq<nat>, dels: seq<Range>,
                                        dels': seq<Range>, inss: seq<Range>, inss': seq<Range>)
    requires Kept(rows) && InOldOrder(rows, a) && Aligned(a, RowsOf(rows), s, t, |a|, |a|)
    requires Outside(dels, Positions(a), s, |a|, dels') && Outside(inss, NewPositions(rows), t, |a|, inss')
    ensures Diffed(rows, Picked(Positions(a), s), Picked(NewPositions(rows), t), dels, dels', inss, inss')
  {
    hide Has, Rising, Outside, SameRow, HasOld, HasNew;
    var ps, qs := Positions(a), NewPositions(rows);
    PickedRises(ps, s);
    PickedRises(qs, t);
    OutsidePicked(dels, ps, s, dels');
    OutsidePicked(inss, qs, t, inss');
    forall k | 0 <= k < |s|
      ensures SameRow(rows, ps[s[k]], qs[t[k]])
    {
      RowsMeet(rows, a, s[k], t[k]);
    }
    forall y: int
      ensures y in ps <==> HasOld(rows, y)
      ensures y in qs <==> HasNew(rows, y)
    {
      OldsListed(rows, a, y);
      NewsListed(rows, y);
    }
  }

  lemma {:induction false} RowsMeet(rows: seq<RowInfo>, a: seq<Row>, x: nat, y: nat)
    requires InOldOrder(rows, a) && x < |a| && y < |rows| && a[x].rowIndex == rows[y].rowIndex
    ensures SameRow(rows, a[x].tvIndex, rows[y].tvIndex)
  {
    hide Rising;
    assert WasAt(rows, a[x].rowIndex, a[x].tvIndex);
  }

  lemma {:induction false} OldsListed(rows: seq<RowInfo>, a: seq<Row>, y: int)
    requires InOldOrder(rows, a)
    ensures y in Positions(a) <==> HasOld(rows, y)
  {
    hide Rising;
    if x :| 0 <= x < |a| && Positions(a)[x] == y {
      assert WasAt(rows, a[x].rowIndex, a[x].tvIndex);
    }
  }

  lemma {:induction false} NewsListed(rows: seq<RowInfo>, y: int)
    ensures y in NewPositions(rows) <==> HasNew(rows, y)
  {
    if x :| 0 <= x < |rows| && rows[x].tvIndex == y {
      assert NewPositions(rows)[x] == y;
    }
  }

  // How the rows were matched: their old order, how far it agrees with the new
  // one, and the blocks behind.
  datatype Matching = Matching(a: seq<Row>, first: nat, blocks: seq<Match>)

  ghost predicate MatchingOk(rows: seq<RowInfo>, mt: Matching) {
    && InOldOrder(rows, mt.a) && mt.first <= |rows| == |mt.a|
    && (forall k | 0 <= k < mt.first :: mt.a[k].rowIndex == rows[k].rowIndex)
    && (mt.first < |rows| ==> mt.a[mt.first].rowIndex != rows[mt.first].rowIndex)
    && Blocks(Window(mt.first, |rows|, mt.first, |rows|), mt.a, RowsOf(rows), mt.blocks)
  }

  ghost predicate KeptOld(mt: Matching, x: nat) {
    x < mt.first || InOld(mt.blocks, |mt.blocks|, x)
  }

  ghost predicate KeptNew(mt: Matching, x: nat) {
    x < mt.first || InNew(mt.blocks, |mt.blocks|, x)
  }

  // Exactly the rows before the first difference and in the blocks are kept.
  ghost predicate KeepsMatched(rows: seq<RowInfo>, mt: Matching, olds: seq<nat>, news: seq<nat>) {
    && (forall x: nat | x < |mt.a| :: mt.a[x].tvIndex in olds <==> KeptOld(mt, x))
    && (forall x: nat | x < |rows| :: rows[x].tvIndex in news <==> KeptNew(mt, x))
  }

  // calculate_moves_sorted: rows outside the matching blocks are deleted at their
  // old position and inserted at the new one. Gives the positions of the others.
  method CalculateMovesSorted(rows: seq<RowInfo>, c: CollectionChangeBuilder)
    returns (ghost olds: seq<nat>, ghost news: seq<nat>, ghost mt: Matching)
    requires c.Valid() && Kept(rows)
    modifies c.deletions.v, c.insertions.v
    ensures c.deletions.Valid() && c.insertions.Valid()
    ensures Diffed(rows, olds, news, old(c.deletions.Ranges()), c.deletions.Ranges(), old(c.insertions.Ranges()),
                   c.insertions.Ranges())
    ensures MatchingOk(rows, mt) && KeepsMatched(rows, mt, olds, news)
  {
    hide Has, Sorted, Kept, Aligned, Diffed, Outside, InOldOrder, Rising, MovesOk, MatchingOk, KeepsMatched, PickedUpTo;
    ghost var dels, inss := c.deletions.Ranges(), c.insertions.Ranges();
    var a := OldOrder(rows);
    SameLength(rows, a);
    var first: nat := 0;
    while first < |a| && a[first].rowIndex == rows[first].rowIndex
      invariant first <= |a| == |rows| && forall k | 0 <= k < first :: a[k].rowIndex == rows[k].rowIndex
    {
      first := first + 1;
    }
    ghost var s, t := Span(0, |a|), Span(0, |a|);
    mt := Matching(a, first, []);
    if first == |a| {
      AllAligned(rows, a, dels, inss);
      PickedFirst([], |a|);
      NoMatching(rows, mt);
    } else {
      s, t, mt := AlignFrom(a, rows, first, c);
    }
    PickedBelow(a, rows, s, t);
    olds, news := Picked(Positions(a), s), Picked(NewPositions(rows), t);
    AlignedDiffs(rows, a, s, t, dels, c.deletions.Ranges(), inss, c.insertions.Ranges());
    AllRise(rows, a, s, t);
    PickedKeeps(rows, mt, s, t);
  }

  lemma {:induction false} NoMatching(rows: seq<RowInfo>, mt: Matching)
    requires InOldOrder(rows, mt.a) && mt.first == |mt.a| && mt.blocks == []
    requires forall k | 0 <= k < mt.first :: mt.a[k].rowIndex == rows[k].rowIndex
    ensures MatchingOk(rows, mt)
  {
    var w := Window(mt.first, |rows|, mt.first, |rows|);
    NarrowWindow(w, mt.a, RowsOf(rows));
    NoBlocks(w, mt.a, RowsOf(rows));
  }

  lemma {:induction false} PickedKeeps(rows: seq<RowInfo>, mt: Matching, s: seq<nat>, t: seq<nat>)
    requires Rising(Positions(mt.a)) && Rising(NewPositions(rows)) && Rising(s) && Rising(t)
    requires PickedUpTo(mt.blocks, |mt.blocks|, mt.first, s, t)
    requires (forall k | 0 <= k < |s| :: s[k] < |mt.a|) && forall k | 0 <= k < |t| :: t[k] < |rows|
    ensures KeepsMatched(rows, mt, Picked(Positions(mt.a), s), Picked(NewPositions(rows), t))
  {
    hide Rising, InOld, InNew;
    PickedRises(Positions(mt.a), s);
    PickedRises(NewPositions(rows), t);
    forall x: nat | x < |mt.a|
      ensures mt.a[x].tvIndex in Picked(Positions(mt.a), s) <==> x in s
    {
      assert Positions(mt.a)[x] == mt.a[x].tvIndex;
    }
    forall x: nat | x < |rows|
      ensures rows[x].tvIndex in Picked(NewPositions(rows), t) <==> x in t
    {
      assert NewPositions(rows)[x] == rows[x].tvIndex;
    }
  }

  lemma {:induction false} AllRise(rows: seq<RowInfo>, a: seq<Row>, s: seq<nat>, t: seq<nat>)
    requires Kept(rows) && InOldOrder(rows, a) && Aligned(a, RowsOf(rows), s, t, |a|, |a|)
    ensures Rising(Positions(a)) && Rising(NewPositions(rows)) && Rising(s) && Rising(t)
  {
    hide Rising;
  }

  // From the first difference on.
  method AlignFrom(a: seq<Row>, rows: seq<RowInfo>, first: nat, c: CollectionChangeBuilder)
    returns (ghost s: seq<nat>, ghost t: seq<nat>, ghost mt: Matching)
    requires c.Valid() && first < |a| == |rows| && InOldOrder(rows, a)
    requires forall k | 0 <= k < first :: a[k].rowIndex == rows[k].rowIndex
    requires a[first].rowIndex != rows[first].rowIndex
    modifies c.deletions.v, c.insertions.v
    ensures c.deletions.Valid() && c.insertions.Valid() && Aligned(a, RowsOf(rows), s, t, |a|, |a|)
    ensures Outside(old(c.deletions.Ranges()), Positions(a), s, |a|, c.deletions.Ranges())
    ensures Outside(old(c.insertions.Ranges()), NewPositions(rows), t, |a|, c.insertions.Ranges())
    ensures MatchingOk(rows, mt) && mt.a == a && PickedUpTo(mt.blocks, |mt.blocks|, mt.first, s, t)
  {
    hide Has, Sorted, Aligned, Outside, Chain, Listing, InOldOrder, Blocks, PickedUpTo;
    var b := NewOrder(rows);
    RowsKnown(rows, a, b);
    var lcs := new LongestCommonSubsequenceCalculator(a, b, first, c.modifications, RowsOf(rows));
    s, t := AlignMatches(a, rows, first, lcs.longestMatches, c);
    var found := lcs.longestMatches[..|lcs.longestMatches| - 1];
    mt := Matching(a, first, found);
    PickedWithoutEnd(lcs.longestMatches, first, s, t);
  }

  // The closing match holds no row.
  lemma {:induction false} PickedWithoutEnd(ms: seq<Match>, first: nat, s: seq<nat>, t: seq<nat>)
    requires ms != [] && ms[|ms| - 1].size == 0 && PickedUpTo(ms, |ms|, first, s, t)
    ensures PickedUpTo(ms[..|ms| - 1], |ms| - 1, first, s, t)
  {
    var found := ms[..|ms| - 1];
    forall x: nat
      ensures InOld(found, |found|, x) <==> InOld(ms, |ms|, x)
      ensures InNew(found, |found|, x) <==> InNew(ms, |ms|, x)
    {
      if k :| 0 <= k < |ms| && ms[k].i <= x < ms[k].i + ms[k].size {
        assert found[k] == ms[k];
      }
      if k :| 0 <= k < |ms| && ms[k].j <= x < ms[k].j + ms[k].size {
        assert found[k] == ms[k];
      }
      if k :| 0 <= k < |found| && found[k].i <= x < found[k].i + found[k].size {
        assert found[k] == ms[k];
      }
      if k :| 0 <= k < |found| && found[k].j <= x < found[k].j + found[k].size {
        assert found[k] == ms[k];
      }
    }
  }

  lemma {:induction false} SameLength(rows: seq<RowInfo>, a: seq<Row>)
    requires InOldOrder(rows, a)
    ensures |a| == |rows|
  {
  }

  lemma {:induction false} PickedBelow(a: seq<Row>, rows: seq<RowInfo>, s: seq<nat>, t: seq<nat>)
    requires Aligned(a, RowsOf(rows), s, t, |a|, |a|)
    ensures forall k | 0 <= k < |s| :: s[k] < |a|
    ensures forall k | 0 <= k < |t| :: t[k] < |rows|
  {
  }

  lemma {:induction false} AllAligned(rows: seq<RowInfo>, a: seq<Row>, dels: seq<Range>, inss: seq<Range>)
    requires |a| == |rows| && forall k | 0 <= k < |a| :: a[k].rowIndex == rows[k].rowIndex
    ensures var s := Span(0, |a|); Aligned(a, RowsOf(rows), s, s, |a|, |a|)
    ensures Outside(dels, Positions(a), Span(0, |a|), |a|, dels)
    ensures Outside(inss, NewPositions(rows), Span(0, |a|), |a|, inss)
  {
    hide Has, Outside;
    OutsideNone(dels, Positions(a));
    OutsideNone(inss, NewPositions(rows));
    assert [] + Span(0, |a|) == Span(0, |a|);
    OutsideSpan(dels, Positions(a), [], 0, |a|, dels);
    OutsideSpan(inss, NewPositions(rows), [], 0, |a|, inss);
  }

  // Every row of the old order is one of the rows looked up in the new order.
  lemma {:induction false} RowsKnown(rows: seq<RowInfo>, a: seq<Row>, b: seq<Row>)
    requires InOldOrder(rows, a) && Listing(b, RowsOf(rows))
    ensures |b| == |a| && forall i | 0 <= i < |a| :: a[i].rowIndex in RowsOf(rows)
  {
    hide Rising;
    forall i | 0 <= i < |a|
      ensures a[i].rowIndex in RowsOf(rows)
    {
      assert WasAt(rows, a[i].rowIndex, a[i].tvIndex);
      var y :| 0 <= y < |rows| && rows[y].rowIndex == a[i].rowIndex && rows[y].prevTvIndex == Some(a[i].tvIndex);
      assert RowsOf(rows)[y] == a[i].rowIndex;
    }
  }
}
