// The rows that two sequences have in common, with their positions in both.
module RowPairs {
  import opened Wrappers
  import opened Ranges
  import opened IndexSets
  import opened ChangeMoves
  import opened ChangeBuilders
  import opened RowDiffs

  // ----- Pairing old and new rows -----

  // The rows of the first n positions, each once, without the rows that are gone.
  ghost predicate Infos(source: seq<Option<nat>>, n: nat, rows: seq<RowInfo>) {
    && n <= |source|
    && (forall x | 0 <= x < |rows| :: rows[x].prevTvIndex == None && rows[x].tvIndex < n
                                      && source[rows[x].tvIndex] == Some(rows[x].rowIndex))
    && (forall p: nat | p < n && source[p].Some? :: exists x :: 0 <= x < |rows| && rows[x].tvIndex == p)
    && (forall x, y | 0 <= x < y < |rows| :: rows[x].tvIndex != rows[y].tvIndex)
  }

  function Known(next: seq<nat>): (s: seq<Option<nat>>)
    ensures |s| == |next| && forall i | 0 <= i < |s| :: s[i] == Some(next[i])
  {
    seq(|next|, i requires 0 <= i < |next| => Some(next[i]))
  }

  predicate ByRow(x: RowInfo, y: RowInfo) {
    x.rowIndex <= y.rowIndex
  }

  predicate ByPosition(x: RowInfo, y: RowInfo) {
    x.tvIndex <= y.tvIndex
  }

  lemma {:induction false} InfosSorted(source: seq<Option<nat>>, rows: seq<RowInfo>, sorted: seq<RowInfo>)
    requires Infos(source, |source|, rows) && multiset(sorted) == multiset(rows)
    ensures Infos(source, |source|, sorted)
  {
    SameDistinct(rows, sorted);
    forall x | 0 <= x < |sorted|
      ensures sorted[x] in rows
    {
      assert sorted[x] in sorted;
    }
    forall p: nat | p < |source| && source[p].Some?
      ensures exists x :: 0 <= x < |sorted| && sorted[x].tvIndex == p
    {
      var x :| 0 <= x < |rows| && rows[x].tvIndex == p;
      assert rows[x] in sorted;
    }
  }

  // How many of the first n rows are still there.
  ghost function StillBelow(prev: seq<Option<nat>>, n: nat): nat
    requires n <= |prev|
  {
    if n == 0 then 0 else StillBelow(prev, n - 1) + if prev[n - 1] == None then 0 else 1
  }

  ghost predicate Shifts(prev: seq<Option<nat>>, rows: seq<RowInfo>) {
    forall x | 0 <= x < |rows| ::
      rows[x].tvIndex < |prev| && rows[x].shiftedTvIndex == StillBelow(prev, rows[x].tvIndex)
  }

  lemma {:induction false} ShiftsSorted(prev: seq<Option<nat>>, rows: seq<RowInfo>, sorted: seq<RowInfo>)
    requires Shifts(prev, rows) && multiset(sorted) == multiset(rows)
    ensures Shifts(prev, sorted)
  {
    forall x | 0 <= x < |sorted|
      ensures sorted[x] in rows
    {
      assert sorted[x] in multiset(sorted);
    }
  }

  // The old rows that are still there, sorted by row; the others are deleted.
  method OldInfos(prev: seq<Option<nat>>, deletions: IndexSet) returns (rows: seq<RowInfo>)
    requires deletions.Valid() && deletions.Ranges() == []
    modifies deletions.v
    ensures deletions.Valid() && Infos(prev, |prev|, rows) && InOrder(rows, ByRow) && Shifts(prev, rows)
    ensures forall y: int :: Has(deletions.Ranges(), y) <==> 0 <= y < |prev| && prev[y] == None
  {
    hide Sorted, Has, Infos, Shifts, InOrder;
    var all: seq<RowInfo>, i: nat, deleted: nat := [], 0, 0;
    NoneAre();
    NoInfos(prev);
    while i < |prev|
      invariant i <= |prev| && deletions.Valid() && Infos(prev, i, all)
      invariant i - deleted == StillBelow(prev, i) && Shifts(prev, all)
      invariant forall y: int :: Has(deletions.Ranges(), y) <==> 0 <= y < i && prev[y] == None
    {
      if prev[i] == None {
        NoInfo(prev, i, all);
        deletions.Add(i);
        deleted := deleted + 1;
      } else {
        OneInfo(prev, i, all, i - deleted);
        OneShift(prev, i, all, i - deleted);
        all := all + [RowInfo(prev[i].value, None, i, i - deleted)];
      }
      i := i + 1;
    }
    rows := Sort(all, ByRow);
    InfosSorted(prev, all, rows);
    ShiftsSorted(prev, all, rows);
  }

  lemma {:induction false} NoneAre()
    ensures forall y: int :: !Has([], y)
  {
  }

  lemma {:induction false} NoInfos(source: seq<Option<nat>>)
    ensures Infos(source, 0, []) && Shifts(source, [])
  {
  }

  lemma {:induction false} NoInfo(source: seq<Option<nat>>, n: nat, rows: seq<RowInfo>)
    requires Infos(source, n, rows) && n < |source| && source[n] == None
    ensures Infos(source, n + 1, rows)
  {
  }

  lemma {:induction false} OneShift(prev: seq<Option<nat>>, n: nat, rows: seq<RowInfo>, shifted: nat)
    requires Shifts(prev, rows) && n < |prev| && prev[n].Some? && shifted == StillBelow(prev, n)
    ensures Shifts(prev, rows + [RowInfo(prev[n].value, None, n, shifted)])
  {
  }

  lemma {:induction false} OneInfo(source: seq<Option<nat>>, n: nat, rows: seq<RowInfo>, shifted: nat)
    requires Infos(source, n, rows) && n < |source| && source[n].Some?
    ensures Infos(source, n + 1, rows + [RowInfo(source[n].value, None, n, shifted)])
  {
    var more := rows + [RowInfo(source[n].value, None, n, shifted)];
    forall p: nat | p < n + 1 && source[p].Some?
      ensures exists x :: 0 <= x < |more| && more[x].tvIndex == p
    {
      if p < n {
        var x :| 0 <= x < |rows| && rows[x].tvIndex == p;
        assert more[x].tvIndex == p;
      } else {
        assert more[|rows|].tvIndex == p;
      }
    }
  }

  method NewInfos(next: seq<nat>) returns (rows: seq<RowInfo>)
    ensures Infos(Known(next), |next|, rows) && InOrder(rows, ByRow)
  {
    var all: seq<RowInfo>, i: nat := [], 0;
    while i < |next|
      invariant i <= |next| && Infos(Known(next), i, all)
    {
      OneInfo(Known(next), i, all, 0);
      all := all + [RowInfo(next[i], None, i, 0)];
      i := i + 1;
    }
    rows := Sort(all, ByRow);
    InfosSorted(Known(next), all, rows);
  }

  // One of the first i old rows is this row and was where it says.
  ghost predicate Mate(old_: seq<RowInfo>, i: nat, row: RowInfo) {
    exists x :: 0 <= x < i && x < |old_| && old_[x].rowIndex == row.rowIndex
             && Some(old_[x].tvIndex) == row.prevTvIndex && old_[x].shiftedTvIndex == row.shiftedTvIndex
  }

  // The row with the old position of another.
  function WithOld(row: RowInfo, old_: RowInfo): RowInfo {
    row.(prevTvIndex := Some(old_.tvIndex), shiftedTvIndex := old_.shiftedTvIndex)
  }

  ghost predicate SameNew(news: seq<RowInfo>, before: seq<RowInfo>) {
    && |news| == |before|
    && forall k | 0 <= k < |news| :: news[k].rowIndex == before[k].rowIndex && news[k].tvIndex == before[k].tvIndex
  }

  // One of the first j new rows was at p.
  ghost predicate Taken(news: seq<RowInfo>, j: nat, p: int) {
    exists k :: 0 <= k < j && k < |news| && news[k].prevTvIndex.Some? && news[k].prevTvIndex.value == p
  }

  // One of the first j new rows is at p and was not there before.
  ghost predicate Unpaired(news: seq<RowInfo>, j: nat, p: int) {
    exists k :: 0 <= k < j && k < |news| && news[k].prevTvIndex.None? && news[k].tvIndex == p
  }

  // Of the rows below i and j each old one is taken or removed, and each new one
  // has an old position of the same row or is inserted.
  ghost predicate Paired(old_: seq<RowInfo>, before: seq<RowInfo>, news: seq<RowInfo>, i: nat, j: nat,
                         removed: seq<Range>, inss: seq<Range>) {
    && i <= |old_| && j <= |news| && SameNew(news, before)
    && (forall k | j <= k < |news| :: news[k] == before[k])
    && (forall k | 0 <= k < j && news[k].prevTvIndex.Some? ::
          Mate(old_, i, news[k]))
    && (forall k, l | 0 <= k < l < j && news[k].prevTvIndex.Some? :: news[k].prevTvIndex != news[l].prevTvIndex)
    && (forall x | 0 <= x < i :: Has(removed, old_[x].tvIndex) <==> !Taken(news, j, old_[x].tvIndex))
    && (forall y: int :: Has(removed, y) ==> exists x :: 0 <= x < i && old_[x].tvIndex == y)
    && (forall y: int :: Has(inss, y) <==> Unpaired(news, j, y))
  }

  lemma {:induction false} PairsNone(old_: seq<RowInfo>, news: seq<RowInfo>)
    requires forall k | 0 <= k < |news| :: news[k].prevTvIndex == None
    ensures Paired(old_, news, news, 0, 0, [], [])
  {
  }

  lemma {:induction false} PairOne(old_: seq<RowInfo>, before: seq<RowInfo>, news: seq<RowInfo>, i: nat, j: nat,
                                   removed: seq<Range>, inss: seq<Range>)
    requires Paired(old_, before, news, i, j, removed, inss) && i < |old_| && j < |news|
    requires old_[i].rowIndex == news[j].rowIndex
    requires forall x, y | 0 <= x < y < |old_| :: old_[x].tvIndex != old_[y].tvIndex
    ensures Paired(old_, before, news[j := WithOld(news[j], old_[i])], i + 1, j + 1, removed, inss)
  {
    hide Has;
    var after := news[j := WithOld(news[j], old_[i])];
    forall k | 0 <= k < j + 1 && after[k].prevTvIndex.Some?
      ensures Mate(old_, i + 1, after[k])
      ensures k < j ==> after[k].prevTvIndex.value != old_[i].tvIndex
    {
      if k < j {
        assert Mate(old_, i, news[k]);
      }
    }
    forall p: int
      ensures Taken(after, j + 1, p) <==> Taken(news, j, p) || p == old_[i].tvIndex
      ensures Unpaired(after, j + 1, p) <==> Unpaired(news, j, p)
    {
      TakenMore(news, after, j, p);
    }
  }

  lemma {:induction false} TakenMore(news: seq<RowInfo>, after: seq<RowInfo>, j: nat, p: int)
    requires |after| == |news| && j < |news| && forall k | 0 <= k < j :: after[k] == news[k]
    ensures Taken(after, j + 1, p) <==>
              Taken(news, j, p) || (after[j].prevTvIndex.Some? && after[j].prevTvIndex.value == p)
    ensures Unpaired(after, j + 1, p) <==>
              Unpaired(news, j, p) || (after[j].prevTvIndex.None? && after[j].tvIndex == p)
  {
    if k :| 0 <= k < j && news[k].prevTvIndex.Some? && news[k].prevTvIndex.value == p {
      assert after[k] == news[k];
    }
    if k :| 0 <= k < j && news[k].prevTvIndex.None? && news[k].tvIndex == p {
      assert after[k] == news[k];
    }
  }

  lemma {:induction false} RemoveOne(old_: seq<RowInfo>, before: seq<RowInfo>, news: seq<RowInfo>, i: nat, j: nat,
                                     removed: seq<Range>, more: seq<Range>, inss: seq<Range>)
    requires Paired(old_, before, news, i, j, removed, inss) && i < |old_|
    requires forall x, y | 0 <= x < y < |old_| :: old_[x].tvIndex != old_[y].tvIndex
    requires forall y: int :: Has(more, y) <==> Has(removed, y) || y == old_[i].tvIndex
    ensures Paired(old_, before, news, i + 1, j, more, inss)
  {
    hide Has;
    forall k | 0 <= k < j && news[k].prevTvIndex.Some?
      ensures Mate(old_, i + 1, news[k])
      ensures news[k].prevTvIndex.value != old_[i].tvIndex
    {
      assert Mate(old_, i, news[k]);
    }
    assert !Taken(news, j, old_[i].tvIndex);
  }

  lemma {:induction false} InsertOne(old_: seq<RowInfo>, before: seq<RowInfo>, news: seq<RowInfo>, i: nat, j: nat,
                                     removed: seq<Range>, inss: seq<Range>, more: seq<Range>)
    requires Paired(old_, before, news, i, j, removed, inss) && j < |news| && news[j].prevTvIndex == None
    requires forall y: int :: Has(more, y) <==> Has(inss, y) || y == news[j].tvIndex
    ensures Paired(old_, before, news, i, j + 1, removed, more)
  {
    hide Has;
    forall p: int
      ensures Taken(news, j + 1, p) <==> Taken(news, j, p)
      ensures Unpaired(news, j + 1, p) <==> Unpaired(news, j, p) || p == news[j].tvIndex
    {
      TakenMore(news, news, j, p);
    }
  }

  // No row is left over on both sides: a removed old row is none of the inserted
  // new rows, nor of those to come, and the other way round.
  ghost predicate Apart(old_: seq<RowInfo>, news: seq<RowInfo>, i: nat, j: nat, removed: seq<Range>) {
    forall k, x | LeftOver(news, j, k) && Dropped(old_, i, removed, x) && (k < j || x < i) ::
      old_[x].rowIndex != news[k].rowIndex
  }

  ghost predicate LeftOver(news: seq<RowInfo>, j: nat, k: int) {
    0 <= k < |news| && (k < j ==> news[k].prevTvIndex == None)
  }

  ghost predicate Dropped(old_: seq<RowInfo>, i: nat, removed: seq<Range>, x: int) {
    0 <= x < |old_| && (x < i ==> Has(removed, old_[x].tvIndex))
  }

  lemma {:induction false} ApartNone(old_: seq<RowInfo>, news: seq<RowInfo>)
    ensures Apart(old_, news, 0, 0, [])
  {
  }

  lemma {:induction false} ApartPair(old_: seq<RowInfo>, before: seq<RowInfo>, news: seq<RowInfo>, i: nat, j: nat,
                                     removed: seq<Range>, inss: seq<Range>)
    requires Paired(old_, before, news, i, j, removed, inss) && Apart(old_, news, i, j, removed)
    requires i < |old_| && j < |news|
    requires forall x, y | 0 <= x < y < |old_| :: old_[x].tvIndex != old_[y].tvIndex
    ensures Apart(old_, news[j := WithOld(news[j], old_[i])], i + 1, j + 1, removed)
  {
    hide Has, Taken, Unpaired, Mate;
    var after := news[j := WithOld(news[j], old_[i])];
    assert !Has(removed, old_[i].tvIndex);
    forall k, x | LeftOver(after, j + 1, k) && Dropped(old_, i + 1, removed, x) && (k < j + 1 || x < i + 1)
      ensures old_[x].rowIndex != after[k].rowIndex
    {
      assert k != j && x != i && LeftOver(news, j, k) && Dropped(old_, i, removed, x);
    }
  }

  lemma {:induction false} ApartRemove(old_: seq<RowInfo>, news: seq<RowInfo>, i: nat, j: nat, removed: seq<Range>,
                                       more: seq<Range>)
    requires Apart(old_, news, i, j, removed) && i < |old_| && j <= |news|
    requires forall y: int :: Has(more, y) <==> Has(removed, y) || y == old_[i].tvIndex
    requires forall x, y | 0 <= x < y < |old_| :: old_[x].tvIndex != old_[y].tvIndex
    requires forall k | j <= k < |news| :: old_[i].rowIndex < news[k].rowIndex
    ensures Apart(old_, news, i + 1, j, more)
  {
    hide Has;
    forall k, x | LeftOver(news, j, k) && Dropped(old_, i + 1, more, x) && (k < j || x < i + 1)
      ensures old_[x].rowIndex != news[k].rowIndex
    {
      assert x < i ==> old_[x].tvIndex != old_[i].tvIndex;
      assert Dropped(old_, i, removed, x);
    }
  }

  lemma {:induction false} ApartInsert(old_: seq<RowInfo>, news: seq<RowInfo>, i: nat, j: nat, removed: seq<Range>)
    requires Apart(old_, news, i, j, removed) && i <= |old_| && j < |news|
    requires forall x | i <= x < |old_| :: news[j].rowIndex < old_[x].rowIndex
    ensures Apart(old_, news, i, j + 1, removed)
  {
    hide Has;
    forall k, x | LeftOver(news, j + 1, k) && Dropped(old_, i, removed, x) && (k < j + 1 || x < i)
      ensures old_[x].rowIndex != news[k].rowIndex
    {
      assert LeftOver(news, j, k);
    }
  }

  lemma {:induction false} RowsAhead(rows: seq<RowInfo>, i: nat)
    requires InOrder(rows, ByRow) && i < |rows|
    ensures forall x | i <= x < |rows| :: rows[i].rowIndex <= rows[x].rowIndex
  {
    forall x | i <= x < |rows|
      ensures rows[i].rowIndex <= rows[x].rowIndex
    {
      assert i < x ==> ByRow(rows[i], rows[x]);
    }
  }

  // The two sorted sequences side by side.
  method Pair(old_: seq<RowInfo>, before: seq<RowInfo>, removed: IndexSet, insertions: IndexSet)
    returns (news: seq<RowInfo>)
    requires removed.Valid() && insertions.Valid() && removed.v != insertions.v
    requires removed.Ranges() == [] && insertions.Ranges() == []
    requires InOrder(old_, ByRow) && InOrder(before, ByRow)
    requires forall k | 0 <= k < |before| :: before[k].prevTvIndex == None
    requires forall x, y | 0 <= x < y < |old_| :: old_[x].tvIndex != old_[y].tvIndex
    modifies removed.v, insertions.v
    ensures removed.Valid() && insertions.Valid()
    ensures Paired(old_, before, news, |old_|, |before|, removed.Ranges(), insertions.Ranges())
    ensures Apart(old_, news, |old_|, |before|, removed.Ranges())
  {
    hide Sorted, Has, Paired, Apart, InOrder;
    news := before;
    PairsNone(old_, news);
    ApartNone(old_, news);
    var i: nat, j: nat := 0, 0;
    while i < |old_| || j < |news|
      invariant i <= |old_| && j <= |news| == |before| && removed.Valid() && insertions.Valid()
      invariant Paired(old_, before, news, i, j, removed.Ranges(), insertions.Ranges())
      invariant Apart(old_, news, i, j, removed.Ranges())
      decreases |old_| - i + |news| - j
    {
      PairedRows(old_, before, news, i, j, removed.Ranges(), insertions.Ranges());
      ghost var r, s := removed.Ranges(), insertions.Ranges();
      if i < |old_| && j < |news| && old_[i].rowIndex == news[j].rowIndex {
        PairOne(old_, before, news, i, j, r, s);
        ApartPair(old_, before, news, i, j, r, s);
        news := news[j := WithOld(news[j], old_[i])];
        i, j := i + 1, j + 1;
      } else if i < |old_| && (j == |news| || old_[i].rowIndex < news[j].rowIndex) {
        if j < |news| {
          RowsAhead(before, j);
        }
        removed.Add(old_[i].tvIndex);
        RemoveOne(old_, before, news, i, j, r, removed.Ranges(), s);
        ApartRemove(old_, news, i, j, r, removed.Ranges());
        i := i + 1;
      } else {
        if i < |old_| {
          RowsAhead(old_, i);
        }
        insertions.Add(news[j].tvIndex);
        InsertOne(old_, before, news, i, j, r, s, insertions.Ranges());
        ApartInsert(old_, news, i, j, r);
        j := j + 1;
      }
    }
  }

  lemma {:induction false} PairedRows(old_: seq<RowInfo>, before: seq<RowInfo>, news: seq<RowInfo>, i: nat, j: nat,
                                      removed: seq<Range>, inss: seq<Range>)
    requires Paired(old_, before, news, i, j, removed, inss)
    ensures |news| == |before| && forall k | 0 <= k < |news| :: news[k].rowIndex == before[k].rowIndex
    ensures forall k | j <= k < |news| :: news[k] == before[k]
  {
  }

  // ----- The rows in both -----

  // The rows in both sequences, and the positions of all others.
  ghost predicate InBoth(prev: seq<Option<nat>>, next: seq<nat>, rows: seq<RowInfo>, removed: seq<Range>,
                         inss: seq<Range>) {
    && (forall x | 0 <= x < |rows| :: BothAt(prev, next, rows[x]))
    && (forall m: nat | m < |prev| && prev[m].Some? :: Has(removed, m) <==> !HasOld(rows, m))
    && (forall y: int :: Has(removed, y) ==> 0 <= y < |prev| && prev[y].Some?)
    && (forall n: nat | n < |next| :: Has(inss, n) <==> !HasNew(rows, n))
    && (forall y: int :: Has(inss, y) ==> 0 <= y < |next|)
  }

  ghost predicate BothAt(prev: seq<Option<nat>>, next: seq<nat>, row: RowInfo) {
    && row.prevTvIndex.Some? && row.prevTvIndex.value < |prev| && prev[row.prevTvIndex.value] == Some(row.rowIndex)
    && row.tvIndex < |next| && next[row.tvIndex] == row.rowIndex
    && row.shiftedTvIndex == StillBelow(prev, row.prevTvIndex.value)
  }

  // rows holds the paired ones of news.
  lemma {:induction false} PairedInBoth(prev: seq<Option<nat>>, next: seq<nat>, old_: seq<RowInfo>,
                                        before: seq<RowInfo>, news: seq<RowInfo>, rows: seq<RowInfo>,
                                        removed: seq<Range>, inss: seq<Range>)
    requires Infos(prev, |prev|, old_) && Shifts(prev, old_) && Infos(Known(next), |next|, before)
    requires Paired(old_, before, news, |old_|, |before|, removed, inss)
    requires forall r :: r in rows <==> r in news && r.prevTvIndex.Some?
    ensures InBoth(prev, next, rows, removed, inss)
  {
    hide Has;
    forall x | 0 <= x < |rows|
      ensures BothAt(prev, next, rows[x])
    {
      assert rows[x] in rows;
      var k :| 0 <= k < |news| && news[k] == rows[x];
      assert Mate(old_, |old_|, news[k]);
    }
    forall p: int
      ensures HasOld(rows, p) <==> Taken(news, |news|, p)
    {
      OldsTaken(news, rows, p);
    }
    forall m: nat | m < |prev| && prev[m].Some?
      ensures Has(removed, m) <==> !HasOld(rows, m)
    {
      var x := InfoAt(prev, old_, m);
    }
    forall n: nat | n < |next|
      ensures Has(inss, n) <==> !HasNew(rows, n)
    {
      NewsUnpaired(next, before, news, rows, n);
    }
  }

  lemma {:induction false} OldsTaken(news: seq<RowInfo>, rows: seq<RowInfo>, p: int)
    requires forall r :: r in rows <==> r in news && r.prevTvIndex.Some?
    ensures HasOld(rows, p) <==> Taken(news, |news|, p)
  {
    if x :| 0 <= x < |rows| && rows[x].prevTvIndex.Some? && rows[x].prevTvIndex.value == p {
      assert rows[x] in rows;
    }
    if k :| 0 <= k < |news| && news[k].prevTvIndex.Some? && news[k].prevTvIndex.value == p {
      assert news[k] in rows;
    }
  }

  lemma {:induction false} NewsUnpaired(next: seq<nat>, before: seq<RowInfo>, news: seq<RowInfo>, rows: seq<RowInfo>,
                                        n: nat)
    requires Infos(Known(next), |next|, before) && n < |next| && |news| == |before|
    requires SameNew(news, before)
    requires forall r :: r in rows <==> r in news && r.prevTvIndex.Some?
    ensures Unpaired(news, |news|, n) <==> !HasNew(rows, n)
  {
    hide Infos;
    var k := InfoAt(Known(next), before, n);
    forall x | 0 <= x < |rows| && rows[x].tvIndex == n
      ensures rows[x] == news[k]
    {
      assert rows[x] in rows;
      var l :| 0 <= l < |news| && news[l] == rows[x];
      assert before[l].tvIndex == n;
    }
    if news[k].prevTvIndex.Some? {
      assert news[k] in rows;
    } else {
      assert news[k].tvIndex == n;
    }
    forall l | 0 <= l < |news| && news[l].tvIndex == n
      ensures l == k
    {
      assert before[l].tvIndex == n;
    }
  }

  // The row at a position.
  lemma {:induction false} InfoAt(source: seq<Option<nat>>, rows: seq<RowInfo>, n: nat) returns (k: nat)
    requires Infos(source, |source|, rows) && n < |source| && source[n].Some?
    ensures k < |rows| && rows[k].tvIndex == n && rows[k].rowIndex == source[n].value
    ensures forall l | 0 <= l < |rows| && rows[l].tvIndex == n :: l == k
  {
    k :| 0 <= k < |rows| && rows[k].tvIndex == n;
  }

  // remove_if on the rows that are new.
  method WithOldPosition(news: seq<RowInfo>) returns (rows: seq<RowInfo>)
    requires forall k, l | 0 <= k < l < |news| :: news[k].tvIndex != news[l].tvIndex
    requires forall k, l | 0 <= k < l < |news| && news[k].prevTvIndex.Some? ::
               news[k].prevTvIndex != news[l].prevTvIndex
    ensures forall r :: r in rows <==> r in news && r.prevTvIndex.Some?
    ensures Kept(rows)
  {
    var kept: seq<RowInfo>, i: nat := [], 0;
    while i < |news|
      invariant i <= |news|
      invariant forall r :: r in kept <==> r in news[..i] && r.prevTvIndex.Some?
      invariant forall k, l | 0 <= k < l < |kept| :: kept[k] != kept[l]
    {
      assert news[..i + 1] == news[..i] + [news[i]];
      if news[i].prevTvIndex.Some? {
        kept := kept + [news[i]];
      }
      i := i + 1;
    }
    assert news[..i] == news;
    rows := Sort(kept, ByPosition);
    SameDistinct(kept, rows);
    SortedKept(news, rows);
  }

  lemma {:induction false} SortedKept(news: seq<RowInfo>, rows: seq<RowInfo>)
    requires forall k, l | 0 <= k < l < |news| :: news[k].tvIndex != news[l].tvIndex
    requires forall k, l | 0 <= k < l < |news| && news[k].prevTvIndex.Some? ::
               news[k].prevTvIndex != news[l].prevTvIndex
    requires forall r :: r in rows ==> r in news && r.prevTvIndex.Some?
    requires InOrder(rows, ByPosition) && forall k, l | 0 <= k < l < |rows| :: rows[k] != rows[l]
    ensures Kept(rows)
  {
    forall k, l | 0 <= k < l < |rows|
      ensures rows[k].prevTvIndex != rows[l].prevTvIndex && rows[k].tvIndex < rows[l].tvIndex
    {
      assert rows[k] in rows && rows[l] in rows && ByPosition(rows[k], rows[l]);
      var x, y :| 0 <= x < |news| && 0 <= y < |news| && news[x] == rows[k] && news[y] == rows[l];
    }
    forall k | 0 <= k < |rows|
      ensures rows[k].prevTvIndex.Some?
    {
      assert rows[k] in rows;
    }
  }

  // ----- Modifications -----

  method MarkChanged(rows: seq<RowInfo>, changed: nat -> bool, modifications: IndexSet)
    requires modifications.Valid() && modifications.Ranges() == []
    modifies modifications.v
    ensures modifications.Valid()
    ensures forall y: int :: Has(modifications.Ranges(), y) <==>
              exists x :: 0 <= x < |rows| && rows[x].tvIndex == y && changed(rows[x].rowIndex)
  {
    hide Sorted, Has;
    NoneAre();
    var i: nat := 0;
    while i < |rows|
      invariant i <= |rows| && modifications.Valid()
      invariant forall y: int :: Has(modifications.Ranges(), y) <==>
                  exists x :: 0 <= x < i && rows[x].tvIndex == y && changed(rows[x].rowIndex)
    {
      if changed(rows[i].rowIndex) {
        modifications.Add(rows[i].tvIndex);
      }
      i := i + 1;
    }
  }

  // Modified are exactly the rows in both that have changed.
  ghost predicate Marks(prev: seq<Option<nat>>, next: seq<nat>, rows: seq<RowInfo>, changed: nat -> bool,
                        modifications: seq<Range>) {
    forall y: int :: Has(modifications, y) <==> 0 <= y < |next| && HasNew(rows, y) && changed(next[y])
  }

  // No row is left over on both sides.
  ghost predicate AllPaired(prev: seq<Option<nat>>, next: seq<nat>, rows: seq<RowInfo>) {
    && (forall x | 0 <= x < |rows| :: BothAt(prev, next, rows[x]))
    && forall m: nat, n: nat | m < |prev| && n < |next| && prev[m] == Some(next[n]) ::
         HasOld(rows, m) || HasNew(rows, n)
  }

  lemma {:induction false} MarksExact(prev: seq<Option<nat>>, next: seq<nat>, changed: nat -> bool,
                                      rows: seq<RowInfo>, modifications: seq<Range>)
    requires AllPaired(prev, next, rows)
    requires forall y: int :: Has(modifications, y) <==>
               exists x :: 0 <= x < |rows| && rows[x].tvIndex == y && changed(rows[x].rowIndex)
    ensures Marks(prev, next, rows, changed, modifications)
  {
    hide Has, HasOld;
    forall y: int
      ensures Has(modifications, y) <==> 0 <= y < |next| && HasNew(rows, y) && changed(next[y])
    {
      if x :| 0 <= x < |rows| && rows[x].tvIndex == y {
        assert BothAt(prev, next, rows[x]);
      }
    }
  }

  // If no row comes twice, every new row that was there before is one of the rows in
  // both.
  lemma {:induction false} FoundOnce(prev: seq<Option<nat>>, next: seq<nat>, rows: seq<RowInfo>, n: nat)
    requires AllPaired(prev, next, rows) && forall k, l | 0 <= k < l < |next| :: next[k] != next[l]
    requires n < |next|
    ensures HasNew(rows, n) <==> Some(next[n]) in prev
  {
    if x :| 0 <= x < |rows| && rows[x].tvIndex == n {
      assert BothAt(prev, next, rows[x]);
    }
    if m: nat :| m < |prev| && prev[m] == Some(next[n]) {
      assert HasOld(rows, m) || HasNew(rows, n);
      if x :| 0 <= x < |rows| && rows[x].prevTvIndex == Some(m) {
        assert BothAt(prev, next, rows[x]);
        assert rows[x].tvIndex == n;
      }
    }
  }

  // No row is both removed and inserted.
  ghost predicate NoneBoth(prev: seq<Option<nat>>, next: seq<nat>, removed: seq<Range>, inss: seq<Range>) {
    forall m: nat, n: nat | m < |prev| && n < |next| && Has(removed, m) && Has(inss, n) :: prev[m] != Some(next[n])
  }

  lemma {:induction false} ApartNoneBoth(prev: seq<Option<nat>>, next: seq<nat>, old_: seq<RowInfo>,
                                         before: seq<RowInfo>, news: seq<RowInfo>, removed: seq<Range>,
                                         inss: seq<Range>)
    requires Infos(prev, |prev|, old_) && Infos(Known(next), |next|, before)
    requires Paired(old_, before, news, |old_|, |before|, removed, inss)
    requires Apart(old_, news, |old_|, |before|, removed)
    ensures NoneBoth(prev, next, removed, inss)
  {
    hide Has, Taken, Mate;
    forall m: nat, n: nat | m < |prev| && n < |next| && Has(removed, m) && Has(inss, n)
      ensures prev[m] != Some(next[n])
    {
      var x :| 0 <= x < |old_| && old_[x].tvIndex == m;
      assert Unpaired(news, |before|, n);
      var k :| 0 <= k < |news| && news[k].prevTvIndex.None? && news[k].tvIndex == n;
      assert LeftOver(news, |before|, k) && Dropped(old_, |old_|, removed, x);
      assert Known(next)[n] == Some(next[n]);
    }
  }

  lemma {:induction false} PairedAll(prev: seq<Option<nat>>, next: seq<nat>, rows: seq<RowInfo>, removed: seq<Range>,
                                     inss: seq<Range>)
    requires InBoth(prev, next, rows, removed, inss) && NoneBoth(prev, next, removed, inss)
    ensures AllPaired(prev, next, rows)
  {
    hide Has, HasOld, HasNew;
  }

  // ----- The first half of calculate -----

  // Everything up to the moves: the rows in both with their old and new positions;
  // the deleted rows, the rows that left the collection, and the new rows.
  method RowsInBoth(prev: seq<Option<nat>>, next: seq<nat>, changed: nat -> bool, ret: CollectionChangeBuilder,
                    removed: IndexSet) returns (rows: seq<RowInfo>)
    requires ret.Valid() && ret.Now() == NOTHING && removed.Valid() && removed.Ranges() == []
    requires removed.v !in ret.Repr()
    modifies ret.deletions.v, ret.insertions.v, ret.modifications.v, removed.v
    ensures ret.deletions.Valid() && ret.insertions.Valid() && ret.modifications.Valid() && removed.Valid()
    ensures Kept(rows) && InBoth(prev, next, rows, removed.Ranges(), ret.insertions.Ranges())
    ensures forall y: int :: Has(ret.deletions.Ranges(), y) <==> 0 <= y < |prev| && prev[y] == None
    ensures Marks(prev, next, rows, changed, ret.modifications.Ranges()) && AllPaired(prev, next, rows)
    ensures NoneBoth(prev, next, removed.Ranges(), ret.insertions.Ranges())
  {
    hide Sorted, Has, Infos, Paired, Apart, InOrder, Kept, InBoth, Marks, MovesOk;
    var olds := OldInfos(prev, ret.deletions);
    var before := NewInfos(next);
    InfosFacts(prev, olds);
    InfosFacts(Known(next), before);
    var news := Pair(olds, before, removed, ret.insertions);
    PairedFacts(olds, before, news, removed.Ranges(), ret.insertions.Ranges());
    rows := WithOldPosition(news);
    PairedInBoth(prev, next, olds, before, news, rows, removed.Ranges(), ret.insertions.Ranges());
    MarkChanged(rows, changed, ret.modifications);
    ApartNoneBoth(prev, next, olds, before, news, removed.Ranges(), ret.insertions.Ranges());
    PairedAll(prev, next, rows, removed.Ranges(), ret.insertions.Ranges());
    MarksExact(prev, next, changed, rows, ret.modifications.Ranges());
  }

  lemma {:induction false} InfosFacts(source: seq<Option<nat>>, rows: seq<RowInfo>)
    requires Infos(source, |source|, rows)
    ensures forall k | 0 <= k < |rows| :: rows[k].prevTvIndex == None
    ensures forall x, y | 0 <= x < y < |rows| :: rows[x].tvIndex != rows[y].tvIndex
  {
  }

  lemma {:induction false} PairedFacts(old_: seq<RowInfo>, before: seq<RowInfo>, news: seq<RowInfo>,
                                       removed: seq<Range>, inss: seq<Range>)
    requires Paired(old_, before, news, |old_|, |before|, removed, inss)
    requires forall x, y | 0 <= x < y < |before| :: before[x].tvIndex != before[y].tvIndex
    ensures |news| == |before|
    ensures SameNew(news, before)
    ensures forall k, l | 0 <= k < l < |news| :: news[k].tvIndex != news[l].tvIndex
    ensures forall k, l | 0 <= k < l < |news| && news[k].prevTvIndex.Some? ::
              news[k].prevTvIndex != news[l].prevTvIndex
  {
  }
}
