// CollectionChangeBuilder::calculate: the change set between two sequences of
// rows, and when it carries the first onto the second.
module Calculations {
  import opened Wrappers
  import opened Ranges
  import opened IndexSets
  import opened CollectionChanges
  import opened ChangeMoves
  import opened ChangeBuilders
  import opened RowDiffs
  import opened RowPairs
  import opened UnsortedMoves
  import opened KeptBlocks

  // The kept rows outside, the removed rows and the rows that are gone leave just
  // the picked positions free.
  lemma {:induction false} PickedCarry(prev: seq<Option<nat>>, next: seq<nat>, rows: seq<RowInfo>, removed: seq<Range>,
                                       olds: seq<nat>, news: seq<nat>, gone: seq<Range>, dels: seq<Range>,
                                       inss: seq<Range>, c: Changes)
    requires Proper(c) && InBoth(prev, next, rows, removed, inss)
    requires Diffed(rows, olds, news, gone, dels, inss, c.insertions)
    requires forall y: int :: Has(gone, y) <==> 0 <= y < |prev| && prev[y] == None
    requires forall y: int :: Has(c.deletions, y) <==> Has(dels, y) || Has(removed, y)
    requires forall x, y | 0 <= x < y < |rows| :: rows[x].tvIndex != rows[y].tvIndex
    ensures CarriesOver(c, prev, next)
  {
    hide Has, Sorted, Rising;
    forall k | 0 <= k < |olds|
      ensures olds[k] < |prev| && news[k] < |next| && prev[olds[k]] == Some(next[news[k]])
      ensures HasOld(rows, olds[k]) && HasNew(rows, news[k])
    {
      assert SameRow(rows, olds[k], news[k]);
      var x, y :| 0 <= x < |rows| && 0 <= y < |rows| && rows[x].prevTvIndex == Some(olds[k])
        && rows[y].tvIndex == news[k] && rows[x].rowIndex == rows[y].rowIndex;
      assert BothAt(prev, next, rows[x]) && BothAt(prev, next, rows[y]);
    }
    forall y: int
      ensures HasOld(rows, y) ==> 0 <= y < |prev| && prev[y].Some?
      ensures HasNew(rows, y) ==> 0 <= y < |next|
    {
      if x :| 0 <= x < |rows| && rows[x].prevTvIndex.Some? && rows[x].prevTvIndex.value == y {
        assert BothAt(prev, next, rows[x]);
      }
      if x :| 0 <= x < |rows| && rows[x].tvIndex == y {
        assert BothAt(prev, next, rows[x]);
      }
    }
    AlignedCarries(c, prev, next, olds, news);
  }

  lemma {:induction false} SettingOf(prev: seq<Option<nat>>, next: seq<nat>, rows: seq<RowInfo>, removed: seq<Range>,
                                     inss: seq<Range>)
    requires Sorted(removed) && Sorted(inss) && Kept(rows) && InBoth(prev, next, rows, removed, inss)
    ensures Setting(prev, next, rows, All(removed), All(inss))
  {
    hide Has, Sorted, Kept;
  }

  // rows are the rows in both, and f says of each whether the loop keeps it.
  ghost predicate Keeps(prev: seq<Option<nat>>, next: seq<nat>, candidates: seq<Range>, rows: seq<RowInfo>,
                        f: seq<bool>) {
    && |f| == |rows| && Kept(rows) && AllPaired(prev, next, rows)
    && exists r, s :: Setting(prev, next, rows, r, s) && Walks(rows, candidates, r, s, f)
  }

  // prev and next hold the rows of the collection before and after; of prev,
  // rows that are deleted are None. With candidates the rows are in table order.
  method Calculate(prev: seq<Option<nat>>, next: seq<nat>, changed: nat -> bool, candidates: Option<IndexSet>)
    returns (ret: CollectionChangeBuilder, ghost rows: seq<RowInfo>, ghost f: seq<bool>, ghost mt: Matching)
    requires candidates.Some? ==> candidates.value.Valid()
    ensures fresh(ret.Repr()) && ret.Valid() && MovesCarry(prev, next, ret.moves)
    ensures Marks(prev, next, rows, changed, ret.modifications.Ranges()) && AllPaired(prev, next, rows)
    ensures candidates.None? ==> ret.moves == [] && CarriesOver(ret.Now(), prev, next)
    ensures candidates.None? ==> KeepsBlocks(prev, next, ret.Now(), rows, mt)
    ensures candidates.None? && prev == Known(next) ==> ret.deletions.Ranges() == [] && ret.insertions.Ranges() == []
    ensures candidates.Some? ==> Keeps(prev, next, candidates.value.Ranges(), rows, f)
    ensures candidates.Some? && OnlyForward(prev, next, candidates.value.Ranges()) ==>
              CarriesOver(ret.Now(), prev, next) && forall x | 0 <= x < |f| :: f[x] <==> Ahead(OldPositions(rows), x)
    ensures candidates.Some? && (forall k, l | 0 <= k < l < |next| :: next[k] != next[l]) ==>
              (CarriesOver(ret.Now(), prev, next) <==> KeptRise(OldPositions(rows), f))
  {
    hide Sorted, Has, Kept, InBoth, CarriesOver, Marks, KeepsBlocks, Keeps, OnlyForward, KeptRise, AllPaired, NoneBoth,
      Ahead;
    ret := new CollectionChangeBuilder();
    var removed := new IndexSet();
    var both := RowsInBoth(prev, next, changed, ret, removed);
    rows, f, mt := both, [], Matching([], 0, []);
    NoMovesOk(ret.Now());
    if candidates.Some? {
      f := InTableOrder(prev, next, both, removed, candidates.value, ret);
    } else {
      mt := InAnyOrder(prev, next, both, removed, ret);
    }
  }

  // calculate_moves_sorted, and the deletions of the rows that left.
  method InAnyOrder(prev: seq<Option<nat>>, next: seq<nat>, rows: seq<RowInfo>, removed: IndexSet,
                    ret: CollectionChangeBuilder) returns (ghost mt: Matching)
    requires ret.Valid() && ret.moves == [] && removed.Valid() && removed.v !in ret.Repr()
    requires Kept(rows) && InBoth(prev, next, rows, removed.Ranges(), ret.insertions.Ranges())
    requires AllPaired(prev, next, rows) && NoneBoth(prev, next, removed.Ranges(), ret.insertions.Ranges())
    requires forall y: int :: Has(ret.deletions.Ranges(), y) <==> 0 <= y < |prev| && prev[y] == None
    modifies ret.deletions.v, ret.insertions.v
    ensures ret.Valid() && CarriesOver(ret.Now(), prev, next) && KeepsBlocks(prev, next, ret.Now(), rows, mt)
    ensures prev == Known(next) ==> ret.deletions.Ranges() == [] && ret.insertions.Ranges() == []
  {
    hide Sorted, Has, Kept, InBoth, Diffed, CarriesOver, KeepsBlocks, AllPaired, NoneBoth, MatchingOk, KeepsMatched;
    ghost var gone, inss := ret.deletions.Ranges(), ret.insertions.Ranges();
    ghost var s, t;
    s, t, mt := CalculateMovesSorted(rows, ret);
    ghost var dels := ret.deletions.Ranges();
    ret.deletions.AddSet(removed);
    NoMovesOk(ret.Now());
    KeptFacts(rows);
    PickedCarry(prev, next, rows, removed.Ranges(), s, t, gone, dels, inss, ret.Now());
    BlocksStay(prev, next, rows, removed.Ranges(), s, t, gone, dels, inss, ret.Now(), mt);
    if prev == Known(next) {
      EqualAllPaired(prev, next, rows, removed.Ranges(), inss);
      EqualUnchanged(prev, next, rows, ret.Now(), mt);
    }
  }

  // calculate_moves_unsorted, and the deletions of the rows that left.
  method InTableOrder(prev: seq<Option<nat>>, next: seq<nat>, rows: seq<RowInfo>, removed: IndexSet,
                      candidates: IndexSet, ret: CollectionChangeBuilder) returns (ghost f: seq<bool>)
    requires ret.Valid() && ret.moves == [] && removed.Valid() && removed.v !in ret.Repr()
    requires candidates.Valid() && candidates.v != removed.v && candidates.v !in ret.Repr()
    requires Kept(rows) && InBoth(prev, next, rows, removed.Ranges(), ret.insertions.Ranges())
    requires AllPaired(prev, next, rows)
    requires forall y: int :: Has(ret.deletions.Ranges(), y) <==> 0 <= y < |prev| && prev[y] == None
    modifies ret.deletions.v, ret.insertions.v, ret`moves, removed.v
    ensures ret.Valid() && MovesCarry(prev, next, ret.moves)
    ensures Keeps(prev, next, candidates.Ranges(), rows, f)
    ensures OnlyForward(prev, next, candidates.Ranges()) ==>
              CarriesOver(ret.Now(), prev, next) && forall x | 0 <= x < |f| :: f[x] <==> Ahead(OldPositions(rows), x)
    ensures (forall k, l | 0 <= k < l < |next| :: next[k] != next[l]) ==>
              (CarriesOver(ret.Now(), prev, next) <==> KeptRise(OldPositions(rows), f))
  {
    hide Sorted, Has, Kept, InBoth, CarriesOver, Setting, Walks, OnlyForward, KeptRise, MovesOk, MovesCarry, All,
      RemovedBy, InsertedBy, MovesBy, AllPaired;
    ghost var r, s := All(removed.Ranges()), All(ret.insertions.Ranges());
    SettingOf(prev, next, rows, removed.Ranges(), ret.insertions.Ranges());
    SettingFacts(prev, next, rows, r, s);
    f := CalculateMovesUnsorted(rows, removed, candidates, ret);
    ret.deletions.AddSet(removed);
    assert Leaves(prev, rows, f, r, s, ret.Now());
    assert [] + MovesBy(rows, f) == MovesBy(rows, f);
    MovesRight(prev, next, rows, r, s, f, ret.Now());
    UnsortedCarries(prev, next, rows, r, s, candidates.Ranges(), f, ret.Now());
  }

  lemma {:induction false} KeptFacts(rows: seq<RowInfo>)
    requires Kept(rows)
    ensures forall x, y | 0 <= x < y < |rows| :: rows[x].tvIndex != rows[y].tvIndex
  {
    forall x, y | 0 <= x < y < |rows|
      ensures rows[x].tvIndex != rows[y].tvIndex
    {
      assert NewPositions(rows)[x] < NewPositions(rows)[y];
    }
  }

  // ----- Rows in table order -----

  // Every move passes rows that stay in the table towards the front, as
  // move_last_over does.
  ghost predicate ToTheFront(table: Changes, moves: seq<Move>) {
    forall mv, m: nat | mv in moves && mv.from < m && !Has(table.deletions, m) :: mv.to < NewAt(table, m)
  }

  // prev is where the changes to the table take the rows was.
  ghost predicate TakenAlong(table: Changes, moves: seq<Move>, was: seq<nat>, prev: seq<Option<nat>>) {
    |prev| == |was| && forall i | 0 <= i < |prev| && prev[i].Some? :: Goes(table, moves, was[i], prev[i].value)
  }

  // The notifier passes the insertions of the table as candidates. That is enough
  // if rows of the table moved to the front only.
  lemma {:induction false} TableOrderForward(table: Changes, moves: seq<Move>, was: seq<nat>, prev: seq<Option<nat>>,
                                             next: seq<nat>)
    requires Proper(table) && MovesOk(table, moves) && ToTheFront(table, moves)
    requires Rising(was) && Rising(next) && TakenAlong(table, moves, was, prev)
    ensures OnlyForward(prev, next, table.insertions)
  {
    hide Has, Sorted, NewPosition;
    forall p: nat, q: nat, x: nat, y: nat |
      p < q < |prev| && x < y < |next| && prev[q] == Some(next[x]) && prev[p] == Some(next[y])
      ensures Has(table.insertions, next[x])
    {
      PassedBy(table, moves, was[p], was[q], next[y], next[x]);
    }
  }

  // Only a moved row gets before one that was before it.
  lemma {:induction false} PassedBy(table: Changes, moves: seq<Move>, m: nat, k: nat, n: nat, l: nat)
    requires Proper(table) && MovesOk(table, moves) && ToTheFront(table, moves)
    requires m < k && l < n && Goes(table, moves, m, n) && Goes(table, moves, k, l)
    ensures Has(table.insertions, l)
  {
    hide Has, Sorted, NewPosition;
    if Moved(table, m, n) && Moved(table, k, l) {
      KeepsOrder(table, m, k);
      assert false;
    }
  }

  // ----- A row that moves behind another -----

  // Row 0 comes first now and cannot have moved; rows 1 and 2 have moved behind
  // it; 10 and 11 have left.
  const BEFORE := [Some(10), Some(2), Some(11), Some(1), Some(0)]
  const AFTER := [0, 1, 2]

  // The counts take row 1 to be in place, so it is kept together with row 0, in
  // the order the two had before.
  method BehindExample() returns (ret: CollectionChangeBuilder)
    ensures ret.Valid() && !CarriesOver(ret.Now(), BEFORE, AFTER)
  {
    hide Sorted, Has, Keeps, KeptRise, CarriesOver, OnlyForward, Marks, MovesCarry, MovesOk;
    NoneAre();
    var candidates := new IndexSet();
    candidates.Add(1);
    candidates.Add(2);
    ghost var rows, f, mt;
    ret, rows, f, mt := Calculate(BEFORE, AFTER, x => false, Some(candidates));
    ExampleKeeps(candidates.Ranges(), rows, f);
  }

  lemma {:induction false} ExampleKeeps(candidates: seq<Range>, rows: seq<RowInfo>, f: seq<bool>)
    requires Keeps(BEFORE, AFTER, candidates, rows, f) && forall y: int :: Has(candidates, y) <==> 1 <= y <= 2
    ensures !KeptRise(OldPositions(rows), f)
  {
    hide Has, Setting, Walks, AllPaired;
    var r, s :| Setting(BEFORE, AFTER, rows, r, s) && Walks(rows, candidates, r, s, f);
    SettingFacts(BEFORE, AFTER, rows, r, s);
    ExampleRows(rows, r, s);
    WalksAt(rows, candidates, r, s, f, 0);
    WalksAt(rows, candidates, r, s, f, 1);
    ExampleCounts(rows, f, r, s);
    var ps := OldPositions(rows);
    assert ps[0] == 4 && ps[1] == 3 && f[0] && f[1];
  }

  lemma {:induction false} ExampleRows(rows: seq<RowInfo>, r: set<int>, s: set<int>)
    requires Setting(BEFORE, AFTER, rows, r, s) && AllPaired(BEFORE, AFTER, rows)
    ensures |rows| == 3 && rows[0].rowIndex == 0 && rows[0].prevTvIndex == Some(4)
    ensures rows[1] == RowInfo(1, Some(3), 1, 3) && rows[2].prevTvIndex == Some(1)
    ensures r == {0, 2} && s == {}
  {
    hide Setting, AllPaired, StillBelow;
    SettingFacts(BEFORE, AFTER, rows, r, s);
    ExamplePaired(rows);
    forall x | 0 <= x < |rows|
      ensures rows[x].tvIndex < 3
    {
      assert BothAt(BEFORE, AFTER, rows[x]);
    }
    InThree(rows);
    assert StillBelow(BEFORE, 3) == 3 by {
      ExampleShift();
    }
    forall x | 0 <= x < 3
      ensures rows[x].rowIndex == x && rows[x].prevTvIndex == Some([4, 3, 1][x])
    {
      assert BothAt(BEFORE, AFTER, rows[x]);
    }
    ExampleSets(rows, r, s);
  }

  lemma {:induction false} ExampleShift()
    ensures StillBelow(BEFORE, 3) == 3
  {
    assert StillBelow(BEFORE, 2) == 2;
  }

  lemma {:induction false} ExamplePaired(rows: seq<RowInfo>)
    requires AllPaired(BEFORE, AFTER, rows)
    ensures forall n: nat | n < 3 :: HasNew(rows, n)
  {
    assert BEFORE[4] == Some(0) && BEFORE[3] == Some(1) && BEFORE[1] == Some(2);
    forall n: nat | n < 3
      ensures HasNew(rows, n)
    {
      assert Some(AFTER[n]) in BEFORE;
      FoundOnce(BEFORE, AFTER, rows, n);
    }
  }

  lemma {:induction false} ExampleSets(rows: seq<RowInfo>, r: set<int>, s: set<int>)
    requires Setting(BEFORE, AFTER, rows, r, s) && |rows| == 3 && forall n: nat | n < 3 :: HasNew(rows, n)
    requires rows[0].prevTvIndex == Some(4) && rows[1].prevTvIndex == Some(3) && rows[2].prevTvIndex == Some(1)
    ensures r == {0, 2} && s == {}
  {
    hide BothAt, Kept;
    forall m: int
      ensures HasOld(rows, m) <==> m == 4 || m == 3 || m == 1
    {
      assert rows[0].prevTvIndex.value == 4 && rows[1].prevTvIndex.value == 3 && rows[2].prevTvIndex.value == 1;
    }
    forall y: int
      ensures y in r <==> y == 0 || y == 2
      ensures y !in s
    {
      if 0 <= y < 5 {
        assert BEFORE[y].Some?;
      }
    }
  }

  lemma {:induction false} AtLeast(rows: seq<RowInfo>, k: nat)
    requires k < |rows| && forall x, y | 0 <= x < y < |rows| :: rows[x].tvIndex < rows[y].tvIndex
    ensures k <= rows[k].tvIndex
  {
    if k > 0 {
      AtLeast(rows, k - 1);
    }
  }

  // Three rows at three places.
  lemma {:induction false} InThree(rows: seq<RowInfo>)
    requires forall x, y | 0 <= x < y < |rows| :: rows[x].tvIndex < rows[y].tvIndex
    requires forall n: nat | n < 3 :: HasNew(rows, n)
    requires forall x | 0 <= x < |rows| :: rows[x].tvIndex < 3
    ensures |rows| == 3 && rows[0].tvIndex == 0 && rows[1].tvIndex == 1 && rows[2].tvIndex == 2
  {
    assert HasNew(rows, 2);
    AtLeast(rows, |rows| - 1);
    PlaceOf(rows, 0);
    PlaceOf(rows, 1);
    PlaceOf(rows, 2);
  }

  lemma {:induction false} PlaceOf(rows: seq<RowInfo>, n: nat)
    requires forall x, y | 0 <= x < y < |rows| :: rows[x].tvIndex < rows[y].tvIndex
    requires forall k: nat | k <= n :: HasNew(rows, k)
    ensures n < |rows| && rows[n].tvIndex == n
  {
    assert HasNew(rows, n);
    var x :| 0 <= x < |rows| && rows[x].tvIndex == n;
    if n > 0 {
      PlaceOf(rows, n - 1);
    }
    AtLeast(rows, x);
  }

  lemma {:induction false} ExampleCounts(rows: seq<RowInfo>, f: seq<bool>, r: set<int>, s: set<int>)
    requires |rows| == 3 && |f| == 3 && f[0] && r == {0, 2} && s == {}
    ensures Below(InsertedBy(rows, f[..1], s), 1) == 0 && Below(RemovedBy(rows, f[..1], r), 3) == 2
  {
    BelowIs(InsertedBy(rows, f[..1], s), 1, {});
    BelowIs(RemovedBy(rows, f[..1], r), 3, {0, 2});
  }
}
