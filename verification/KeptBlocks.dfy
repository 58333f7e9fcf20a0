// What calculate leaves in place for sorted results: a longest block of rows, and
// everything if nothing has changed.
module KeptBlocks {
  import opened Wrappers
  import opened Ranges
  import opened CollectionChanges
  import opened RowMatches
  import opened RowDiffs
  import opened RowPairs
  import opened UnsortedMoves

  // rows are the rows in both, matched by mt; of them exactly those before the
  // first difference and in the blocks are neither deleted nor inserted.
  ghost predicate KeepsBlocks(prev: seq<Option<nat>>, next: seq<nat>, c: Changes, rows: seq<RowInfo>, mt: Matching) {
    && Kept(rows) && MatchingOk(rows, mt) && AllPaired(prev, next, rows)
    && (forall x: nat | x < |mt.a| :: !Has(c.deletions, mt.a[x].tvIndex) <==> KeptOld(mt, x))
    && (forall x: nat | x < |rows| :: !Has(c.insertions, rows[x].tvIndex) <==> KeptNew(mt, x))
  }

  lemma {:induction false} BlocksStay(prev: seq<Option<nat>>, next: seq<nat>, rows: seq<RowInfo>, removed: seq<Range>,
                                      olds: seq<nat>, news: seq<nat>, gone: seq<Range>, dels: seq<Range>,
                                      inss: seq<Range>, c: Changes, mt: Matching)
    requires Kept(rows) && InBoth(prev, next, rows, removed, inss) && AllPaired(prev, next, rows)
    requires Diffed(rows, olds, news, gone, dels, inss, c.insertions)
    requires forall y: int :: Has(gone, y) <==> 0 <= y < |prev| && prev[y] == None
    requires forall y: int :: Has(c.deletions, y) <==> Has(dels, y) || Has(removed, y)
    requires MatchingOk(rows, mt) && KeepsMatched(rows, mt, olds, news)
    ensures KeepsBlocks(prev, next, c, rows, mt)
  {
    hide Has, Kept, AllPaired, Blocks, Rising, SameRow;
    forall x: nat | x < |mt.a|
      ensures !Has(c.deletions, mt.a[x].tvIndex) <==> KeptOld(mt, x)
    {
      assert WasAt(rows, mt.a[x].rowIndex, mt.a[x].tvIndex);
      var y :| 0 <= y < |rows| && rows[y].prevTvIndex == Some(mt.a[x].tvIndex);
      assert BothAt(prev, next, rows[y]) && HasOld(rows, mt.a[x].tvIndex);
    }
    forall x: nat | x < |rows|
      ensures !Has(c.insertions, rows[x].tvIndex) <==> KeptNew(mt, x)
    {
      assert BothAt(prev, next, rows[x]) && HasNew(rows, rows[x].tvIndex);
    }
  }

  // ----- What the blocks are good for -----

  // As many rows as in any common block behind the first difference stay together,
  // neither deleted nor inserted.
  lemma {:induction false} LongestStays(prev: seq<Option<nat>>, next: seq<nat>, c: Changes, rows: seq<RowInfo>,
                                        mt: Matching, i: nat, j: nat, n: nat)
    requires KeepsBlocks(prev, next, c, rows, mt) && n > 0
    requires Common(Window(mt.first, |rows|, mt.first, |rows|), mt.a, RowsOf(rows), i, j, n)
    ensures exists m: Match :: n <= m.size && StaysTogether(c, rows, mt, m)
  {
    hide Has, Kept, AllPaired, Common, InOldOrder;
    var w := Window(mt.first, |rows|, mt.first, |rows|);
    LongestFound(w, mt.a, RowsOf(rows), mt.blocks);
    var k :| 0 <= k < |mt.blocks| && n <= mt.blocks[k].size;
    var m := mt.blocks[k];
    BlocksCommon(w, mt.a, RowsOf(rows), mt.blocks, k);
    CommonInside(w, mt.a, RowsOf(rows), m.i, m.j, m.size);
    forall x: nat | x < m.size
      ensures StaysAt(c, rows, mt, m, x)
    {
      CommonRow(w, mt.a, RowsOf(rows), m, x);
      assert KeptOld(mt, m.i + x) && KeptNew(mt, m.j + x);
    }
    assert StaysTogether(c, rows, mt, m);
  }

  // The rows of the block are the same on both sides, and stay.
  ghost predicate StaysTogether(c: Changes, rows: seq<RowInfo>, mt: Matching, m: Match) {
    forall x: nat | x < m.size :: StaysAt(c, rows, mt, m, x)
  }

  ghost predicate StaysAt(c: Changes, rows: seq<RowInfo>, mt: Matching, m: Match, x: nat) {
    && m.i + x < |mt.a| && m.j + x < |rows| && mt.a[m.i + x].rowIndex == rows[m.j + x].rowIndex
    && !Has(c.deletions, mt.a[m.i + x].tvIndex) && !Has(c.insertions, rows[m.j + x].tvIndex)
  }

  lemma {:induction false} CommonRow(w: Window, a: seq<Row>, b: seq<nat>, m: Match, x: nat)
    requires Common(w, a, b, m.i, m.j, m.size) && x < m.size
    ensures m.i + x < |a| && m.j + x < |b| && a[m.i + x].rowIndex == b[m.j + x]
  {
    assert a[m.i + x].rowIndex == b[m.i + x - m.i + m.j];
  }

  lemma {:induction false} BlocksCommon(w: Window, a: seq<Row>, b: seq<nat>, ms: seq<Match>, k: nat)
    requires Blocks(w, a, b, ms) && k < |ms|
    ensures Common(w, a, b, ms[k].i, ms[k].j, ms[k].size)
    decreases |ms|
  {
    var l :| 0 <= l < |ms| && BlockAt(w, a, b, ms, l);
    if k < l {
      BlocksCommon(InFront(w, ms[l]), a, b, ms[..l], k);
    } else if l < k {
      BlocksCommon(Behind(w, ms[l]), a, b, ms[l + 1..], k - l - 1);
    }
  }

  // ----- Equal sequences -----

  // Every row has its partner: there are as many of each on both sides.
  lemma {:induction false} EqualAllPaired(prev: seq<Option<nat>>, next: seq<nat>, rows: seq<RowInfo>,
                                          removed: seq<Range>, inss: seq<Range>)
    requires prev == Known(next) && Kept(rows) && InBoth(prev, next, rows, removed, inss)
    requires NoneBoth(prev, next, removed, inss)
    ensures forall n: nat | n < |next| :: HasNew(rows, n) && HasOld(rows, n)
  {
    hide Has, Kept, InBoth;
    forall n: nat | n < |next|
      ensures HasNew(rows, n) && HasOld(rows, n)
    {
      LeftOnNeither(prev, next, rows, removed, inss, n);
    }
  }

  // The places of one row.
  ghost function PlacesOf(next: seq<nat>, row: nat): set<int> {
    set n | 0 <= n < |next| && next[n] == row
  }

  lemma {:induction false} LeftOnNeither(prev: seq<Option<nat>>, next: seq<nat>, rows: seq<RowInfo>,
                                         removed: seq<Range>, inss: seq<Range>, n: nat)
    requires prev == Known(next) && Kept(rows) && InBoth(prev, next, rows, removed, inss)
    requires NoneBoth(prev, next, removed, inss) && n < |next|
    ensures HasNew(rows, n) && HasOld(rows, n)
  {
    hide Has, Kept, HasOld, HasNew;
    PositionsApart(rows);
    forall m: nat | m < |next| && next[m] == next[n]
      ensures HasOld(rows, m) || HasNew(rows, n)
      ensures HasNew(rows, m) || HasOld(rows, n)
    {
      assert prev[m] == Some(next[n]) && prev[n] == Some(next[m]);
    }
    AsManyOnBoth(prev, next, rows, n);
  }

  // A row is left on one side at most if it is on neither.
  lemma {:induction false} AsManyOnBoth(prev: seq<Option<nat>>, next: seq<nat>, rows: seq<RowInfo>, n: nat)
    requires prev == Known(next) && n < |next| && forall x | 0 <= x < |rows| :: BothAt(prev, next, rows[x])
    requires forall y, z | 0 <= y < z < |rows| :: OldPositions(rows)[y] != OldPositions(rows)[z]
    requires forall y, z | 0 <= y < z < |rows| :: NewPositions(rows)[y] != NewPositions(rows)[z]
    requires forall m: nat | m < |next| && next[m] == next[n] ::
               (HasOld(rows, m) || HasNew(rows, n)) && (HasNew(rows, m) || HasOld(rows, n))
    ensures HasNew(rows, n) && HasOld(rows, n)
  {
    hide HasOld, HasNew, BothAt, KeptSet, Image;
    var row, ps, qs := next[n], OldPositions(rows), NewPositions(rows);
    var f := seq(|rows|, x requires 0 <= x < |rows| => rows[x].rowIndex == row);
    var kept := KeptSet(f, |rows|);
    KeptInside(f, |rows|);
    var all, a, b := PlacesOf(next, row), Image(ps, kept), Image(qs, kept);
    ImageSize(ps, f, |rows|);
    ImageSize(qs, f, |rows|);
    forall m: int
      ensures m in a <==> m in all && HasOld(rows, m)
      ensures m in b <==> m in all && HasNew(rows, m)
    {
      OldPlaces(prev, next, rows, row, f, m);
      NewPlaces(prev, next, rows, row, f, m);
    }
    Without(all, a, b, n);
    Without(all, b, a, n);
  }

  lemma {:induction false} Without(all: set<int>, a: set<int>, b: set<int>, n: int)
    requires (forall m :: m in a ==> m in all) && (forall m :: m in b ==> m in all) && n in all
    requires n !in b ==> forall m :: m in all ==> m in a
    ensures |a| == |b| ==> n in b
  {
    if n !in b {
      forall m | m in b + {n}
        ensures m in all
      {
      }
      forall m | m in all
        ensures m in a
      {
      }
      SubsetSize(b + {n}, all);
      SubsetSize(all, a);
    }
  }

  lemma {:induction false} PositionsApart(rows: seq<RowInfo>)
    requires Kept(rows)
    ensures forall y, z | 0 <= y < z < |rows| :: OldPositions(rows)[y] != OldPositions(rows)[z]
    ensures forall y, z | 0 <= y < z < |rows| :: NewPositions(rows)[y] != NewPositions(rows)[z]
  {
  }

  // Rows in both are at their places, before and after.
  lemma {:induction false} OldPlaces(prev: seq<Option<nat>>, next: seq<nat>, rows: seq<RowInfo>, row: nat,
                                     f: seq<bool>, m: int)
    requires prev == Known(next) && |f| == |rows| && forall x | 0 <= x < |rows| :: BothAt(prev, next, rows[x])
    requires forall x | 0 <= x < |rows| :: f[x] <==> rows[x].rowIndex == row
    ensures m in Image(OldPositions(rows), KeptSet(f, |rows|)) <==> m in PlacesOf(next, row) && HasOld(rows, m)
  {
    var ps, all := OldPositions(rows), KeptSet(f, |rows|);
    if x: nat :| x < |f| && x in all && ps[x] == m {
      assert BothAt(prev, next, rows[x]);
    }
    if x: nat :| x < |rows| && rows[x].prevTvIndex.Some? && rows[x].prevTvIndex.value == m {
      assert BothAt(prev, next, rows[x]) && ps[x] == m && (x in all <==> rows[x].rowIndex == row);
    }
  }

  lemma {:induction false} NewPlaces(prev: seq<Option<nat>>, next: seq<nat>, rows: seq<RowInfo>, row: nat,
                                     f: seq<bool>, m: int)
    requires |f| == |rows| && forall x | 0 <= x < |rows| :: BothAt(prev, next, rows[x])
    requires forall x | 0 <= x < |rows| :: f[x] <==> rows[x].rowIndex == row
    ensures m in Image(NewPositions(rows), KeptSet(f, |rows|)) <==> m in PlacesOf(next, row) && HasNew(rows, m)
  {
    var qs, all := NewPositions(rows), KeptSet(f, |rows|);
    if x: nat :| x < |f| && x in all && qs[x] == m {
      assert BothAt(prev, next, rows[x]);
    }
    if x: nat :| x < |rows| && rows[x].tvIndex == m {
      assert BothAt(prev, next, rows[x]) && qs[x] == m && (x in all <==> rows[x].rowIndex == row);
    }
  }

  // Positions that rise through all there are.
  lemma {:induction false} RisingAll(ps: seq<nat>, n: nat)
    requires Rising(ps) && (forall k | 0 <= k < |ps| :: ps[k] < n) && forall m: nat | m < n :: m in ps
    ensures |ps| == n && forall k | 0 <= k < n :: ps[k] == k
    decreases n
  {
    if n > 0 {
      var last: nat := n - 1;
      assert last in ps;
      var k :| 0 <= k < |ps| && ps[k] == last;
      LastLargest(ps, k);
      forall m: nat | m < n - 1
        ensures m in ps[..k]
      {
        assert m in ps;
        var l :| 0 <= l < |ps| && ps[l] == m;
        assert ps[..k][l] == m;
      }
      RisingAll(ps[..k], n - 1);
    } else if |ps| > 0 {
      LastLargest(ps, 0);
    }
  }

  lemma {:induction false} LastLargest(ps: seq<nat>, k: nat)
    requires Rising(ps) && k < |ps|
    ensures k == |ps| - 1 || ps[k] < ps[|ps| - 1]
    ensures ps[k] >= 0
  {
  }

  lemma {:induction false} NoMembers(rs: seq<Range>)
    requires Sorted(rs) && forall y: int :: !Has(rs, y)
    ensures rs == []
  {
    assert rs != [] ==> Has(rs, rs[0].first);
  }

  lemma {:induction false} EqualUnchanged(prev: seq<Option<nat>>, next: seq<nat>, rows: seq<RowInfo>, c: Changes,
                                          mt: Matching)
    requires prev == Known(next) && Proper(c) && KeepsBlocks(prev, next, c, rows, mt) && CarriesOver(c, prev, next)
    requires forall n: nat | n < |next| :: HasNew(rows, n) && HasOld(rows, n)
    ensures c.deletions == [] && c.insertions == []
  {
    hide Has, Sorted, Blocks, HasOld, HasNew, BothAt, NewPosition;
    AllInOrder(prev, next, rows, mt);
    forall y: int
      ensures !Has(c.deletions, y) && !Has(c.insertions, y)
    {
      if 0 <= y < |rows| {
        assert KeptOld(mt, y) && KeptNew(mt, y);
        assert mt.a[y].tvIndex == y && rows[y].tvIndex == y;
      } else {
        NotNegative(c, y);
      }
    }
    NoMembers(c.deletions);
    NoMembers(c.insertions);
  }

  lemma {:induction false} NotNegative(c: Changes, y: int)
    ensures y < 0 ==> !Has(c.deletions, y) && !Has(c.insertions, y)
  {
  }

  lemma {:induction false} AllInOrder(prev: seq<Option<nat>>, next: seq<nat>, rows: seq<RowInfo>, mt: Matching)
    requires prev == Known(next) && Kept(rows) && MatchingOk(rows, mt)
    requires forall x | 0 <= x < |rows| :: BothAt(prev, next, rows[x])
    requires forall n: nat | n < |next| :: HasNew(rows, n) && HasOld(rows, n)
    ensures mt.first == |rows| == |next| == |mt.a|
    ensures forall x | 0 <= x < |rows| :: mt.a[x].tvIndex == x && rows[x].tvIndex == x
  {
    hide Blocks, Rising, InOldOrder, HasOld, HasNew, BothAt;
    OldInOrder(prev, next, rows, mt.a);
    NewInOrder(prev, next, rows);
    MatchedHere(rows, mt);
  }

  lemma {:induction false} MatchedHere(rows: seq<RowInfo>, mt: Matching)
    requires MatchingOk(rows, mt)
    ensures InOldOrder(rows, mt.a) && mt.first <= |rows| == |mt.a|
    ensures mt.first < |rows| ==> mt.a[mt.first].rowIndex != rows[mt.first].rowIndex
  {
    hide Blocks, Rising;
  }

  lemma {:induction false} OldInOrder(prev: seq<Option<nat>>, next: seq<nat>, rows: seq<RowInfo>, a: seq<Row>)
    requires prev == Known(next) && InOldOrder(rows, a) && forall x | 0 <= x < |rows| :: BothAt(prev, next, rows[x])
    requires forall n: nat | n < |next| :: HasOld(rows, n)
    ensures |a| == |next| && forall x | 0 <= x < |a| :: a[x] == Row(next[x], x)
  {
    hide Rising, HasOld;
    var ps := Positions(a);
    forall m: nat | m < |next|
      ensures m in ps
    {
      OldsListed(rows, a, m);
    }
    forall x | 0 <= x < |a|
      ensures ps[x] < |next| && a[x].rowIndex == next[ps[x]]
    {
      assert WasAt(rows, a[x].rowIndex, a[x].tvIndex);
      var y :| 0 <= y < |rows| && rows[y].rowIndex == a[x].rowIndex && rows[y].prevTvIndex == Some(a[x].tvIndex);
      assert BothAt(prev, next, rows[y]);
    }
    RisingAll(ps, |next|);
  }

  lemma {:induction false} NewInOrder(prev: seq<Option<nat>>, next: seq<nat>, rows: seq<RowInfo>)
    requires prev == Known(next) && Kept(rows) && forall x | 0 <= x < |rows| :: BothAt(prev, next, rows[x])
    requires forall n: nat | n < |next| :: HasNew(rows, n)
    ensures |rows| == |next|
    ensures forall x | 0 <= x < |rows| :: rows[x].tvIndex == x && rows[x].rowIndex == next[x]
  {
    hide Rising, HasNew;
    var qs := NewPositions(rows);
    forall m: nat | m < |next|
      ensures m in qs
    {
      NewsListed(rows, m);
    }
    forall x | 0 <= x < |rows|
      ensures qs[x] < |next| && rows[x].rowIndex == next[qs[x]]
    {
      assert BothAt(prev, next, rows[x]);
    }
    RisingAll(qs, |next|);
  }
}
