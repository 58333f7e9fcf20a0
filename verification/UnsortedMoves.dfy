// calculate_moves_unsorted: the quick way to find the moves of rows that are in
// table order, which rows it keeps in place, and when that is right.
module UnsortedMoves {
  import opened Wrappers
  import opened Ranges
  import opened IndexSets
  import opened CollectionChanges
  import opened ChangeMoves
  import opened ChangeBuilders
  import opened RangeCount
  import opened RowDiffs
  import opened RowPairs

  // ----- Which rows are kept in place -----

  ghost function Below(s: set<int>, n: int): nat {
    |set y | y in s && 0 <= y < n|
  }

  // The row is where the last one kept makes it expected, or cannot have moved, or
  // is where the rows kept and removed so far put it.
  ghost predicate InPlace(row: RowInfo, candidates: seq<Range>, removed: set<int>, inserted: set<int>, expected: nat) {
    || row.shiftedTvIndex == expected
    || !Has(candidates, row.rowIndex)
    || (row.prevTvIndex.Some?
        && row.shiftedTvIndex == row.tvIndex - Below(inserted, row.tvIndex) + Below(removed, row.prevTvIndex.value))
  }

  // What is removed and inserted, the next row expected and the moves found, after
  // the rows for which g says whether they are kept in place.
  ghost function RemovedBy(rows: seq<RowInfo>, g: seq<bool>, before: set<int>): set<int>
    requires |g| <= |rows|
  {
    before + set k | 0 <= k < |g| && !g[k] && rows[k].prevTvIndex.Some? :: rows[k].prevTvIndex.value as int
  }

  ghost function InsertedBy(rows: seq<RowInfo>, g: seq<bool>, before: set<int>): set<int>
    requires |g| <= |rows|
  {
    before + set k | 0 <= k < |g| && !g[k] :: rows[k].tvIndex as int
  }

  ghost function Expected(rows: seq<RowInfo>, g: seq<bool>): nat
    requires |g| <= |rows|
  {
    if g == [] then 0
    else if g[|g| - 1] then rows[|g| - 1].shiftedTvIndex + 1
    else Expected(rows, g[..|g| - 1])
  }

  ghost function MovesBy(rows: seq<RowInfo>, g: seq<bool>): seq<Move>
    requires |g| <= |rows|
  {
    if g == [] then []
    else
      MovesBy(rows, g[..|g| - 1]) +
      if g[|g| - 1] || rows[|g| - 1].prevTvIndex.None? then []
      else [Move(rows[|g| - 1].prevTvIndex.value, rows[|g| - 1].tvIndex)]
  }

  // f says of each of the first rows whether the loop keeps it in place.
  ghost predicate Walks(rows: seq<RowInfo>, candidates: seq<Range>, removed: set<int>, inserted: set<int>,
                        f: seq<bool>) {
    && |f| <= |rows|
    && forall x | 0 <= x < |f| ::
         f[x] <==> InPlace(rows[x], candidates, RemovedBy(rows, f[..x], removed), InsertedBy(rows, f[..x], inserted),
                           Expected(rows, f[..x]))
  }

  // The members of a set of ranges.
  ghost function All(rs: seq<Range>): (s: set<int>)
    requires Sorted(rs)
    ensures forall y :: y in s <==> Has(rs, y)
  {
    Members(rs, 0, if rs == [] then 0 else rs[|rs| - 1].second)
  }

  lemma {:induction false} CountBelow(rs: seq<Range>, s: set<int>, n: nat)
    requires Sorted(rs) && forall y :: y in s <==> Has(rs, y)
    ensures CountIn(rs, 0, n) == Below(s, n)
  {
    hide Has, Sorted, CountIn;
    CountIsCardinality(rs, 0, n);
    assert Members(rs, 0, n) == set y | y in s && 0 <= y < n;
  }

  // ----- The loop -----

  lemma {:induction false} WalkOn(rows: seq<RowInfo>, candidates: seq<Range>, removed: set<int>, inserted: set<int>,
                                  f: seq<bool>, keep: bool)
    requires Walks(rows, candidates, removed, inserted, f) && |f| < |rows|
    requires keep <==> InPlace(rows[|f|], candidates, RemovedBy(rows, f, removed), InsertedBy(rows, f, inserted),
                               Expected(rows, f))
    ensures Walks(rows, candidates, removed, inserted, f + [keep])
  {
    hide InPlace, RemovedBy, InsertedBy, Expected;
    var g := f + [keep];
    forall x | 0 <= x < |g|
      ensures g[x] <==> InPlace(rows[x], candidates, RemovedBy(rows, g[..x], removed),
                                InsertedBy(rows, g[..x], inserted), Expected(rows, g[..x]))
    {
      assert g[..x] == f[..x];
      assert f[..|f|] == f;
    }
  }

  lemma {:induction false} OneMore(rows: seq<RowInfo>, f: seq<bool>, keep: bool, removed: set<int>, inserted: set<int>)
    requires |f| < |rows| && rows[|f|].prevTvIndex.Some?
    ensures var g, row := f + [keep], rows[|f|];
            if keep then
              && RemovedBy(rows, g, removed) == RemovedBy(rows, f, removed)
              && InsertedBy(rows, g, inserted) == InsertedBy(rows, f, inserted)
              && Expected(rows, g) == row.shiftedTvIndex + 1 && MovesBy(rows, g) == MovesBy(rows, f)
            else
              && RemovedBy(rows, g, removed) == RemovedBy(rows, f, removed) + {row.prevTvIndex.value as int}
              && InsertedBy(rows, g, inserted) == InsertedBy(rows, f, inserted) + {row.tvIndex as int}
              && Expected(rows, g) == Expected(rows, f)
              && MovesBy(rows, g) == MovesBy(rows, f) + [Move(row.prevTvIndex.value, row.tvIndex)]
  {
    var g := f + [keep];
    assert g[..|f|] == f && g[|f|] == keep;
    forall y: int
      ensures y in RemovedBy(rows, g, removed) <==>
              y in RemovedBy(rows, f, removed) || (!keep && y == rows[|f|].prevTvIndex.value)
      ensures y in InsertedBy(rows, g, inserted) <==>
              y in InsertedBy(rows, f, inserted) || (!keep && y == rows[|f|].tvIndex)
    {
      assert forall k | 0 <= k < |f| :: g[k] == f[k];
    }
  }

  ghost predicate Matches(s: set<int>, rs: seq<Range>) {
    forall y :: y in s <==> Has(rs, y)
  }

  // calculate_moves_unsorted, with what it says of each row.
  method CalculateMovesUnsorted(rows: seq<RowInfo>, removed: IndexSet, candidates: IndexSet, c: CollectionChangeBuilder)
    returns (ghost f: seq<bool>)
    requires removed.Valid() && candidates.Valid() && c.insertions.Valid() && removed.v != c.insertions.v
    requires candidates.v != removed.v && candidates.v != c.insertions.v
    requires forall x | 0 <= x < |rows| :: rows[x].prevTvIndex.Some?
    modifies removed.v, c.insertions.v, c`moves
    ensures removed.Valid() && c.insertions.Valid() && |f| == |rows|
    ensures var r, s := All(old(removed.Ranges())), All(old(c.insertions.Ranges()));
            && Walks(rows, candidates.Ranges(), r, s, f)
            && Matches(RemovedBy(rows, f, r), removed.Ranges())
            && Matches(InsertedBy(rows, f, s), c.insertions.Ranges())
            && c.moves == old(c.moves) + MovesBy(rows, f)
  {
    hide Sorted, Has, Walks, RemovedBy, InsertedBy, Expected, MovesBy, InPlace, Matches, All;
    ghost var r, s, cand := All(removed.Ranges()), All(c.insertions.Ranges()), candidates.Ranges();
    f := [];
    NoneWalked(rows, cand, r, s);
    AllMatch(removed.Ranges());
    AllMatch(c.insertions.Ranges());
    var expected: nat, i: nat := 0, 0;
    while i < |rows|
      invariant i == |f| <= |rows| && removed.Valid() && c.insertions.Valid() && candidates.Ranges() == cand
      invariant Walks(rows, cand, r, s, f) && expected == Expected(rows, f)
      invariant Matches(RemovedBy(rows, f, r), removed.Ranges())
      invariant Matches(InsertedBy(rows, f, s), c.insertions.Ranges())
      invariant c.moves == old(c.moves) + MovesBy(rows, f)
    {
      var row := rows[i];
      var keep := StaysInPlace(row, removed, candidates, c.insertions, expected, RemovedBy(rows, f, r),
                               InsertedBy(rows, f, s));
      WalkOn(rows, cand, r, s, f, keep);
      OneMore(rows, f, keep, r, s);
      if keep {
        expected := row.shiftedTvIndex + 1;
      } else {
        c.moves := c.moves + [Move(row.prevTvIndex.value, row.tvIndex)];
        AddTo(c.insertions, row.tvIndex, InsertedBy(rows, f, s));
        AddTo(removed, row.prevTvIndex.value, RemovedBy(rows, f, r));
      }
      f := f + [keep];
      i := i + 1;
    }
  }

  method AddTo(set_: IndexSet, index: nat, ghost s: set<int>)
    requires set_.Valid() && Matches(s, set_.Ranges())
    modifies set_.v
    ensures set_.Valid() && Matches(s + {index as int}, set_.Ranges())
  {
    hide Sorted, Has;
    set_.Add(index);
  }

  lemma {:induction false} AllMatch(rs: seq<Range>)
    requires Sorted(rs)
    ensures Matches(All(rs), rs)
  {
    hide Sorted, Has;
  }

  method StaysInPlace(row: RowInfo, removed: IndexSet, candidates: IndexSet, insertions: IndexSet, expected: nat,
                      ghost r: set<int>, ghost s: set<int>) returns (keep: bool)
    requires removed.Valid() && candidates.Valid() && insertions.Valid() && row.prevTvIndex.Some?
    requires Matches(r, removed.Ranges()) && Matches(s, insertions.Ranges())
    ensures keep <==> InPlace(row, candidates.Ranges(), r, s, expected)
  {
    hide Sorted, Has, Below, CountIn, Miscounts;
    if row.shiftedTvIndex == expected {
      return true;
    }
    var movable := candidates.Contains(row.rowIndex);
    if !movable {
      return true;
    }
    var inserted := insertions.Count(0, row.tvIndex);
    NeverFromZero(insertions.v.chunks, row.tvIndex);
    CountBelow(insertions.Ranges(), s, row.tvIndex);
    var gone := removed.Count(0, row.prevTvIndex.value);
    NeverFromZero(removed.v.chunks, row.prevTvIndex.value);
    CountBelow(removed.Ranges(), r, row.prevTvIndex.value);
    keep := row.shiftedTvIndex == row.tvIndex - inserted + gone;
  }

  lemma {:induction false} NoneWalked(rows: seq<RowInfo>, candidates: seq<Range>, removed: set<int>, inserted: set<int>)
    ensures Walks(rows, candidates, removed, inserted, []) && Expected(rows, []) == 0 && MovesBy(rows, []) == []
    ensures RemovedBy(rows, [], removed) == removed && InsertedBy(rows, [], inserted) == inserted
  {
  }

  // ----- When the rows kept stay in order -----

  // The rows in both sequences; all others are in r and s.
  ghost predicate Setting(prev: seq<Option<nat>>, next: seq<nat>, rows: seq<RowInfo>, r: set<int>, s: set<int>) {
    && Kept(rows) && (forall x | 0 <= x < |rows| :: BothAt(prev, next, rows[x]))
    && (forall m: nat | m < |prev| && prev[m].Some? :: m in r <==> !HasOld(rows, m))
    && (forall y | y in r :: 0 <= y < |prev| && prev[y].Some?)
    && (forall n: nat | n < |next| :: n in s <==> !HasNew(rows, n))
    && (forall y | y in s :: 0 <= y < |next|)
  }

  // Of two rows that swap their order, the one that was behind may have moved:
  // rows move to the front only.
  ghost predicate OnlyForward(prev: seq<Option<nat>>, next: seq<nat>, candidates: seq<Range>) {
    forall p: nat, q: nat, x: nat, y: nat |
      p < q < |prev| && x < y < |next| && prev[q] == Some(next[x]) && prev[p] == Some(next[y]) ::
      Has(candidates, next[x])
  }

  function OldPositions(rows: seq<RowInfo>): (s: seq<nat>)
    ensures |s| == |rows| && forall i | 0 <= i < |s| && rows[i].prevTvIndex.Some? :: s[i] == rows[i].prevTvIndex.value
  {
    seq(|rows|, i requires 0 <= i < |rows| => if rows[i].prevTvIndex.Some? then rows[i].prevTvIndex.value else 0)
  }

  // All later rows were behind this one.
  ghost predicate Ahead(ps: seq<nat>, x: nat) {
    forall u | x < u < |ps| :: ps[x] < ps[u]
  }

  ghost predicate KeptRise(ps: seq<nat>, f: seq<bool>) {
    forall x, y | 0 <= x < y < |f| && y < |ps| && f[x] && f[y] :: ps[x] < ps[y]
  }

  lemma {:induction false} StillMonotone(prev: seq<Option<nat>>, m: nat, n: nat)
    requires m < n <= |prev| && prev[m].Some?
    ensures StillBelow(prev, m) < StillBelow(prev, n)
    decreases n
  {
    if m < n - 1 {
      StillMonotone(prev, m, n - 1);
    }
  }

  ghost function StillThere(prev: seq<Option<nat>>, n: nat): set<int>
    requires n <= |prev|
  {
    set m | 0 <= m < n && prev[m].Some?
  }

  lemma {:induction false} StillCount(prev: seq<Option<nat>>, n: nat)
    requires n <= |prev|
    ensures StillBelow(prev, n) == |StillThere(prev, n)|
    decreases n
  {
    if n == 0 {
      assert StillThere(prev, n) == {};
    } else {
      StillCount(prev, n - 1);
      if prev[n - 1].Some? {
        assert StillThere(prev, n) == StillThere(prev, n - 1) + {n - 1};
      } else {
        assert StillThere(prev, n) == StillThere(prev, n - 1);
      }
    }
  }

  ghost function KeptSet(f: seq<bool>, x: nat): set<int>
    requires x <= |f|
  {
    set y | 0 <= y < x && f[y]
  }

  ghost function Image(ps: seq<nat>, s: set<int>): set<int>
    requires forall y | y in s :: 0 <= y < |ps|
  {
    set y | y in s :: ps[y] as int
  }

  lemma {:induction false} ImageSize(ps: seq<nat>, f: seq<bool>, x: nat)
    requires x <= |f| && x <= |ps| && forall y, z | 0 <= y < z < |ps| :: ps[y] != ps[z]
    ensures |Image(ps, KeptSet(f, x))| == |KeptSet(f, x)|
  {
    hide KeptSet, Image;
    if x == 0 {
      NoneKept(ps, f);
    } else {
      ImageSize(ps, f, x - 1);
      OneKept(ps, f, x - 1);
    }
  }

  lemma {:induction false} NoneKept(ps: seq<nat>, f: seq<bool>)
    ensures KeptSet(f, 0) == {} && Image(ps, KeptSet(f, 0)) == {}
  {
  }

  lemma {:induction false} OneKept(ps: seq<nat>, f: seq<bool>, x: nat)
    requires x < |f| && x < |ps| && forall y, z | 0 <= y < z < |ps| :: ps[y] != ps[z]
    ensures var a, b := KeptSet(f, x), KeptSet(f, x + 1);
            if f[x] then b == a + {x} && x !in a && Image(ps, b) == Image(ps, a) + {ps[x] as int}
                         && ps[x] as int !in Image(ps, a)
            else b == a
  {
    var a, b := KeptSet(f, x), KeptSet(f, x + 1);
    forall y: int
      ensures y in b <==> y in a || (f[x] && y == x)
    {
    }
    forall n: int
      ensures n in Image(ps, b) <==> n in Image(ps, a) || (f[x] && n == ps[x])
    {
      if f[x] {
        assert x in b;
      }
    }
  }

  // A row that is where it is expected has no later row before it.
  lemma {:induction false} ExpectedAhead(prev: seq<Option<nat>>, rows: seq<RowInfo>, ps: seq<nat>, f: seq<bool>, x: nat)
    requires x < |rows| && x <= |f| <= |rows| == |ps|
    requires forall y | 0 <= y < |rows| :: ps[y] < |prev| && prev[ps[y]].Some?
    requires forall y | 0 <= y < |rows| :: rows[y].shiftedTvIndex == StillBelow(prev, ps[y])
    requires forall y: nat | y < x && f[y] :: Ahead(ps, y)
    requires rows[x].shiftedTvIndex == Expected(rows, f[..x])
    requires forall y, z | 0 <= y < z < |ps| :: ps[y] != ps[z]
    ensures Ahead(ps, x)
  {
    LastKept(rows, f, x);
    forall u | x < u < |ps|
      ensures ps[x] < ps[u]
    {
      if ps[u] < ps[x] {
        StillMonotone(prev, ps[u], ps[x]);
        if y: nat :| y < x && f[y] && Expected(rows, f[..x]) == rows[y].shiftedTvIndex + 1 {
          StillMonotone(prev, ps[y], ps[u]);
        }
      }
    }
  }

  lemma {:induction false} LastKept(rows: seq<RowInfo>, f: seq<bool>, x: nat)
    requires x <= |f| <= |rows|
    ensures Expected(rows, f[..x]) == 0
         || exists y: nat :: y < x && f[y] && Expected(rows, f[..x]) == rows[y].shiftedTvIndex + 1
    decreases x
  {
    if x > 0 {
      LastKept(rows, f, x - 1);
      assert f[..x][..x - 1] == f[..x - 1];
    }
  }

  // As many rows were kept as there are new positions before this one that are
  // not insertions.
  lemma {:induction false} KeptCount(prev: seq<Option<nat>>, next: seq<nat>, rows: seq<RowInfo>, r: set<int>,
                                     s: set<int>, f: seq<bool>, x: nat)
    requires Setting(prev, next, rows, r, s) && x < |rows| && x <= |f| <= |rows|
    ensures rows[x].tvIndex - Below(InsertedBy(rows, f[..x], s), rows[x].tvIndex) == |KeptSet(f, x)|
  {
    hide Has;
    var qs, t := NewPositions(rows), rows[x].tvIndex;
    var ins := set y | y in InsertedBy(rows, f[..x], s) && 0 <= y < t;
    forall y, z | 0 <= y < z < |qs|
      ensures qs[y] != qs[z]
    {
    }
    ImageSize(qs, f, x);
    var kept := Image(qs, KeptSet(f, x));
    forall n: int
      ensures n in Interval(0, t) <==> n in ins || n in kept
      ensures n in ins ==> n !in kept
    {
      NewPlace(prev, next, rows, r, s, f, x, n);
    }
    assert Interval(0, t) == ins + kept;
    assert ins !! kept;
  }

  lemma {:induction false} NewPlace(prev: seq<Option<nat>>, next: seq<nat>, rows: seq<RowInfo>, r: set<int>,
                                    s: set<int>, f: seq<bool>, x: nat, n: int)
    requires Setting(prev, next, rows, r, s) && x < |rows| && x <= |f| <= |rows|
    ensures n in Image(NewPositions(rows), KeptSet(f, x)) ==> 0 <= n < rows[x].tvIndex
    ensures n in Image(NewPositions(rows), KeptSet(f, x)) ==> n !in InsertedBy(rows, f[..x], s)
    ensures 0 <= n < rows[x].tvIndex ==>
              n in Image(NewPositions(rows), KeptSet(f, x)) || n in InsertedBy(rows, f[..x], s)
  {
    hide Setting, Has;
    SettingFacts(prev, next, rows, r, s);
    var qs := NewPositions(rows);
    if n in Image(qs, KeptSet(f, x)) {
      var y :| y in KeptSet(f, x) && qs[y] == n;
      NotBefore(prev, next, rows, r, s, y);
    }
    if 0 <= n < rows[x].tvIndex && n !in s {
      assert BothAt(prev, next, rows[x]);
      var k := NewThere(prev, next, rows, r, s, n);
      if f[k] {
        assert k in KeptSet(f, x);
      } else {
        assert !f[..x][k];
      }
    }
  }

  lemma {:induction false} NewThere(prev: seq<Option<nat>>, next: seq<nat>, rows: seq<RowInfo>, r: set<int>,
                                    s: set<int>, n: nat) returns (k: nat)
    requires Setting(prev, next, rows, r, s) && n < |next| && n !in s
    ensures k < |rows| && rows[k].tvIndex == n
  {
    hide Kept, BothAt;
    k :| k < |rows| && rows[k].tvIndex == n;
  }

  // A row that is where the counts put it has no later row before it.
  lemma {:induction false} CountedAhead(prev: seq<Option<nat>>, next: seq<nat>, rows: seq<RowInfo>, r: set<int>,
                                        s: set<int>, f: seq<bool>, x: nat)
    requires Setting(prev, next, rows, r, s) && x < |rows| && x <= |f| <= |rows|
    requires forall y: nat | y < x && f[y] :: Ahead(OldPositions(rows), y)
    requires rows[x].shiftedTvIndex == rows[x].tvIndex - Below(InsertedBy(rows, f[..x], s), rows[x].tvIndex)
                                       + Below(RemovedBy(rows, f[..x], r), rows[x].prevTvIndex.value)
    ensures Ahead(OldPositions(rows), x)
  {
    hide Has, Setting, InsertedBy, RemovedBy, StillThere, KeptSet, Below, Ahead;
    SettingFacts(prev, next, rows, r, s);
    var ps := OldPositions(rows);
    KeptCount(prev, next, rows, r, s, f, x);
    StillCount(prev, ps[x]);
    if u: nat :| x < u < |rows| && ps[u] < ps[x] {
      OneBehind(prev, next, rows, r, s, f, x, u);
    }
    assert forall u: nat | x < u < |rows| :: ps[x] < ps[u];
    AheadOfAll(ps, x);
  }

  lemma {:induction false} AheadOfAll(ps: seq<nat>, x: nat)
    requires forall u: nat | x < u < |ps| :: ps[x] < ps[u]
    ensures Ahead(ps, x)
  {
  }

  // A later row that was before this one is counted on one side only.
  lemma {:induction false} OneBehind(prev: seq<Option<nat>>, next: seq<nat>, rows: seq<RowInfo>, r: set<int>,
                                     s: set<int>, f: seq<bool>, x: nat, u: nat)
    requires Setting(prev, next, rows, r, s) && x < u < |rows| && x <= |f| <= |rows|
    requires forall y: nat | y < x && f[y] :: Ahead(OldPositions(rows), y)
    requires OldPositions(rows)[u] < OldPositions(rows)[x]
    ensures var p := OldPositions(rows)[x];
            p <= |prev| && |KeptSet(f, x)| + Below(RemovedBy(rows, f[..x], r), p) < |StillThere(prev, p)|
  {
    hide Has, Setting, InsertedBy, RemovedBy, StillThere, KeptSet, Ahead, Below;
    SettingFacts(prev, next, rows, r, s);
    var ps := OldPositions(rows);
    var p, m := ps[x], ps[u] as int;
    assert BothAt(prev, next, rows[x]);
    KeptInside(f, x);
    ImageSize(ps, f, x);
    var kept := Image(ps, KeptSet(f, x));
    var gone := set m | m in RemovedBy(rows, f[..x], r) && 0 <= m < p;
    forall n
      ensures n in kept || n in gone || n == m ==> n in StillThere(prev, p)
      ensures n in kept ==> n !in gone && n != m
      ensures n in gone ==> n != m
    {
      OldPlace(prev, next, rows, r, s, f, x, n);
      OldApart(prev, next, rows, r, s, f, x, u, n);
    }
    BelowIs(RemovedBy(rows, f[..x], r), p, gone);
    ApartSize(kept, gone, m, StillThere(prev, p));
  }

  lemma {:induction false} BelowIs(s: set<int>, n: int, t: set<int>)
    requires forall y :: y in t <==> y in s && 0 <= y < n
    ensures Below(s, n) == |t|
  {
    var u := set y | y in s && 0 <= y < n;
    forall y | y in t
      ensures y in u
    {
    }
    assert t == u;
  }

  lemma {:induction false} ApartSize(a: set<int>, b: set<int>, m: int, whole: set<int>)
    requires a !! b && m !in a && m !in b && a <= whole && b <= whole && m in whole
    ensures |a| + |b| < |whole|
  {
    SubsetSize(a + b + {m}, whole);
    assert |a + b + {m}| == |a| + |b| + 1;
  }

  lemma {:induction false} KeptInside(f: seq<bool>, x: nat)
    requires x <= |f|
    ensures forall y | y in KeptSet(f, x) :: 0 <= y < x
  {
  }

  lemma {:induction false} SettingFacts(prev: seq<Option<nat>>, next: seq<nat>, rows: seq<RowInfo>, r: set<int>,
                                        s: set<int>)
    requires Setting(prev, next, rows, r, s)
    ensures forall x | 0 <= x < |rows| :: rows[x].prevTvIndex.Some? && BothAt(prev, next, rows[x])
    ensures forall x, y | 0 <= x < y < |rows| :: OldPositions(rows)[x] != OldPositions(rows)[y]
    ensures forall x, y | 0 <= x < y < |rows| :: rows[x].tvIndex < rows[y].tvIndex
  {
    forall x, y | 0 <= x < y < |rows|
      ensures rows[x].tvIndex < rows[y].tvIndex
    {
      assert NewPositions(rows)[x] < NewPositions(rows)[y];
    }
  }

  lemma {:induction false} OldPlace(prev: seq<Option<nat>>, next: seq<nat>, rows: seq<RowInfo>, r: set<int>,
                                    s: set<int>, f: seq<bool>, x: nat, n: int)
    requires Setting(prev, next, rows, r, s) && x < |rows| && x <= |f| <= |rows|
    requires forall y: nat | y < x && f[y] :: Ahead(OldPositions(rows), y)
    ensures var ps := OldPositions(rows);
            && (n in Image(ps, KeptSet(f, x)) ==> n in StillThere(prev, ps[x]))
            && (n in RemovedBy(rows, f[..x], r) && 0 <= n < ps[x] ==> n in StillThere(prev, ps[x]))
            && (n in ps && n < ps[x] ==> n in StillThere(prev, ps[x]))
  {
    var ps := OldPositions(rows);
    if n in Image(ps, KeptSet(f, x)) {
      var y :| y in KeptSet(f, x) && ps[y] == n;
      assert Ahead(ps, y) && BothAt(prev, next, rows[y]) && BothAt(prev, next, rows[x]);
    }
    if n in ps {
      var y :| 0 <= y < |ps| && ps[y] == n;
      assert BothAt(prev, next, rows[y]) && BothAt(prev, next, rows[x]);
    }
    if n in RemovedBy(rows, f[..x], r) && n !in r {
      var k :| 0 <= k < x && !f[..x][k] && rows[k].prevTvIndex == Some(n as nat);
      assert BothAt(prev, next, rows[k]) && BothAt(prev, next, rows[x]);
    }
    assert BothAt(prev, next, rows[x]);
  }

  lemma {:induction false} OldApart(prev: seq<Option<nat>>, next: seq<nat>, rows: seq<RowInfo>, r: set<int>,
                                    s: set<int>, f: seq<bool>, x: nat, u: nat, n: int)
    requires Setting(prev, next, rows, r, s) && x < u < |rows| && x <= |f| <= |rows|
    ensures var ps := OldPositions(rows);
            && (n in Image(ps, KeptSet(f, x)) ==> n !in RemovedBy(rows, f[..x], r) && n != ps[u])
            && (n in RemovedBy(rows, f[..x], r) ==> n != ps[u])
  {
    hide Has, Setting;
    SettingFacts(prev, next, rows, r, s);
    var ps := OldPositions(rows);
    forall y | 0 <= y < |rows| && ps[y] == n
      ensures n !in r
    {
      NotBefore(prev, next, rows, r, s, y);
    }
    if n in RemovedBy(rows, f[..x], r) && n !in r {
      var k :| 0 <= k < x && !f[..x][k] && ps[k] == n;
    }
  }

  // Rows that moved to the front only are told from the others.
  lemma {:induction false} ForwardAhead(prev: seq<Option<nat>>, next: seq<nat>, rows: seq<RowInfo>, r: set<int>,
                                        s: set<int>, candidates: seq<Range>, f: seq<bool>, x: nat)
    requires Setting(prev, next, rows, r, s) && Walks(rows, candidates, r, s, f) && |f| == |rows| && x < |rows| && f[x]
    requires OnlyForward(prev, next, candidates)
    ensures Ahead(OldPositions(rows), x)
    decreases x
  {
    hide Has, Setting, Walks, OnlyForward;
    SettingFacts(prev, next, rows, r, s);
    var ps := OldPositions(rows);
    forall y: nat | y < x && f[y]
      ensures Ahead(ps, y)
    {
      ForwardAhead(prev, next, rows, r, s, candidates, f, y);
    }
    WalksAt(rows, candidates, r, s, f, x);
    if rows[x].shiftedTvIndex == Expected(rows, f[..x]) {
      ExpectedAhead(prev, rows, ps, f, x);
    } else if !Has(candidates, rows[x].rowIndex) {
      forall u | x < u < |ps|
        ensures ps[x] < ps[u]
      {
        CannotSwap(prev, next, candidates, rows[x], rows[u]);
      }
    } else {
      CountedAhead(prev, next, rows, r, s, f, x);
    }
  }

  lemma {:induction false} WalksAt(rows: seq<RowInfo>, candidates: seq<Range>, r: set<int>, s: set<int>, f: seq<bool>,
                                   x: nat)
    requires Walks(rows, candidates, r, s, f) && x < |f|
    ensures f[x] <==> InPlace(rows[x], candidates, RemovedBy(rows, f[..x], r), InsertedBy(rows, f[..x], s),
                              Expected(rows, f[..x]))
  {
  }

  lemma {:induction false} CannotSwap(prev: seq<Option<nat>>, next: seq<nat>, candidates: seq<Range>, row: RowInfo,
                                      later: RowInfo)
    requires OnlyForward(prev, next, candidates) && BothAt(prev, next, row) && BothAt(prev, next, later)
    requires row.tvIndex < later.tvIndex && !Has(candidates, row.rowIndex)
    ensures row.prevTvIndex.value <= later.prevTvIndex.value
  {
    hide Has;
  }

  // ----- Correctness -----

  // The rows kept, by their places in the list.
  ghost function Places(f: seq<bool>): (ks: seq<nat>)
    ensures Rising(ks) && (forall k | 0 <= k < |ks| :: ks[k] < |f| && f[ks[k]])
    ensures forall x: nat | x < |f| && f[x] :: x in ks
  {
    if f == [] then []
    else if f[|f| - 1] then Places(f[..|f| - 1]) + [|f| - 1]
    else Places(f[..|f| - 1])
  }

  // The sets the loop leaves, with the rows that are gone.
  ghost predicate Leaves(prev: seq<Option<nat>>, rows: seq<RowInfo>, f: seq<bool>, r: set<int>, s: set<int>, c: Changes)
    requires |f| <= |rows|
  {
    && (forall y: int :: Has(c.deletions, y) <==>
          (0 <= y < |prev| && prev[y] == None) || y in RemovedBy(rows, f, r))
    && (forall y: int :: Has(c.insertions, y) <==> y in InsertedBy(rows, f, s))
  }

  // Every row in both sequences is taken off one side and put in on the other, or
  // free on both.
  lemma {:induction false} OneOrOther(prev: seq<Option<nat>>, next: seq<nat>, rows: seq<RowInfo>, r: set<int>,
                                      s: set<int>, f: seq<bool>, c: Changes, x: nat)
    requires Setting(prev, next, rows, r, s) && x < |rows| == |f| && Leaves(prev, rows, f, r, s, c)
    ensures Has(c.deletions, rows[x].prevTvIndex.value) <==> !f[x]
    ensures Has(c.insertions, rows[x].tvIndex) <==> !f[x]
  {
    hide Has, Setting, RemovedBy, InsertedBy;
    SettingFacts(prev, next, rows, r, s);
    NotBefore(prev, next, rows, r, s, x);
    RemovedExactly(rows, f, r, x);
    InsertedExactly(rows, f, s, x);
    assert BothAt(prev, next, rows[x]);
  }

  lemma {:induction false} NotBefore(prev: seq<Option<nat>>, next: seq<nat>, rows: seq<RowInfo>, r: set<int>,
                                     s: set<int>, x: nat)
    requires Setting(prev, next, rows, r, s) && x < |rows|
    ensures rows[x].prevTvIndex.Some? && rows[x].prevTvIndex.value !in r && rows[x].tvIndex !in s
  {
    assert BothAt(prev, next, rows[x]);
    assert HasOld(rows, rows[x].prevTvIndex.value) && HasNew(rows, rows[x].tvIndex);
  }

  lemma {:induction false} RemovedExactly(rows: seq<RowInfo>, f: seq<bool>, r: set<int>, x: nat)
    requires x < |rows| == |f| && forall y | 0 <= y < |rows| :: rows[y].prevTvIndex.Some?
    requires forall y, z | 0 <= y < z < |rows| :: OldPositions(rows)[y] != OldPositions(rows)[z]
    requires rows[x].prevTvIndex.value !in r
    ensures rows[x].prevTvIndex.value in RemovedBy(rows, f, r) <==> !f[x]
  {
    var ps := OldPositions(rows);
    forall k | 0 <= k < |f| && rows[k].prevTvIndex.value == rows[x].prevTvIndex.value
      ensures k == x
    {
      assert ps[k] == ps[x];
    }
  }

  lemma {:induction false} InsertedExactly(rows: seq<RowInfo>, f: seq<bool>, s: set<int>, x: nat)
    requires x < |rows| == |f| && forall y, z | 0 <= y < z < |rows| :: rows[y].tvIndex < rows[z].tvIndex
    requires rows[x].tvIndex !in s
    ensures rows[x].tvIndex in InsertedBy(rows, f, s) <==> !f[x]
  {
  }

  lemma {:induction false} PlacePicked(ps: seq<nat>, f: seq<bool>, x: nat)
    requires x < |f| <= |ps|
    ensures f[x] ==> ps[x] in Picked(ps, Places(f))
  {
    hide Places;
    var ks := Places(f);
    if k :| 0 <= k < |ks| && ks[k] == x {
      assert Picked(ps, ks)[k] == ps[x];
    }
  }

  // Kept rows that stay in order are carried over.
  lemma {:induction false} RisingCarries(prev: seq<Option<nat>>, next: seq<nat>, rows: seq<RowInfo>, r: set<int>,
                                         s: set<int>, f: seq<bool>, c: Changes)
    requires Proper(c) && Setting(prev, next, rows, r, s) && |f| == |rows| && Leaves(prev, rows, f, r, s, c)
    requires KeptRise(OldPositions(rows), f)
    ensures CarriesOver(c, prev, next)
  {
    hide Has, Sorted, Setting, Leaves, Places;
    SettingFacts(prev, next, rows, r, s);
    var ks := Places(f);
    var olds, news := Picked(OldPositions(rows), ks), Picked(NewPositions(rows), ks);
    forall k: nat | k < |ks|
      ensures BothAt(prev, next, rows[ks[k]])
    {
    }
    forall m: nat | m < |prev|
      ensures Has(c.deletions, m) <==> m !in olds
    {
      OldFree(prev, next, rows, r, s, f, c, m);
    }
    forall n: nat | n < |next|
      ensures Has(c.insertions, n) <==> n !in news
    {
      NewFree(prev, next, rows, r, s, f, c, n);
    }
    LeavesInside(prev, next, rows, r, s, f, c);
    AlignedCarries(c, prev, next, olds, news);
  }

  lemma {:induction false} LeavesInside(prev: seq<Option<nat>>, next: seq<nat>, rows: seq<RowInfo>, r: set<int>,
                                        s: set<int>, f: seq<bool>, c: Changes)
    requires Setting(prev, next, rows, r, s) && |f| == |rows| && Leaves(prev, rows, f, r, s, c)
    ensures forall m: nat :: Has(c.deletions, m) ==> m < |prev|
    ensures forall n: nat :: Has(c.insertions, n) ==> n < |next|
  {
    hide Has;
    forall x | 0 <= x < |rows|
      ensures BothAt(prev, next, rows[x])
    {
    }
  }

  lemma {:induction false} OldFree(prev: seq<Option<nat>>, next: seq<nat>, rows: seq<RowInfo>, r: set<int>,
                                   s: set<int>, f: seq<bool>, c: Changes, m: nat)
    requires Setting(prev, next, rows, r, s) && |f| == |rows| && Leaves(prev, rows, f, r, s, c) && m < |prev|
    ensures Has(c.deletions, m) <==> m !in Picked(OldPositions(rows), Places(f))
  {
    hide Has, Places;
    SettingFacts(prev, next, rows, r, s);
    var ps, ks := OldPositions(rows), Places(f);
    if m in Picked(ps, ks) {
      var k :| 0 <= k < |ks| && ps[ks[k]] == m;
      OneOrOther(prev, next, rows, r, s, f, c, ks[k]);
    } else if prev[m].Some? && m !in r {
      var x :| 0 <= x < |rows| && rows[x].prevTvIndex.value == m;
      PlacePicked(ps, f, x);
      OneOrOther(prev, next, rows, r, s, f, c, x);
    }
  }

  lemma {:induction false} NewFree(prev: seq<Option<nat>>, next: seq<nat>, rows: seq<RowInfo>, r: set<int>,
                                   s: set<int>, f: seq<bool>, c: Changes, n: nat)
    requires Setting(prev, next, rows, r, s) && |f| == |rows| && Leaves(prev, rows, f, r, s, c) && n < |next|
    ensures Has(c.insertions, n) <==> n !in Picked(NewPositions(rows), Places(f))
  {
    hide Has, Places;
    var qs, ks := NewPositions(rows), Places(f);
    if n in Picked(qs, ks) {
      var k :| 0 <= k < |ks| && qs[ks[k]] == n;
      OneOrOther(prev, next, rows, r, s, f, c, ks[k]);
    } else if n !in s {
      var x :| 0 <= x < |rows| && rows[x].tvIndex == n;
      PlacePicked(qs, f, x);
      OneOrOther(prev, next, rows, r, s, f, c, x);
    }
  }

  // And if no row comes twice, only they are.
  lemma {:induction false} CarriedRise(prev: seq<Option<nat>>, next: seq<nat>, rows: seq<RowInfo>, r: set<int>,
                                       s: set<int>, f: seq<bool>, c: Changes)
    requires Proper(c) && Setting(prev, next, rows, r, s) && |f| == |rows| && Leaves(prev, rows, f, r, s, c)
    requires CarriesOver(c, prev, next) && forall k, l | 0 <= k < l < |next| :: next[k] != next[l]
    ensures KeptRise(OldPositions(rows), f)
  {
    hide Has, Sorted, Setting, Leaves, NewPosition;
    SettingFacts(prev, next, rows, r, s);
    var ps := OldPositions(rows);
    forall x: nat | x < |f| && f[x]
      ensures ps[x] < |prev| && !Has(c.deletions, ps[x]) && NewAt(c, ps[x]) == rows[x].tvIndex
    {
      OneOrOther(prev, next, rows, r, s, f, c, x);
      assert BothAt(prev, next, rows[x]);
      assert next[NewAt(c, ps[x])] == next[rows[x].tvIndex];
    }
    forall x, y | 0 <= x < y < |f| && y < |ps| && f[x] && f[y]
      ensures ps[x] < ps[y]
    {
      if ps[y] < ps[x] {
        KeepsOrder(c, ps[y], ps[x]);
      }
    }
  }

  // The change set for rows in table order is right whenever rows moved to the
  // front only, and if no row comes twice, exactly when the rows the loop keeps
  // stay in order.
  lemma {:induction false} UnsortedCarries(prev: seq<Option<nat>>, next: seq<nat>, rows: seq<RowInfo>, r: set<int>,
                                           s: set<int>, candidates: seq<Range>, f: seq<bool>, c: Changes)
    requires Proper(c) && Setting(prev, next, rows, r, s) && Walks(rows, candidates, r, s, f) && |f| == |rows|
    requires Leaves(prev, rows, f, r, s, c)
    ensures OnlyForward(prev, next, candidates) ==> CarriesOver(c, prev, next)
    ensures OnlyForward(prev, next, candidates) ==>
              forall x | 0 <= x < |f| :: f[x] <==> Ahead(OldPositions(rows), x)
    ensures (forall k, l | 0 <= k < l < |next| :: next[k] != next[l]) ==>
              (CarriesOver(c, prev, next) <==> KeptRise(OldPositions(rows), f))
  {
    hide Has, Sorted, Setting, Leaves, Walks, CarriesOver, OnlyForward, KeptRise;
    SettingFacts(prev, next, rows, r, s);
    if OnlyForward(prev, next, candidates) {
      ForwardRises(prev, next, rows, r, s, candidates, f);
      forall x | 0 <= x < |f|
        ensures f[x] <==> Ahead(OldPositions(rows), x)
      {
        KeptIfAhead(prev, next, rows, r, s, candidates, f, x);
      }
    }
    if KeptRise(OldPositions(rows), f) {
      RisingCarries(prev, next, rows, r, s, f, c);
    }
    if CarriesOver(c, prev, next) && forall k, l | 0 <= k < l < |next| :: next[k] != next[l] {
      CarriedRise(prev, next, rows, r, s, f, c);
    }
  }

  // The loop counts as many rows before the old position of x as there were.
  lemma {:induction false} AheadCounted(prev: seq<Option<nat>>, next: seq<nat>, rows: seq<RowInfo>, r: set<int>,
                                        s: set<int>, f: seq<bool>, x: nat)
    requires Setting(prev, next, rows, r, s) && x < |rows| && x <= |f| <= |rows|
    requires forall y: nat | y < x && f[y] :: Ahead(OldPositions(rows), y)
    requires Ahead(OldPositions(rows), x)
    ensures rows[x].prevTvIndex.Some?
    ensures rows[x].shiftedTvIndex == rows[x].tvIndex - Below(InsertedBy(rows, f[..x], s), rows[x].tvIndex)
                                      + Below(RemovedBy(rows, f[..x], r), rows[x].prevTvIndex.value)
  {
    hide Has, Setting, InsertedBy, RemovedBy, StillThere, KeptSet, Below, Ahead;
    SettingFacts(prev, next, rows, r, s);
    var ps := OldPositions(rows);
    var p := ps[x];
    assert BothAt(prev, next, rows[x]);
    KeptCount(prev, next, rows, r, s, f, x);
    StillCount(prev, p);
    KeptInside(f, x);
    ImageSize(ps, f, x);
    var kept := Image(ps, KeptSet(f, x));
    var gone := set m | m in RemovedBy(rows, f[..x], r) && 0 <= m < p;
    forall n
      ensures n in kept || n in gone <==> n in StillThere(prev, p)
      ensures n in kept ==> n !in gone
    {
      OldPlace(prev, next, rows, r, s, f, x, n);
      OldCovered(prev, next, rows, r, s, f, x, n);
    }
    BelowIs(RemovedBy(rows, f[..x], r), p, gone);
    TwoParts(kept, gone, StillThere(prev, p));
  }

  lemma {:induction false} TwoParts(a: set<int>, b: set<int>, whole: set<int>)
    requires (forall n :: n in a || n in b <==> n in whole) && forall n :: n in a ==> n !in b
    ensures |a| + |b| == |whole|
  {
    var both := a + b;
    forall n | n in whole
      ensures n in both
    {
    }
    forall n | n in both
      ensures n in whole
    {
    }
    forall n | n in a
      ensures n !in b
    {
    }
    assert both == whole;
  }

  lemma {:induction false} OldCovered(prev: seq<Option<nat>>, next: seq<nat>, rows: seq<RowInfo>, r: set<int>,
                                      s: set<int>, f: seq<bool>, x: nat, n: int)
    requires Setting(prev, next, rows, r, s) && x < |rows| && x <= |f| <= |rows|
    requires Ahead(OldPositions(rows), x) && OldPositions(rows)[x] <= |prev|
    ensures var ps := OldPositions(rows);
            && (n in StillThere(prev, ps[x]) ==>
                  n in Image(ps, KeptSet(f, x)) || (n in RemovedBy(rows, f[..x], r) && 0 <= n < ps[x]))
            && (n in Image(ps, KeptSet(f, x)) ==> n !in RemovedBy(rows, f[..x], r))
  {
    hide Has, Setting;
    SettingFacts(prev, next, rows, r, s);
    var ps := OldPositions(rows);
    if n in Image(ps, KeptSet(f, x)) {
      var y :| y in KeptSet(f, x) && ps[y] == n;
      NotBefore(prev, next, rows, r, s, y);
      RemovedNot(rows, f[..x], r, y);
    } else if n in StillThere(prev, ps[x]) && n !in r {
      var k := OldThere(prev, next, rows, r, s, n);
      assert k < x;
      KeptHere(f, x, k);
    }
  }

  lemma {:induction false} KeptHere(f: seq<bool>, x: nat, k: nat)
    requires k < x <= |f|
    ensures (k in KeptSet(f, x) <==> f[k]) && f[..x][k] == f[k]
  {
  }

  lemma {:induction false} RemovedNot(rows: seq<RowInfo>, g: seq<bool>, r: set<int>, y: nat)
    requires |g| <= |rows| && y < |g| && g[y] && forall x | 0 <= x < |rows| :: rows[x].prevTvIndex.Some?
    requires forall x, z | 0 <= x < z < |rows| :: OldPositions(rows)[x] != OldPositions(rows)[z]
    requires rows[y].prevTvIndex.value !in r
    ensures rows[y].prevTvIndex.value !in RemovedBy(rows, g, r)
  {
    var ps := OldPositions(rows);
    forall k | 0 <= k < |g| && rows[k].prevTvIndex.value == rows[y].prevTvIndex.value
      ensures k == y
    {
      assert ps[k] == ps[y];
    }
  }

  lemma {:induction false} OldThere(prev: seq<Option<nat>>, next: seq<nat>, rows: seq<RowInfo>, r: set<int>,
                                    s: set<int>, n: nat) returns (k: nat)
    requires Setting(prev, next, rows, r, s) && n < |prev| && prev[n].Some? && n !in r
    ensures k < |rows| && OldPositions(rows)[k] == n
  {
    hide Kept, BothAt;
    assert HasOld(rows, n);
    k :| k < |rows| && rows[k].prevTvIndex == Some(n);
  }

  // A row is found to have moved exactly if one that is behind it now was before it.
  lemma {:induction false} KeptIfAhead(prev: seq<Option<nat>>, next: seq<nat>, rows: seq<RowInfo>, r: set<int>,
                                       s: set<int>, candidates: seq<Range>, f: seq<bool>, x: nat)
    requires Setting(prev, next, rows, r, s) && Walks(rows, candidates, r, s, f) && |f| == |rows| && x < |rows|
    requires OnlyForward(prev, next, candidates)
    ensures f[x] <==> Ahead(OldPositions(rows), x)
  {
    hide Has, Setting, Walks, OnlyForward, Ahead;
    if f[x] {
      ForwardAhead(prev, next, rows, r, s, candidates, f, x);
    }
    if Ahead(OldPositions(rows), x) {
      forall y: nat | y < x && f[y]
        ensures Ahead(OldPositions(rows), y)
      {
        ForwardAhead(prev, next, rows, r, s, candidates, f, y);
      }
      AheadCounted(prev, next, rows, r, s, f, x);
      WalksAt(rows, candidates, r, s, f, x);
    }
  }

  lemma {:induction false} ForwardRises(prev: seq<Option<nat>>, next: seq<nat>, rows: seq<RowInfo>, r: set<int>,
                                        s: set<int>, candidates: seq<Range>, f: seq<bool>)
    requires Setting(prev, next, rows, r, s) && Walks(rows, candidates, r, s, f) && |f| == |rows|
    requires OnlyForward(prev, next, candidates)
    ensures KeptRise(OldPositions(rows), f)
  {
    hide Has, Setting, Walks, OnlyForward;
    SettingFacts(prev, next, rows, r, s);
    var ps := OldPositions(rows);
    forall x, y | 0 <= x < y < |f| && y < |ps| && f[x] && f[y]
      ensures ps[x] < ps[y]
    {
      ForwardAhead(prev, next, rows, r, s, candidates, f, x);
    }
  }

  // ----- The moves -----

  lemma {:induction false} MovesFound(prev: seq<Option<nat>>, next: seq<nat>, rows: seq<RowInfo>, g: seq<bool>,
                                      mv: Move)
    requires |g| <= |rows| && (forall x | 0 <= x < |rows| :: BothAt(prev, next, rows[x]))
    requires mv in MovesBy(rows, g)
    ensures exists x :: 0 <= x < |g| && !g[x] && rows[x].prevTvIndex == Some(mv.from) && rows[x].tvIndex == mv.to
    decreases |g|
  {
    var h := g[..|g| - 1];
    if mv in MovesBy(rows, h) {
      MovesFound(prev, next, rows, h, mv);
      var x :| 0 <= x < |h| && !h[x] && rows[x].prevTvIndex == Some(mv.from) && rows[x].tvIndex == mv.to;
      assert !g[x];
    } else {
      assert !g[|g| - 1] && mv == Move(rows[|g| - 1].prevTvIndex.value, rows[|g| - 1].tvIndex);
    }
  }

  // The moves are of rows deleted and inserted, no row has two, and each is of
  // the same row on both sides.
  lemma {:induction false} MovesRight(prev: seq<Option<nat>>, next: seq<nat>, rows: seq<RowInfo>, r: set<int>,
                                      s: set<int>, f: seq<bool>, c: Changes)
    requires Setting(prev, next, rows, r, s) && |f| == |rows| && Leaves(prev, rows, f, r, s, c)
    ensures MovesOk(c, MovesBy(rows, f)) && MovesCarry(prev, next, MovesBy(rows, f))
  {
    hide Has, Setting, Leaves, MovesBy;
    SettingFacts(prev, next, rows, r, s);
    var ms := MovesBy(rows, f);
    forall mv | mv in ms
      ensures Has(c.deletions, mv.from) && Has(c.insertions, mv.to)
      ensures mv.from < |prev| && mv.to < |next| && prev[mv.from] == Some(next[mv.to])
    {
      MovesFound(prev, next, rows, f, mv);
      var x :| 0 <= x < |f| && !f[x] && rows[x].prevTvIndex == Some(mv.from) && rows[x].tvIndex == mv.to;
      OneOrOther(prev, next, rows, r, s, f, c, x);
      assert BothAt(prev, next, rows[x]);
    }
    MovesApart(prev, next, rows, f);
  }

  ghost predicate MovesCarry(prev: seq<Option<nat>>, next: seq<nat>, ms: seq<Move>) {
    forall mv | mv in ms :: mv.from < |prev| && mv.to < |next| && prev[mv.from] == Some(next[mv.to])
  }

  lemma {:induction false} MovesApart(prev: seq<Option<nat>>, next: seq<nat>, rows: seq<RowInfo>, g: seq<bool>)
    requires |g| <= |rows| && (forall x | 0 <= x < |rows| :: BothAt(prev, next, rows[x]))
    requires forall x, y | 0 <= x < y < |rows| :: OldPositions(rows)[x] != OldPositions(rows)[y]
    requires forall x, y | 0 <= x < y < |rows| :: rows[x].tvIndex < rows[y].tvIndex
    ensures var ms := MovesBy(rows, g);
            forall i, j | 0 <= i < j < |ms| :: ms[i].from != ms[j].from && ms[i].to != ms[j].to
    decreases |g|
  {
    if g != [] {
      var h, last := g[..|g| - 1], rows[|g| - 1];
      var ms := MovesBy(rows, h);
      MovesApart(prev, next, rows, h);
      assert BothAt(prev, next, last);
      forall i | 0 <= i < |ms|
        ensures ms[i].from != last.prevTvIndex.value && ms[i].to != last.tvIndex
      {
        var mv := ms[i];
        MovesFound(prev, next, rows, h, mv);
        var x :| 0 <= x < |h| && rows[x].prevTvIndex == Some(mv.from) && rows[x].tvIndex == mv.to;
        assert OldPositions(rows)[x] == mv.from && OldPositions(rows)[|g| - 1] == last.prevTvIndex.value;
      }
    }
  }
}
