// Positions of one set seen from another: the arithmetic behind the merging
// edits of IndexSet, and what one edit undoes of another.
module IndexMerge {
  import opened Ranges
  import opened RangeEdits
  import opened Chunks

  // ----- Two representations with the same members are the same -----

  lemma {:induction false} SortedUnique(a: seq<Range>, b: seq<Range>)
    requires Sorted(a) && Sorted(b) && forall y: int :: Has(a, y) <==> Has(b, y)
    ensures a == b
  {
    hide Has;
    if a == [] || b == [] {
      NoneHas(if a != [] then a[0].first else if b != [] then b[0].first else 0);
      if a != [] {
        HasHead(a, a[0].first);
      }
      if b != [] {
        HasHead(b, b[0].first);
      }
    } else {
      SameHead(a, b);
      SortedTail(a);
      SortedTail(b);
      forall y: int
        ensures Has(a[1..], y) <==> Has(b[1..], y)
      {
        HasHead(a, y);
        HasHead(b, y);
        if y < a[0].second {
          HeadDisjoint(a, y);
          HeadDisjoint(b, y);
        }
      }
      SortedUnique(a[1..], b[1..]);
    }
  }

  lemma {:induction false} SameHead(a: seq<Range>, b: seq<Range>)
    requires Sorted(a) && Sorted(b) && a != [] && b != [] && forall y: int :: Has(a, y) <==> Has(b, y)
    ensures a[0] == b[0]
  {
    hide Has;
    HeadBounds(a, b[0].first);
    HeadBounds(b, a[0].first);
    HeadBounds(a, a[0].first);
    HeadBounds(b, b[0].first);
    HeadBounds(a, b[0].second);
    HeadBounds(b, b[0].second);
    HeadBounds(a, a[0].second);
    HeadBounds(b, a[0].second);
    HeadBounds(a, b[0].second - 1);
    HeadBounds(b, a[0].second - 1);
  }

  // Nothing lies before the first range, and its end is free.
  lemma {:induction false} HeadBounds(rs: seq<Range>, y: int)
    requires Sorted(rs) && rs != []
    ensures Has(rs, y) ==> rs[0].first <= y
    ensures rs[0].first <= y < rs[0].second ==> Has(rs, y)
    ensures y == rs[0].second ==> !Has(rs, y)
  {
    hide Has;
    HasHead(rs, y);
    SortedTail(rs);
    if y <= rs[0].second {
      TailBeyond(rs, y);
    } else {
      OrderedEnds(rs, 0, |rs| - 1);
    }
  }

  lemma {:induction false} TailBeyond(rs: seq<Range>, y: int)
    requires Sorted(rs) && rs != [] && y <= rs[0].second
    ensures !Has(rs[1..], y)
  {
    SortedTail(rs);
  }

  // Inserting positions and erasing the same positions restores the set, range
  // by range.
  lemma {:induction false} EraseUndoesInsert(rs: seq<Range>, positions: seq<Range>, inserted: seq<Range>,
                                             erased: seq<Range>)
    requires Sorted(rs) && Sorted(positions) && Sorted(inserted) && Sorted(erased)
    requires InsertedAt(rs, positions, inserted) && ErasedAt(inserted, positions, erased)
    ensures erased == rs
  {
    hide Has, Sorted;
    forall y: int
      ensures Has(erased, y) <==> Has(rs, y)
    {
      HasIsNat(erased, y);
      HasIsNat(rs, y);
      if y >= 0 {
        ShiftExact(positions, y);
      }
    }
    SortedUnique(erased, rs);
  }

  // The same for one position: whether or not it became a member itself,
  // erasing it again restores the set.
  lemma {:induction false} EraseUndoesInsertOne(rs: seq<Range>, x: nat, inserted: seq<Range>, erased: seq<Range>)
    requires Sorted(rs) && Sorted(inserted) && Sorted(erased)
    requires forall y: int | y != x :: Has(inserted, y) <==> Opened(rs, x, 1, y)
    requires forall y: int :: Has(erased, y) <==> Closed(inserted, x, y)
    ensures erased == rs
  {
    hide Has, Sorted;
    SortedUnique(erased, rs);
  }

  lemma {:induction false} HasIsNat(rs: seq<Range>, y: int)
    ensures Has(rs, y) ==> y >= 0
  {
  }

  // The members of rs at the indices that positions leaves free, and the
  // positions themselves.
  ghost predicate InsertedAt(rs: seq<Range>, positions: seq<Range>, out: seq<Range>) {
    forall y: nat :: Has(out, y) <==> Has(positions, y) || Has(rs, Unshifted(positions, y))
  }

  // The members of rs outside positions, with the positions closed up.
  ghost predicate ErasedAt(rs: seq<Range>, positions: seq<Range>, out: seq<Range>) {
    forall y: nat :: Has(out, y) <==> Has(rs, Shifted(positions, y))
  }

  // ----- Counting by position in the ascending list of members -----

  ghost predicate Ascending(s: seq<nat>) {
    forall i, j | 0 <= i < j < |s| :: s[i] < s[j]
  }

  ghost function Elements(s: seq<nat>): (e: set<int>)
    ensures forall x: int :: x in e <==> x >= 0 && x in s
  {
    if s == [] then {} else Elements(s[..|s| - 1]) + {s[|s| - 1]}
  }

  lemma {:induction false} ElementsSize(s: seq<nat>)
    requires Ascending(s)
    ensures |Elements(s)| == |s|
  {
    if s != [] {
      ElementsSize(s[..|s| - 1]);
      assert s[|s| - 1] !in s[..|s| - 1];
    }
  }

  // If below x lie exactly the members listed in c, there are |c| of them.
  lemma {:induction false} CountListed(rs: seq<Range>, c: seq<nat>, r: seq<nat>, x: int)
    requires Sorted(rs) && Indices(rs) == c + r
    requires (forall i | 0 <= i < |c| :: c[i] < x) && (forall i | 0 <= i < |r| :: x <= r[i])
    ensures CountIn(rs, 0, x) == |c|
  {
    hide Has, Sorted, Indices, CountIn;
    IndicesExact(rs);
    CountIsCardinality(rs, 0, x);
    var all := c + r;
    assert Ascending(c) by {
      forall i, j | 0 <= i < j < |c|
        ensures c[i] < c[j]
      {
        assert all[i] == c[i] && all[j] == c[j];
      }
    }
    ElementsSize(c);
    forall y: int
      ensures y in Members(rs, 0, x) <==> y in Elements(c)
    {
      HasIsNat(rs, y);
      if y >= 0 {
        var n: nat := y;
        assert n in all <==> n in c || n in r;
      }
    }
    assert Members(rs, 0, x) == Elements(c);
  }

  // A member of the rest that is at x is a member; nothing else at x is.
  lemma {:induction false} ListedHas(rs: seq<Range>, c: seq<nat>, r: seq<nat>, x: nat)
    requires Sorted(rs) && Indices(rs) == c + r
    ensures Has(rs, x) <==> x in c || x in r
  {
    hide Has, Sorted, Indices;
    IndicesExact(rs);
    assert x in c + r <==> x in c || x in r;
  }

  lemma {:induction false} ListedOrder(rs: seq<Range>, c: seq<nat>, r: seq<nat>)
    requires Sorted(rs) && Indices(rs) == c + r
    ensures Ascending(c) && Ascending(r)
    ensures forall i, j | 0 <= i < |c| && 0 <= j < |r| :: c[i] < r[j]
  {
    hide Has, Sorted, Indices;
    IndicesExact(rs);
    var all := c + r;
    forall i, j | 0 <= i < j < |c|
      ensures c[i] < c[j]
    {
      assert all[i] == c[i] && all[j] == c[j];
    }
    forall i, j | 0 <= i < j < |r|
      ensures r[i] < r[j]
    {
      assert all[|c| + i] == r[i] && all[|c| + j] == r[j];
    }
    forall i, j | 0 <= i < |c| && 0 <= j < |r|
      ensures c[i] < r[j]
    {
      assert all[i] == c[i] && all[|c| + j] == r[j];
    }
  }

  // ----- erase_at(positions): the merge of two ascending lists -----

  // ca and cb are the members already passed, ra and rb those to come.
  ghost predicate Erasing(rs: seq<Range>, positions: seq<Range>, ca: seq<nat>, ra: seq<nat>, cb: seq<nat>, rb: seq<nat>,
                          built: seq<Range>) {
    && Indices(rs) == ca + ra && Indices(positions) == cb + rb && Sorted(built)
    && (forall i, j | 0 <= i < |cb| && 0 <= j < |ra| :: cb[i] < ra[j])
    && (forall y: nat :: Has(built, y) <==> Shifted(positions, y) in ca)
  }

  lemma {:induction false} EraseStart(rs: seq<Range>, positions: seq<Range>)
    ensures Erasing(rs, positions, [], Indices(rs), [], Indices(positions), [])
  {
  }

  // The next member lies before the next position: where it moves to.
  lemma {:induction false} ErasePlace(rs: seq<Range>, positions: seq<Range>, ca: seq<nat>, ra: seq<nat>, cb: seq<nat>,
                                      rb: seq<nat>, built: seq<Range>)
    requires Sorted(rs) && Sorted(positions) && Erasing(rs, positions, ca, ra, cb, rb, built)
    requires ra != [] && (rb != [] ==> ra[0] < rb[0])
    ensures !Has(positions, ra[0]) && ra[0] - |cb| == Unshifted(positions, ra[0]) >= 0
    ensures built != [] ==> built[|built| - 1].second <= ra[0] - |cb|
  {
    hide Indices, Has, Sorted, CountIn;
    var a := ra[0];
    ListedOrder(rs, ca, ra);
    ListedOrder(positions, cb, rb);
    CountListed(positions, cb, rb, a);
    ListedHas(positions, cb, rb, a);
    UnshiftMonotone(positions, 0, a);
    if built != [] {
      var y := built[|built| - 1].second - 1;
      LastHas(built);
      var x := Shifted(positions, y);
      assert x in ca;
      ShiftExact(positions, y);
      UnshiftMonotone(positions, x, a);
    }
  }

  lemma {:induction false} LastHas(rs: seq<Range>)
    requires Sorted(rs) && rs != []
    ensures rs[|rs| - 1].second >= 1 && Has(rs, rs[|rs| - 1].second - 1)
  {
  }

  lemma {:induction false} ErasePush(rs: seq<Range>, positions: seq<Range>, ca: seq<nat>, ra: seq<nat>, cb: seq<nat>,
                                     rb: seq<nat>, built: seq<Range>, built': seq<Range>)
    requires Sorted(rs) && Sorted(positions) && Erasing(rs, positions, ca, ra, cb, rb, built)
    requires ra != [] && !Has(positions, ra[0]) && ra[0] - |cb| == Unshifted(positions, ra[0])
    requires Sorted(built') && forall y: int :: Has(built', y) <==> Has(built, y) || y == ra[0] - |cb|
    ensures Erasing(rs, positions, ca + [ra[0]], ra[1..], cb, rb, built')
  {
    hide Indices, Has, Sorted, CountIn, Shifted;
    assert ca + ra == ca + [ra[0]] + ra[1..];
    forall y: nat
      ensures Has(built', y) <==> Shifted(positions, y) in ca + [ra[0]]
    {
      ShiftExact(positions, y);
      ShiftInverse(positions, ra[0]);
    }
  }

  lemma {:induction false} EraseSkip(rs: seq<Range>, positions: seq<Range>, ca: seq<nat>, ra: seq<nat>, cb: seq<nat>,
                                     rb: seq<nat>, built: seq<Range>)
    requires Sorted(rs) && Sorted(positions) && Erasing(rs, positions, ca, ra, cb, rb, built)
    requires ra != [] && rb != [] && ra[0] == rb[0]
    ensures Erasing(rs, positions, ca + [ra[0]], ra[1..], cb + [rb[0]], rb[1..], built)
  {
    hide Indices, Has, Sorted, CountIn, Shifted;
    assert ca + ra == ca + [ra[0]] + ra[1..];
    assert cb + rb == cb + [rb[0]] + rb[1..];
    ListedOrder(rs, ca, ra);
    ListedHas(positions, cb, rb, ra[0]);
    forall y: nat
      ensures Has(built, y) <==> Shifted(positions, y) in ca + [ra[0]]
    {
      ShiftExact(positions, y);
    }
  }

  lemma {:induction false} EraseDrop(rs: seq<Range>, positions: seq<Range>, ca: seq<nat>, ra: seq<nat>, cb: seq<nat>,
                                     rb: seq<nat>, built: seq<Range>)
    requires Sorted(rs) && Erasing(rs, positions, ca, ra, cb, rb, built)
    requires ra != [] && rb != [] && rb[0] < ra[0]
    ensures Erasing(rs, positions, ca, ra, cb + [rb[0]], rb[1..], built)
  {
    hide Indices, Has, Sorted, CountIn, Shifted;
    ListedOrder(rs, ca, ra);
    assert cb + rb == cb + [rb[0]] + rb[1..];
  }

  lemma {:induction false} EraseEnd(rs: seq<Range>, positions: seq<Range>, ca: seq<nat>, cb: seq<nat>, rb: seq<nat>,
                                    built: seq<Range>)
    requires Sorted(rs) && Sorted(positions) && Erasing(rs, positions, ca, [], cb, rb, built)
    ensures ErasedAt(rs, positions, built)
  {
    hide Indices, Has, Sorted, CountIn, Shifted;
    forall y: nat
      ensures Has(built, y) <==> Has(rs, Shifted(positions, y))
    {
      ShiftExact(positions, y);
      ListedHas(rs, ca, [], Shifted(positions, y));
    }
  }

  // ----- insert_at(positions) -----

  ghost predicate Inserting(rs: seq<Range>, positions: seq<Range>, ca: seq<nat>, ra: seq<nat>, cb: seq<nat>,
                            rb: seq<nat>, built: seq<Range>) {
    && Indices(rs) == ca + ra && Indices(positions) == cb + rb
    && (forall i, j | 0 <= i < |cb| && 0 <= j < |ra| :: cb[i] < ra[j] + |cb|)
    && (forall y: nat :: Has(built, y) <==> y in cb || (!Has(positions, y) && Unshifted(positions, y) in ca))
    && (built != [] ==> forall j | 0 <= j < |ra| :: built[|built| - 1].second <= ra[j] + |cb|)
    && (built != [] ==> forall j | 0 <= j < |rb| :: built[|built| - 1].second <= rb[j])
  }

  lemma {:induction false} InsertStart(rs: seq<Range>, positions: seq<Range>)
    ensures Inserting(rs, positions, [], Indices(rs), [], Indices(positions), [])
  {
  }

  lemma {:induction false} InsertBound(rs: seq<Range>, positions: seq<Range>, ca: seq<nat>, ra: seq<nat>, cb: seq<nat>,
                                       rb: seq<nat>, built: seq<Range>)
    requires Inserting(rs, positions, ca, ra, cb, rb, built)
    ensures built != [] && ra != [] ==> built[|built| - 1].second <= ra[0] + |cb|
    ensures built != [] && rb != [] ==> built[|built| - 1].second <= rb[0]
  {
  }

  lemma {:induction false} InsertNothing(rs: seq<Range>, positions: seq<Range>)
    requires Sorted(rs) && Sorted(positions)
    ensures positions == [] ==> InsertedAt(rs, positions, rs)
    ensures rs == [] ==> InsertedAt(rs, positions, positions)
  {
    hide Has;
    forall y: int
      ensures !Has([], y)
    {
      NoneHas(y);
    }
  }

  lemma {:induction false} EraseNothing(rs: seq<Range>, positions: seq<Range>)
    requires rs == [] || positions == []
    ensures ErasedAt(rs, positions, rs)
  {
  }

  // An old member moves to the place where as many free indices lie below.
  lemma {:induction false} InsertOld(rs: seq<Range>, positions: seq<Range>, ca: seq<nat>, ra: seq<nat>, cb: seq<nat>,
                                     rb: seq<nat>, built: seq<Range>, built': seq<Range>)
    requires Sorted(rs) && Sorted(positions) && Inserting(rs, positions, ca, ra, cb, rb, built)
    requires ra != [] && (rb != [] ==> ra[0] + |cb| < rb[0])
    requires built' != [] && built'[|built'| - 1].second == ra[0] + |cb| + 1
    requires forall y: int :: Has(built', y) <==> Has(built, y) || y == ra[0] + |cb|
    ensures Inserting(rs, positions, ca + [ra[0]], ra[1..], cb, rb, built')
  {
    hide Indices, Has, Sorted, CountIn, Shifted;
    var a, x := ra[0], ra[0] + |cb|;
    ListedOrder(rs, ca, ra);
    ListedOrder(positions, cb, rb);
    CountListed(positions, cb, rb, x);
    ListedHas(positions, cb, rb, x);
    ShiftInverse(positions, x);
    assert ca + ra == ca + [a] + ra[1..];
    forall y: nat
      ensures Has(built', y) <==> y in cb || (!Has(positions, y) && Unshifted(positions, y) in ca + [a])
    {
      if !Has(positions, y) {
        ShiftInverse(positions, y);
      }
    }
  }

  lemma {:induction false} InsertNew(rs: seq<Range>, positions: seq<Range>, ca: seq<nat>, ra: seq<nat>, cb: seq<nat>,
                                     rb: seq<nat>, built: seq<Range>, built': seq<Range>)
    requires Sorted(rs) && Sorted(positions) && Inserting(rs, positions, ca, ra, cb, rb, built)
    requires rb != [] && (ra != [] ==> rb[0] <= ra[0] + |cb|)
    requires built' != [] && built'[|built'| - 1].second == rb[0] + 1
    requires forall y: int :: Has(built', y) <==> Has(built, y) || y == rb[0]
    ensures Inserting(rs, positions, ca, ra, cb + [rb[0]], rb[1..], built')
  {
    hide Indices, Has, Sorted, CountIn, Shifted;
    ListedOrder(rs, ca, ra);
    ListedOrder(positions, cb, rb);
    assert cb + rb == cb + [rb[0]] + rb[1..];
  }

  lemma {:induction false} InsertEnd(rs: seq<Range>, positions: seq<Range>, ca: seq<nat>, cb: seq<nat>,
                                     built: seq<Range>)
    requires Sorted(rs) && Sorted(positions) && Inserting(rs, positions, ca, [], cb, [], built)
    ensures InsertedAt(rs, positions, built)
  {
    hide Indices, Has, Sorted, CountIn, Shifted;
    forall y: nat
      ensures Has(built, y) <==> Has(positions, y) || Has(rs, Unshifted(positions, y))
    {
      UnshiftMonotone(positions, 0, y);
      ListedHas(positions, cb, [], y);
      ListedHas(rs, ca, [], Unshifted(positions, y));
    }
  }

  // ----- shift_for_insert_at(positions): the same without the positions -----

  // The members of rs at the indices that positions leaves free.
  ghost predicate RoomMade(rs: seq<Range>, positions: seq<Range>, out: seq<Range>) {
    forall y: nat :: Has(out, y) <==> !Has(positions, y) && Has(rs, Unshifted(positions, y))
  }

  ghost predicate MakingRoom(rs: seq<Range>, positions: seq<Range>, ca: seq<nat>, ra: seq<nat>, cb: seq<nat>,
                             rb: seq<nat>, built: seq<Range>) {
    && Indices(rs) == ca + ra && Indices(positions) == cb + rb
    && (forall i, j | 0 <= i < |cb| && 0 <= j < |ra| :: cb[i] < ra[j] + |cb|)
    && (forall y: nat :: Has(built, y) <==> !Has(positions, y) && Unshifted(positions, y) in ca)
    && (built != [] ==> forall j | 0 <= j < |ra| :: built[|built| - 1].second <= ra[j] + |cb|)
  }

  lemma {:induction false} RoomStart(rs: seq<Range>, positions: seq<Range>)
    ensures MakingRoom(rs, positions, [], Indices(rs), [], Indices(positions), [])
  {
  }

  lemma {:induction false} RoomBound(rs: seq<Range>, positions: seq<Range>, ca: seq<nat>, ra: seq<nat>, cb: seq<nat>,
                                     rb: seq<nat>, built: seq<Range>)
    requires MakingRoom(rs, positions, ca, ra, cb, rb, built)
    ensures built != [] && ra != [] ==> built[|built| - 1].second <= ra[0] + |cb|
  {
  }

  lemma {:induction false} RoomOld(rs: seq<Range>, positions: seq<Range>, ca: seq<nat>, ra: seq<nat>, cb: seq<nat>,
                                   rb: seq<nat>, built: seq<Range>, built': seq<Range>)
    requires Sorted(rs) && Sorted(positions) && MakingRoom(rs, positions, ca, ra, cb, rb, built)
    requires ra != [] && (rb != [] ==> ra[0] + |cb| < rb[0])
    requires built' != [] && built'[|built'| - 1].second == ra[0] + |cb| + 1
    requires forall y: int :: Has(built', y) <==> Has(built, y) || y == ra[0] + |cb|
    ensures MakingRoom(rs, positions, ca + [ra[0]], ra[1..], cb, rb, built')
  {
    hide Indices, Has, Sorted, CountIn, Shifted;
    var a, x := ra[0], ra[0] + |cb|;
    ListedOrder(rs, ca, ra);
    ListedOrder(positions, cb, rb);
    CountListed(positions, cb, rb, x);
    ListedHas(positions, cb, rb, x);
    ShiftInverse(positions, x);
    assert ca + ra == ca + [a] + ra[1..];
    forall y: nat
      ensures Has(built', y) <==> !Has(positions, y) && Unshifted(positions, y) in ca + [a]
    {
      if !Has(positions, y) {
        ShiftInverse(positions, y);
      }
    }
  }

  lemma {:induction false} RoomSkip(rs: seq<Range>, positions: seq<Range>, ca: seq<nat>, ra: seq<nat>, cb: seq<nat>,
                                    rb: seq<nat>, built: seq<Range>)
    requires Sorted(rs) && MakingRoom(rs, positions, ca, ra, cb, rb, built)
    requires ra != [] && rb != [] && rb[0] <= ra[0] + |cb|
    ensures MakingRoom(rs, positions, ca, ra, cb + [rb[0]], rb[1..], built)
  {
    hide Indices, Has, Sorted, CountIn, Shifted;
    ListedOrder(rs, ca, ra);
    assert cb + rb == cb + [rb[0]] + rb[1..];
  }

  lemma {:induction false} RoomEnd(rs: seq<Range>, positions: seq<Range>, ca: seq<nat>, cb: seq<nat>, rb: seq<nat>,
                                   built: seq<Range>)
    requires Sorted(rs) && Sorted(positions) && MakingRoom(rs, positions, ca, [], cb, rb, built)
    ensures RoomMade(rs, positions, built)
  {
    hide Indices, Has, Sorted, CountIn, Shifted;
    forall y: nat
      ensures Has(built, y) <==> !Has(positions, y) && Has(rs, Unshifted(positions, y))
    {
      UnshiftMonotone(positions, 0, y);
      ListedHas(rs, ca, [], Unshifted(positions, y));
    }
  }

  // Positions behind all members move nothing.
  lemma {:induction false} RoomNothing(rs: seq<Range>, positions: seq<Range>)
    requires Sorted(rs) && Sorted(positions)
    requires rs != [] && positions != [] ==> rs[|rs| - 1].second <= positions[0].first
    ensures RoomMade(rs, positions, rs)
  {
    hide Has, CountIn;
    forall y: nat
      ensures Has(rs, y) <==> !Has(positions, y) && Has(rs, Unshifted(positions, y))
    {
      if rs == [] || positions == [] {
        NoneHas(y);
        NoneHas(Unshifted(positions, y));
        NothingToCount(y);
      } else {
        RoomBehind(rs, positions, y);
      }
    }
  }

  lemma {:induction false} NothingToCount(y: int)
    ensures Unshifted([], y) == y
  {
  }

  lemma {:induction false} RoomBehind(rs: seq<Range>, positions: seq<Range>, y: nat)
    requires Sorted(rs) && Sorted(positions) && rs != [] && positions != [] && rs[|rs| - 1].second <= positions[0].first
    ensures Has(rs, y) <==> !Has(positions, y) && Has(rs, Unshifted(positions, y))
  {
    hide Has, CountIn;
    var start := positions[0].first;
    BeforeFirst(positions, y);
    BeforeFirst(positions, start);
    UpToLast(rs, y);
    UpToLast(rs, Unshifted(positions, y));
    if y >= start {
      UnshiftMonotone(positions, start, y);
    }
  }

  // Below the first range nothing is a member and nothing is counted.
  lemma {:induction false} BeforeFirst(rs: seq<Range>, y: nat)
    requires Sorted(rs) && rs != []
    ensures y < rs[0].first ==> !Has(rs, y)
    ensures y <= rs[0].first ==> Unshifted(rs, y) == y
  {
    forall k | 0 <= k < |rs|
      ensures rs[0].first <= rs[k].first
    {
      OrderedEnds(rs, 0, k);
    }
    if y <= rs[0].first {
      CountNone(rs, 0, y);
    }
  }

  lemma {:induction false} UpToLast(rs: seq<Range>, y: int)
    requires Sorted(rs) && rs != []
    ensures Has(rs, y) ==> y < rs[|rs| - 1].second
  {
    forall k | 0 <= k < |rs|
      ensures rs[k].second <= rs[|rs| - 1].second
    {
      OrderedEnds(rs, k, |rs| - 1);
    }
  }
}
