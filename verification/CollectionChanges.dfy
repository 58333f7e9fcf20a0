// Change sets made of deletions (old positions), insertions and modifications
// (new positions), and what merging two of them means for the positions of the
// elements that stay in the order they were in.
module CollectionChanges {
  import opened Ranges
  import opened RangeEdits
  import opened Chunks
  import opened ShiftedAdd
  import opened IndexMerge
  import opened IndexSets

  // The three sets of a change set, as ranges.
  datatype Changes = Changes(deletions: seq<Range>, insertions: seq<Range>, modifications: seq<Range>)

  ghost predicate Proper(c: Changes) {
    Sorted(c.deletions) && Sorted(c.insertions) && Sorted(c.modifications)
  }

  // Where an element that survives the changes goes.
  function NewAt(c: Changes, m: int): int {
    NewPosition(c.deletions, c.insertions, m)
  }

  // Where an element that was not inserted comes from.
  function OldAt(c: Changes, n: int): int {
    NewPosition(c.insertions, c.deletions, n)
  }

  // c has the deletions, insertions and modifications of a followed by b.
  ghost predicate Merged(a: Changes, b: Changes, c: Changes) {
    && (forall m: nat :: Has(c.deletions, m) <==>
       Has(a.deletions, m) || ShiftedInto(a.deletions, a.insertions, b.deletions, m))
    && (forall n: nat :: Has(c.insertions, n) <==> Has(b.insertions, n) || Has(a.insertions, OldAt(b, n)))
    && (forall n: nat :: Has(c.modifications, n) <==>
          Has(b.modifications, n) || (!Has(b.insertions, n) && Has(a.modifications, OldAt(b, n))))
  }

  // ----- One change set -----

  // NewAt and OldAt are inverse, strictly increasing bijections between the
  // survivors and the elements that were not inserted.
  lemma {:induction false} Survivor(c: Changes, m: int)
    requires Proper(c) && m >= 0 && !Has(c.deletions, m)
    ensures NewAt(c, m) >= 0 && !Has(c.insertions, NewAt(c, m)) && OldAt(c, NewAt(c, m)) == m
  {
    hide Has, Sorted, CountIn, Shifted;
    NewPositionBijective(c.deletions, c.insertions);
    UnshiftMonotone(c.deletions, 0, m);
    ShiftExact(c.insertions, Unshifted(c.deletions, m));
    ShiftInverse(c.deletions, m);
  }

  lemma {:induction false} Origin(c: Changes, n: int)
    requires Proper(c) && n >= 0 && !Has(c.insertions, n)
    ensures OldAt(c, n) >= 0 && !Has(c.deletions, OldAt(c, n)) && NewAt(c, OldAt(c, n)) == n
  {
    Survivor(Changes(c.insertions, c.deletions, c.modifications), n);
  }

  lemma {:induction false} KeepsOrder(c: Changes, m: int, n: int)
    requires Proper(c) && 0 <= m < n && !Has(c.deletions, m) && !Has(c.deletions, n)
    ensures NewAt(c, m) < NewAt(c, n)
  {
    hide Has, Sorted, CountIn, Shifted;
    NewPositionBijective(c.deletions, c.insertions);
  }

  // ----- Merging is composition -----

  // An element survives the merged changes exactly if it survives the first and
  // then, where it is by then, the second.
  lemma {:induction false} MergedSurvivor(a: Changes, b: Changes, c: Changes, m: int)
    requires Proper(a) && Proper(b) && Proper(c) && Merged(a, b, c) && m >= 0
    ensures !Has(c.deletions, m) <==> !Has(a.deletions, m) && !Has(b.deletions, NewAt(a, m))
  {
    hide Has, Sorted, CountIn, Shifted;
    var n: nat := m;
    assert Has(c.deletions, n) <==> Has(a.deletions, n) || ShiftedInto(a.deletions, a.insertions, b.deletions, n);
  }

  // Both runs of positions, one behind the other.
  function Through(a: Changes, b: Changes, m: int): int {
    NewAt(b, NewAt(a, m))
  }

  lemma {:induction false} ThroughKept(a: Changes, b: Changes, c: Changes, m: int)
    requires Proper(a) && Proper(b) && Proper(c) && Merged(a, b, c) && m >= 0 && !Has(c.deletions, m)
    ensures Through(a, b, m) >= 0 && !Has(c.insertions, Through(a, b, m))
  {
    hide Has, Sorted, NewPosition;
    MergedSurvivor(a, b, c, m);
    Survivor(a, m);
    Survivor(b, NewAt(a, m));
    var n: nat := Through(a, b, m);
    assert Has(c.insertions, n) <==> Has(b.insertions, n) || Has(a.insertions, OldAt(b, n));
  }

  lemma {:induction false} ThroughOrder(a: Changes, b: Changes, c: Changes, m: int, n: int)
    requires Proper(a) && Proper(b) && Proper(c) && Merged(a, b, c)
    requires 0 <= m < n && !Has(c.deletions, m) && !Has(c.deletions, n)
    ensures Through(a, b, m) < Through(a, b, n)
  {
    hide Has, Sorted, NewPosition, Merged;
    MergedSurvivor(a, b, c, m);
    MergedSurvivor(a, b, c, n);
    KeepsOrder(a, m, n);
    Survivor(a, m);
    KeepsOrder(b, NewAt(a, m), NewAt(a, n));
  }

  // What the merged changes did not insert came through both.
  lemma {:induction false} ThroughOnto(a: Changes, b: Changes, c: Changes, n: int)
    requires Proper(a) && Proper(b) && Proper(c) && Merged(a, b, c) && n >= 0 && !Has(c.insertions, n)
    ensures var m := OldAt(a, OldAt(b, n)); m >= 0 && !Has(c.deletions, m) && Through(a, b, m) == n
  {
    hide Has, Sorted, NewPosition;
    var k: nat := n;
    assert Has(c.insertions, k) <==> Has(b.insertions, k) || Has(a.insertions, OldAt(b, k));
    Origin(b, n);
    Origin(a, OldAt(b, n));
    MergedSurvivor(a, b, c, OldAt(a, OldAt(b, n)));
  }

  // The k-th survivor goes to the k-th place that is not an insertion.
  lemma {:induction false} SameRank(a: Changes, b: Changes, c: Changes, k: nat)
    requires Proper(a) && Proper(b) && Proper(c) && Merged(a, b, c)
    ensures Through(a, b, Shifted(c.deletions, k)) == Shifted(c.insertions, k)
    decreases k, 1
  {
    hide Has, Sorted, Shifted, CountIn, NewPosition, Merged;
    var m := Shifted(c.deletions, k);
    ShiftExact(c.deletions, k);
    ThroughKept(a, b, c, m);
    var l := Unshifted(c.insertions, Through(a, b, m));
    UnshiftMonotone(c.insertions, 0, Through(a, b, m));
    ShiftInverse(c.insertions, Through(a, b, m));
    if l < k {
      SameRank(a, b, c, l);
      ShiftExact(c.deletions, l);
      ShiftMonotone(c.deletions, l, k);
      ThroughOrder(a, b, c, Shifted(c.deletions, l), m);
      assert false;
    }
    NotBeyond(a, b, c, k, l);
  }

  // The k-th place cannot be passed over: it is reached from a survivor, and
  // every earlier survivor has a place of its own already.
  lemma {:induction false} NotBeyond(a: Changes, b: Changes, c: Changes, k: nat, l: nat)
    requires Proper(a) && Proper(b) && Proper(c) && Merged(a, b, c)
    requires Through(a, b, Shifted(c.deletions, k)) == Shifted(c.insertions, l)
    ensures l <= k
    decreases k, 0
  {
    hide Has, Sorted, Shifted, CountIn, NewPosition, Merged;
    if k < l {
      var m, place := Shifted(c.deletions, k), Shifted(c.insertions, k);
      ShiftExact(c.deletions, k);
      ShiftExact(c.insertions, k);
      ShiftMonotone(c.insertions, k, l);
      ThroughOnto(a, b, c, place);
      var m' := OldAt(a, OldAt(b, place));
      if m < m' {
        ThroughOrder(a, b, c, m, m');
        assert false;
      }
      assert m' < m;
      UnshiftMonotone(c.deletions, 0, m');
      UnshiftMonotone(c.deletions, m', m);
      ShiftInverse(c.deletions, m');
      var j := Unshifted(c.deletions, m');
      SameRank(a, b, c, j);
      ShiftMonotone(c.insertions, j, k);
      assert false;
    }
  }

  // Every element is where it would be had the two change sets been applied one
  // after the other, and so are all insertions and modifications.
  lemma {:induction false} MergeIsComposition(a: Changes, b: Changes, c: Changes)
    requires Proper(a) && Proper(b) && Proper(c) && Merged(a, b, c)
    ensures forall m: nat :: !Has(c.deletions, m) <==> !Has(a.deletions, m) && !Has(b.deletions, NewAt(a, m))
    ensures forall m: nat | !Has(c.deletions, m) :: NewAt(c, m) == NewAt(b, NewAt(a, m))
    ensures forall n: nat :: Has(c.insertions, n) <==>
              Has(b.insertions, n) || exists x :: Moved(b, x, n) && Has(a.insertions, x)
    ensures forall n: nat :: Has(c.modifications, n) <==>
              Has(b.modifications, n) || exists x :: Moved(b, x, n) && Has(a.modifications, x)
  {
    hide Has, Sorted, Shifted, CountIn, NewPosition;
    forall m: nat
      ensures !Has(c.deletions, m) <==> !Has(a.deletions, m) && !Has(b.deletions, NewAt(a, m))
      ensures !Has(c.deletions, m) ==> NewAt(c, m) == NewAt(b, NewAt(a, m))
    {
      MergedSurvivor(a, b, c, m);
      if !Has(c.deletions, m) {
        UnshiftMonotone(c.deletions, 0, m);
        ShiftInverse(c.deletions, m);
        SameRank(a, b, c, Unshifted(c.deletions, m));
        NewAtIs(c, m);
      }
    }
    forall n: nat
      ensures Has(c.insertions, n) <==> Has(b.insertions, n) || exists x :: Moved(b, x, n) && Has(a.insertions, x)
      ensures Has(c.modifications, n) <==> Has(b.modifications, n) || exists x ::
              Moved(b, x, n) && Has(a.modifications, x)
    {
      MovedFrom(b, n);
    }
  }

  // Element x survives the changes and ends at n.
  ghost predicate Moved(c: Changes, x: int, n: int) {
    x >= 0 && !Has(c.deletions, x) && NewAt(c, x) == n
  }

  lemma {:induction false} NewAtIs(c: Changes, m: int)
    ensures NewAt(c, m) == Shifted(c.insertions, Unshifted(c.deletions, m))
  {
  }

  lemma {:induction false} MovedFrom(c: Changes, n: nat)
    requires Proper(c)
    ensures !Has(c.insertions, n) ==> Moved(c, OldAt(c, n), n)
    ensures forall x :: Moved(c, x, n) ==> !Has(c.insertions, n) && x == OldAt(c, n)
  {
    hide Has, Sorted, NewPosition;
    if !Has(c.insertions, n) {
      Origin(c, n);
    }
    forall x | Moved(c, x, n)
      ensures !Has(c.insertions, n) && x == OldAt(c, n)
    {
      Survivor(c, x);
    }
  }

  // ----- The steps of a merge -----

  lemma {:induction false} Emptiness(s: IndexSet)
    requires s.Valid()
    ensures s.v.chunks == [] <==> s.Ranges() == []
  {
    if s.v.chunks != [] {
      FlatSplit(s.v.chunks, 0);
    }
  }

  lemma {:induction false} NoPositions(n: int)
    ensures Unshifted([], n) == n && Shifted([], n) == n && !Has([], n)
  {
  }

  lemma {:induction false} MergeNothing(a: Changes)
    requires Proper(a)
    ensures Merged(a, Changes([], [], []), a)
  {
    hide Has, Shifted, CountIn;
    forall n: int
      ensures Unshifted([], n) == n && Shifted([], n) == n && !Has([], n)
    {
      NoPositions(n);
    }
  }

  lemma {:induction false} MergeIntoNothing(b: Changes)
    requires Proper(b)
    ensures Merged(Changes([], [], []), b, b)
  {
    hide Has, Shifted, CountIn;
    forall n: int
      ensures Unshifted([], n) == n && Shifted([], n) == n && !Has([], n)
    {
      NoPositions(n);
    }
  }

  // What the steps of merge leave in the three sets.
  lemma {:induction false} MergeSteps(a: Changes, b: Changes, c: Changes, i: seq<Range>, m: seq<Range>, n: seq<Range>)
    requires Proper(a) && Proper(b)
    requires forall y: int :: Has(c.deletions, y) <==>
             Has(a.deletions, y) || ShiftedInto(a.deletions, a.insertions, b.deletions, y)
    requires ErasedAt(a.insertions, b.deletions, i) && InsertedAt(i, b.insertions, c.insertions)
    requires ErasedAt(a.modifications, b.deletions, m) && RoomMade(m, b.insertions, n)
    requires forall y: int :: Has(c.modifications, y) <==> Has(n, y) || Has(b.modifications, y)
    ensures Merged(a, b, c)
  {
    hide Has, Sorted, Shifted, CountIn;
    forall y: nat
      ensures Has(c.insertions, y) <==> Has(b.insertions, y) || Has(a.insertions, OldAt(b, y))
      ensures Has(c.modifications, y) <==>
                Has(b.modifications, y) || (!Has(b.insertions, y) && Has(a.modifications, OldAt(b, y)))
    {
      UnshiftMonotone(b.insertions, 0, y);
      var k: nat := Unshifted(b.insertions, y);
      assert Has(i, k) <==> Has(a.insertions, Shifted(b.deletions, k));
      assert Has(m, k) <==> Has(a.modifications, Shifted(b.deletions, k));
    }
  }

  // One range counts as itself.
  lemma {:induction false} OneRange(first: nat, second: nat, n: nat)
    requires first < second
    ensures Has([Range(first, second)], n) <==> first <= n < second
    ensures n < first ==> Unshifted([Range(first, second)], n) == n
    ensures second <= n ==> Unshifted([Range(first, second)], n) == n - (second - first)
    ensures Shifted([Range(first, second)], n) == if first <= n then n + (second - first) else n
  {
    HasOne(Range(first, second), n);
    assert CountIn([Range(first, second)][1..], 0, n) == 0;
  }

  lemma {:induction false} MergeInsert(a: Changes, index: nat, count: nat, c: Changes)
    requires Proper(a) && count > 0 && c.deletions == a.deletions
    requires forall y: int :: Has(c.insertions, y) <==>
             Opened(a.insertions, index, count, y) || index <= y < index + count
    requires forall y: int :: Has(c.modifications, y) <==> Opened(a.modifications, index, count, y)
    ensures Merged(a, Changes([], [Range(index, index + count)], []), c)
  {
    hide Has, Sorted, Shifted, CountIn;
    var b := Changes([], [Range(index, index + count)], []);
    forall n: int
      ensures Unshifted([], n) == n && Shifted([], n) == n && !Has([], n)
    {
      NoPositions(n);
    }
    forall n: nat
      ensures Has(b.insertions, n) <==> index <= n < index + count
      ensures n < index ==> OldAt(b, n) == n
      ensures index + count <= n ==> OldAt(b, n) == n - count
      ensures index <= n < index + count ==> OldAt(b, n) == Unshifted(b.insertions, n)
    {
      OneRange(index, index + count, n);
    }
  }

  lemma {:induction false} MergeErase(a: Changes, index: nat, c: Changes)
    requires Proper(a)
    requires forall y: int :: Has(c.insertions, y) <==> Closed(a.insertions, index, y)
    requires forall y: int :: Has(c.modifications, y) <==> Closed(a.modifications, index, y)
    requires if Has(a.insertions, index) then c.deletions == a.deletions
             else forall y: int :: Has(c.deletions, y) <==>
                 Has(a.deletions, y) || y == Shifted(a.deletions, Unshifted(a.insertions, index))
    ensures Merged(a, Changes([Range(index, index + 1)], [], []), c)
  {
    hide Has, Sorted, Shifted, CountIn;
    var b := Changes([Range(index, index + 1)], [], []);
    forall n: int
      ensures Unshifted([], n) == n && Shifted([], n) == n && !Has([], n)
    {
      NoPositions(n);
    }
    forall n: nat
      ensures OldAt(b, n) == if index <= n then n + 1 else n
    {
      OneRange(index, index + 1, n);
    }
    forall m: nat
      ensures Has(c.deletions, m) <==> Has(a.deletions, m) || ShiftedInto(a.deletions, a.insertions, b.deletions, m)
    {
      ErasedOne(a, index, m);
    }
  }

  // The only old position that an erase can delete.
  lemma {:induction false} ErasedOne(a: Changes, index: nat, m: nat)
    requires Proper(a)
    ensures ShiftedInto(a.deletions, a.insertions, [Range(index, index + 1)], m) <==>
              !Has(a.insertions, index) && m == Shifted(a.deletions, Unshifted(a.insertions, index))
  {
    hide Has, Sorted, Shifted, CountIn;
    UnshiftMonotone(a.deletions, 0, m);
    UnshiftMonotone(a.insertions, 0, index);
    var at := Target(a.insertions, a.deletions, m);
    ShiftExact(a.insertions, Unshifted(a.deletions, m));
    ShiftExact(a.deletions, Unshifted(a.insertions, index));
    OneRange(index, index + 1, at);
    if !Has(a.insertions, index) {
      ShiftInverse(a.insertions, index);
    }
    if !Has(a.deletions, m) {
      ShiftInverse(a.deletions, m);
    }
  }

  lemma {:induction false} MergeModify(a: Changes, index: nat, c: Changes)
    requires Proper(a) && c.deletions == a.deletions && c.insertions == a.insertions
    requires forall y: int :: Has(c.modifications, y) <==> Has(a.modifications, y) || y == index
    ensures Merged(a, Changes([], [], [Range(index, index + 1)]), c)
  {
    hide Has, Sorted, Shifted, CountIn;
    forall n: int
      ensures Unshifted([], n) == n && Shifted([], n) == n && !Has([], n)
    {
      NoPositions(n);
    }
    var one := [Range(index, index + 1)];
    forall n: nat
      ensures Has(one, n) <==> n == index
    {
      OneRange(index, index + 1, n);
    }
  }
}
