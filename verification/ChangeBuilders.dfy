// CollectionChangeBuilder: a change set that grows by one change or by a whole
// change set that is applied after it, moves included.
module ChangeBuilders {
  import opened Ranges
  import opened RangeEdits
  import opened Chunks
  import opened ShiftedAdd
  import opened RangeCount
  import opened IndexMerge
  import opened IndexSets
  import opened CollectionChanges
  import opened ChangeMoves
  import opened MergeMoves

  // No changes.
  const NOTHING := Changes([], [], [])

  // The deletions of b overrun the chunks reserved when merged into a.
  ghost predicate MergeOverruns(a: Changes, b: Changes) {
    var xs := Targets(a.deletions, a.insertions, Indices(b.deletions));
    Overruns(a.deletions, AddAll(a.deletions, xs), Last(xs))
  }

  class CollectionChangeBuilder {
    const deletions: IndexSet
    const insertions: IndexSet
    const modifications: IndexSet
    var moves: seq<Move>

    ghost function Repr(): set<object> {
      {this, deletions.v, insertions.v, modifications.v}
    }

    ghost predicate Apart() {
      deletions.v != insertions.v && deletions.v != modifications.v && insertions.v != modifications.v
    }

    ghost predicate Valid()
      reads deletions, insertions, modifications, Repr()
    {
      && Apart() && deletions.Valid() && insertions.Valid() && modifications.Valid()
      && MovesOk(Now(), moves)
    }

    ghost function Now(): Changes
      reads deletions, insertions, modifications, Repr()
    {
      Changes(deletions.Ranges(), insertions.Ranges(), modifications.Ranges())
    }

    constructor ()
      ensures Valid() && fresh(Repr()) && Now() == NOTHING && moves == []
    {
      deletions := new IndexSet();
      insertions := new IndexSet();
      modifications := new IndexSet();
      moves := [];
    }

    lemma {:induction false} Empty()
      requires Valid()
      ensures Now() == NOTHING <==>
              deletions.v.chunks == [] && insertions.v.chunks == [] && modifications.v.chunks == []
      ensures Now() == NOTHING ==> moves == []
    {
      hide Has;
      Emptiness(deletions);
      Emptiness(insertions);
      Emptiness(modifications);
      if Now() == NOTHING && moves != [] {
        NoPositions(moves[0].from);
        assert false;
      }
    }

    lemma {:induction false} Parts()
      requires Valid()
      ensures Apart() && deletions.Valid() && insertions.Valid() && modifications.Valid() && MovesOk(Now(), moves)
      ensures Proper(Now())
    {
    }

    // ----- merge -----

    // The changes of c are applied after these. Only the chunk counts of the
    // deletions can be wrong afterwards.
    method Merge(c: CollectionChangeBuilder)
      requires Valid() && c.Valid() && Repr() !! c.Repr()
      requires (moves == [] && c.moves == []) || Now() == NOTHING || !MergeOverruns(Now(), c.Now())
      modifies Repr(), c.Repr()
      ensures Proper(Now()) && insertions.Valid() && modifications.Valid() && MovesOk(Now(), moves)
      ensures deletions.Valid() <==> old(Now()) == NOTHING || !MergeOverruns(old(Now()), old(c.Now()))
      ensures forall m, n :: Goes(Now(), moves, m, n) <==>
              Both(old(Now()), old(moves), old(c.Now()), old(c.moves), m, n)
      ensures Followed(old(Now()), old(moves), old(c.Now()), old(c.moves), modifications.Ranges())
      ensures old(Now()) != NOTHING && old(c.Now()) != NOTHING ==> forall mv | mv in moves :: !Stale(Now(), mv)
      ensures old(moves) == [] && old(c.moves) == [] ==> moves == [] && Merged(old(Now()), old(c.Now()), Now())
    {
      hide Flat, Sorted, ChunksOk, Has, Targets, AddAll, Overruns, ShiftedInto, InsertedAt, ErasedAt, RoomMade, Merged,
        Indices, Goes, Both, Followed, MergedMoves, Updated, Rebased, Marked, MovesOk, LandedOn, Stale, NoRepeat,
        NewPosition;
      ghost var a, b, am, bm := Now(), c.Now(), moves, c.moves;
      Empty();
      c.Empty();
      if c.deletions.v.chunks == [] && c.insertions.v.chunks == [] && c.modifications.v.chunks == [] && c.moves == [] {
        MergeNothing(a);
        ThenNothing(a, am, b);
        NothingAdded(a.deletions, a.insertions);
        NothingOverruns(a.deletions, -1);
        return;
      }
      if deletions.v.chunks == [] && insertions.v.chunks == [] && modifications.v.chunks == [] && moves == [] {
        MergeIntoNothing(b);
        NothingThen(a, b, bm);
        deletions.v.chunks := c.deletions.v.chunks;
        insertions.v.chunks := c.insertions.v.chunks;
        modifications.v.chunks := c.modifications.v.chunks;
        moves := c.moves;
        SamePlaces(b, Now(), bm);
        return;
      }
      MergeAll(c);
    }

    // merge where neither change set is empty.
    method MergeAll(c: CollectionChangeBuilder)
      requires Valid() && c.Valid() && Repr() !! c.Repr()
      requires (moves == [] && c.moves == []) || !MergeOverruns(Now(), c.Now())
      modifies Repr(), c.Repr()
      ensures Proper(Now()) && insertions.Valid() && modifications.Valid() && MovesOk(Now(), moves)
      ensures deletions.Valid() <==> !MergeOverruns(old(Now()), old(c.Now()))
      ensures forall m, n :: Goes(Now(), moves, m, n) <==>
              Both(old(Now()), old(moves), old(c.Now()), old(c.moves), m, n)
      ensures Followed(old(Now()), old(moves), old(c.Now()), old(c.moves), modifications.Ranges())
      ensures forall mv | mv in moves :: !Stale(Now(), mv)
      ensures old(moves) == [] && old(c.moves) == [] ==> moves == [] && Merged(old(Now()), old(c.Now()), Now())
    {
      hide Flat, Sorted, ChunksOk, Has, Targets, AddAll, Overruns, ShiftedInto, InsertedAt, ErasedAt, RoomMade, Merged,
        Indices, Goes, Both, Followed, MergedMoves, Updated, Rebased, Marked, MovesOk, LandedOn, NoRepeat,
        NewPosition, Stale, Valid;
      ghost var a, b, am, bm := Now(), c.Now(), moves, c.moves;
      Parts();
      c.Parts();
      ghost var used, there, marks := MergeMoves(c);
      ghost var marks2 := c.modifications.Ranges();
      ghost var i := MergePlaces(c, a, am, b, bm);
      ghost var c1 := Now();
      MergeModifications(c, a, am, b, bm, used, there, marks);
      SamePlaces(c1, Now(), moves);
      SameStale(c1, Now(), moves);
      if am == [] && bm == [] {
        MergedWithoutMoves(a, b, Now(), i, marks, marks2);
      }
      c.deletions.v.chunks := [];
      c.insertions.v.chunks := [];
      c.modifications.v.chunks := [];
      c.moves := [];
    }

    // The deletions and insertions, and the clean-up, once the moves are merged.
    // i: the insertions without those deleted.
    method MergePlaces(c: CollectionChangeBuilder, ghost a: Changes, ghost am: seq<Move>, ghost b: Changes,
                       ghost bm: seq<Move>) returns (ghost i: seq<Range>)
      requires Apart() && deletions.Valid() && insertions.Valid() && modifications.Valid()
      requires c.deletions.Valid() && c.insertions.Valid() && Repr() !! c.Repr()
      requires a == Now() && b == c.Now().(modifications := b.modifications) && Proper(b)
      requires MovesOk(a, am) && MovesOk(b, bm) && MergedMoves(a, am, b, bm, moves)
      requires moves == [] || !MergeOverruns(a, b)
      modifies this`moves, deletions.v, insertions.v
      ensures Sorted(deletions.Ranges()) && insertions.Valid() && MovesOk(Now(), moves)
      ensures deletions.Valid() <==> !MergeOverruns(a, b)
      ensures forall m, n :: Goes(Now(), moves, m, n) <==> Both(a, am, b, bm, m, n)
      ensures forall mv | mv in moves :: !Stale(Now(), mv)
      ensures old(moves) == [] ==> moves == []
      ensures old(moves) == [] ==> ErasedAt(a.insertions, b.deletions, i) &&
                                   InsertedAt(i, b.insertions, insertions.Ranges())
      ensures old(moves) == [] ==> forall y: int :: Has(deletions.Ranges(), y) <==>
                Has(a.deletions, y) || ShiftedInto(a.deletions, a.insertions, b.deletions, y)
    {
      hide Flat, Sorted, ChunksOk, Has, Targets, AddAll, Overruns, ShiftedInto, InsertedAt, ErasedAt, Indices, Goes,
        Both,
        MergedMoves, MovesOk, Stale, NewPosition;
      i := MergePositions(c);
      MovesMerged(a, am, b, bm, Now(), moves, i);
      CleanUpStaleMoves();
    }

    // Gives the new moves that moved a moved row again, those of rows that were
    // there before, and the modifications between the two.
    method MergeMoves(c: CollectionChangeBuilder)
      returns (ghost used: seq<Move>, ghost there: seq<Move>, ghost marks: seq<Range>)
      requires Valid() && c.Valid() && Repr() !! c.Repr()
      modifies this`moves, c`moves, c.modifications.v
      ensures c.modifications.Valid()
      ensures MergedMoves(Now(), old(moves), old(c.Now()), old(c.moves), moves)
      ensures Marked(modifications.Ranges(), used, old(c.modifications.Ranges()), marks)
      ensures Marked(modifications.Ranges(), there, marks, c.modifications.Ranges())
      ensures forall mv :: mv in used <==> mv in old(c.moves) && LandedOn(old(moves), mv.from)
      ensures forall mv :: mv in there <==>
                mv in old(c.moves) && !LandedOn(old(moves), mv.from) && !Has(insertions.Ranges(), mv.from)
      ensures old(moves) == [] && old(c.moves) == [] ==> moves == [] && used == [] && there == []
    {
      hide Flat, Sorted, ChunksOk, Has, MergedMoves, Updated, Rebased, Marked, MovesOk, LandedOn, NoRepeat, NewPosition,
        Goes;
      ghost var a, b, am, bm := Now(), c.Now(), moves, c.moves;
      used := UpdateOldMoves(c);
      marks := c.modifications.Ranges();
      ghost var kept, left := moves, c.moves;
      UpdatedLeft(am, b, bm, kept, left);
      there := AddNewMoves(c);
      ghost var rest :| Rebased(a, left, rest) && moves == kept + rest;
      AllMoves(a, am, b, bm, kept, left, rest);
      if am == [] && bm == [] {
        NoMoves(a, b, kept, left, rest, used, there);
      }
    }

    method MergePositions(c: CollectionChangeBuilder) returns (ghost i: seq<Range>)
      requires Apart() && deletions.Valid() && insertions.Valid() && c.deletions.Valid() && c.insertions.Valid()
      requires Repr() !! c.Repr()
      modifies deletions.v, insertions.v
      ensures Sorted(deletions.Ranges()) && insertions.Valid()
      ensures deletions.Valid() <==> !MergeOverruns(old(Now()), c.Now())
      ensures forall y: int :: Has(deletions.Ranges(), y) <==>
                old(Has(deletions.Ranges(), y)) ||
                ShiftedInto(old(deletions.Ranges()), old(insertions.Ranges()), c.deletions.Ranges(), y)
      ensures ErasedAt(old(insertions.Ranges()), c.deletions.Ranges(), i)
      ensures InsertedAt(i, c.insertions.Ranges(), insertions.Ranges())
    {
      hide Flat, Sorted, ChunksOk, Has, Targets, AddAll, Overruns, ShiftedInto, InsertedAt, ErasedAt, Indices;
      deletions.AddShiftedBy(insertions, c.deletions);
      insertions.EraseAtSet(c.deletions);
      i := insertions.Ranges();
      insertions.InsertAtSet(c.insertions);
    }

    method MergeModifications(c: CollectionChangeBuilder, ghost a: Changes, ghost am: seq<Move>, ghost b: Changes,
                              ghost bm: seq<Move>, ghost used: seq<Move>, ghost there: seq<Move>,
                              ghost marks: seq<Range>)
      requires modifications.Valid() && c.deletions.Valid() && c.insertions.Valid() && c.modifications.Valid()
      requires c.Apart() && Repr() !! c.Repr() && Proper(a) && Proper(b)
      requires a.modifications == modifications.Ranges()
      requires b == c.Now().(modifications := b.modifications) && MovesOk(a, am)
      requires forall mv :: mv in used <==> mv in bm && LandedOn(am, mv.from)
      requires forall mv :: mv in there <==> mv in bm && !LandedOn(am, mv.from) && !Has(a.insertions, mv.from)
      requires Marked(a.modifications, used, b.modifications, marks)
      requires Marked(a.modifications, there, marks, c.modifications.Ranges())
      modifies modifications.v
      ensures modifications.Valid() && Followed(a, am, b, bm, modifications.Ranges())
      ensures forall y: nat :: Has(modifications.Ranges(), y) <==>
                Has(c.modifications.Ranges(), y) || (!Has(b.insertions, y) && Has(a.modifications, OldAt(b, y)))
    {
      hide Flat, Sorted, ChunksOk, Has, ErasedAt, RoomMade, NewPosition, Marked, Followed, LandedOn, MovesOk;
      modifications.EraseAtSet(c.deletions);
      ghost var m := modifications.Ranges();
      modifications.ShiftForInsertAtSet(c.insertions);
      ghost var n := modifications.Ranges();
      modifications.AddSet(c.modifications);
      ModificationsMerged(a, b, c.modifications.Ranges(), m, n, modifications.Ranges());
      MarksFollow(a, am, b, bm, used, there, marks, c.modifications.Ranges(), modifications.Ranges());
    }

    // Old moves whose row was moved again end where it went; those whose row was
    // deleted go; the others are shifted. Gives the new moves used up.
    method UpdateOldMoves(c: CollectionChangeBuilder) returns (ghost used: seq<Move>)
      requires Valid() && c.Valid() && Repr() !! c.Repr()
      modifies this`moves, c`moves, c.modifications.v
      ensures c.modifications.Valid()
      ensures Updated(old(moves), old(c.Now()), old(c.moves), moves, c.moves)
      ensures Marked(modifications.Ranges(), used, old(c.modifications.Ranges()), c.modifications.Ranges())
      ensures forall mv :: mv in used <==> mv in old(c.moves) && LandedOn(old(moves), mv.from)
    {
      hide Flat, Sorted, ChunksOk, Has, Goes, Updated, Marked, MovesOk, LandedOn, NoRepeat, NewPosition;
      ghost var am, b, bm, marks := moves, c.Now(), c.moves, c.modifications.Ranges();
      used := [];
      NothingMarked(modifications.Ranges(), marks);
      NothingUpdated(b, bm);
      NoneLanded();
      c.Empty();
      if c.moves == [] && c.deletions.v.chunks == [] && c.insertions.v.chunks == [] {
        Emptiness(c.deletions);
        Emptiness(c.insertions);
        UpdatedByNothing(Now(), moves, b);
        return;
      }
      var i: nat, kept: seq<Move> := 0, [];
      while i < |moves|
        invariant i <= |moves| && c.modifications.Valid()
        invariant moves == am && Now() == old(Now()) && c.Now().(modifications := marks) == b
        invariant Updated(am[..i], b, bm, kept, c.moves)
        invariant Marked(modifications.Ranges(), used, marks, c.modifications.Ranges())
        invariant forall mv :: mv in used <==> mv in bm && LandedOn(am[..i], mv.from)
      {
        assert am[..i + 1] == am[..i] + [am[i]];
        assert MovesOk(Now(), am[..i + 1]) by {
          FirstMoves(Now(), am, i + 1);
        }
        kept, used := UpdateOldMove(c, moves[i], kept, am[..i], b, bm, used, marks);
        i := i + 1;
      }
      moves := kept;
      assert am[..i] == am;
    }

    method UpdateOldMove(c: CollectionChangeBuilder, x: Move, kept: seq<Move>, ghost am: seq<Move>, ghost b: Changes,
                         ghost bm: seq<Move>, ghost used: seq<Move>, ghost marks: seq<Range>)
      returns (kept': seq<Move>, ghost used': seq<Move>)
      requires modifications.Valid() && c.deletions.Valid() && c.insertions.Valid() && c.modifications.Valid()
      requires c.Apart() && Repr() !! c.Repr()
      requires Proper(b) && b == c.Now().(modifications := b.modifications) && MovesOk(b, bm)
      requires MovesOk(Now(), am + [x]) && Updated(am, b, bm, kept, c.moves)
      requires Marked(modifications.Ranges(), used, marks, c.modifications.Ranges())
      requires forall mv :: mv in used <==> mv in bm && LandedOn(am, mv.from)
      modifies c`moves, c.modifications.v
      ensures c.modifications.Valid()
      ensures Updated(am + [x], b, bm, kept', c.moves)
      ensures Marked(modifications.Ranges(), used', marks, c.modifications.Ranges())
      ensures forall mv :: mv in used' <==> mv in bm && LandedOn(am + [x], mv.from)
    {
      hide Flat, Sorted, ChunksOk, Has, Goes, Updated, Marked, MovesOk, LandedOn, NoRepeat, NewPosition;
      kept', used' := kept, used;
      ghost var left := c.moves;
      UpdatedLeft(am, b, bm, kept, left);
      forall mv: Move
        ensures LandedOn(am + [x], mv.from) <==> LandedOn(am, mv.from) || mv.from == x.to
      {
        LandedOneMore(am, x, mv.from);
      }
      var at := FindMove(c.moves, x.to);
      if at < |c.moves| {
        var y := c.moves[at];
        Mark(c, y);
        MarkedOne(modifications.Ranges(), used, y, marks, old(c.modifications.Ranges()), c.modifications.Ranges());
        used' := used + [y];
        kept' := kept + [Move(x.from, y.to)];
        c.moves := c.moves[at := c.moves[|c.moves| - 1]][..|c.moves| - 1];
        TakenOut(left, at, c.moves);
        MovedAgain(Now(), am, x, b, bm, kept, left, y, c.moves);
        forall mv | mv in bm && mv.from == x.to
          ensures mv == y
        {
          OnlyMove(b, bm, mv, y);
        }
      } else {
        NotMovedAgain(Now(), am, x, b, bm, kept, left);
        var gone := c.deletions.Contains(x.to);
        if !gone {
          UnshiftMonotone(c.deletions.Ranges(), 0, x.to);
          var unshifted := c.deletions.Unshift(x.to);
          var to := c.insertions.Shift(unshifted);
          NewAtIs(b, x.to);
          kept' := kept + [Move(x.from, to)];
        }
        forall mv | mv in bm && mv.from == x.to
          ensures LandedOn(am, x.to)
        {
          assert mv !in left;
        }
      }
    }

    // A modified row that is moved is modified at its new place.
    method Mark(c: CollectionChangeBuilder, mv: Move)
      requires modifications.Valid() && c.modifications.Valid() && modifications.v != c.modifications.v
      modifies c.modifications.v
      ensures c.modifications.Valid()
      ensures forall y: int :: Has(c.modifications.Ranges(), y) <==>
                old(Has(c.modifications.Ranges(), y)) || (Has(modifications.Ranges(), mv.from) && y == mv.to)
    {
      hide Flat, Sorted, ChunksOk, Has;
      var marked := modifications.Contains(mv.from);
      if marked {
        c.modifications.Add(mv.to);
      }
    }

    // The new moves of rows that were there before join the old ones. Gives
    // them as they were.
    method AddNewMoves(c: CollectionChangeBuilder) returns (ghost there: seq<Move>)
      requires Apart() && deletions.Valid() && insertions.Valid() && modifications.Valid() && c.modifications.Valid()
      requires Repr() !! c.Repr() && NoRepeat(c.moves)
      modifies this`moves, c`moves, c.modifications.v
      ensures c.modifications.Valid()
      ensures forall mv :: mv in there <==> mv in old(c.moves) && !Has(insertions.Ranges(), mv.from)
      ensures Marked(modifications.Ranges(), there, old(c.modifications.Ranges()), c.modifications.Ranges())
      ensures exists rest :: Rebased(Now(), old(c.moves), rest) && moves == old(moves) + rest
    {
      hide Flat, Sorted, ChunksOk, Has, Marked, NewPosition, Rebased;
      var kept := DropInserted(c.moves);
      there := kept;
      Emptiness(modifications);
      NothingModified(kept, c.modifications.Ranges());
      if modifications.v.chunks != [] {
        MarkAll(c, kept);
      }
      var rest := kept;
      if deletions.v.chunks != [] || insertions.v.chunks != [] {
        rest := Rebase(kept);
      } else {
        Emptiness(deletions);
        Emptiness(insertions);
        forall i | 0 <= i < |kept|
          ensures OldAt(Now(), kept[i].from) == kept[i].from
        {
          StaysPut(Now(), kept[i].from);
        }
      }
      RebasedIs(Now(), old(c.moves), there, rest);
      moves := moves + rest;
      c.moves := rest;
    }

    // The moves that do not leave from an insertion.
    method DropInserted(ms: seq<Move>) returns (kept: seq<Move>)
      requires insertions.Valid() && NoRepeat(ms)
      ensures NoRepeat(kept) && forall mv :: mv in kept <==> mv in ms && !Has(insertions.Ranges(), mv.from)
    {
      hide Flat, Sorted, ChunksOk, Has;
      var i: nat := 0;
      kept := [];
      while i < |ms|
        invariant i <= |ms| && NoRepeat(kept)
        invariant forall mv :: mv in kept <==> mv in ms[..i] && !Has(insertions.Ranges(), mv.from)
      {
        var new_ := insertions.Contains(ms[i].from);
        if !new_ {
          kept := kept + [ms[i]];
        }
        assert ms[..i + 1] == ms[..i] + [ms[i]];
        i := i + 1;
      }
      assert ms[..i] == ms;
    }

    method MarkAll(c: CollectionChangeBuilder, ms: seq<Move>)
      requires modifications.Valid() && c.modifications.Valid() && modifications.v != c.modifications.v
      modifies c.modifications.v
      ensures c.modifications.Valid()
      ensures Marked(modifications.Ranges(), ms, old(c.modifications.Ranges()), c.modifications.Ranges())
    {
      hide Flat, Sorted, ChunksOk, Has, Marked;
      ghost var marks := c.modifications.Ranges();
      NothingMarked(modifications.Ranges(), marks);
      var i: nat := 0;
      while i < |ms|
        invariant i <= |ms| && c.modifications.Valid()
        invariant Marked(modifications.Ranges(), ms[..i], marks, c.modifications.Ranges())
      {
        ghost var now := c.modifications.Ranges();
        Mark(c, ms[i]);
        MarkedOne(modifications.Ranges(), ms[..i], ms[i], marks, now, c.modifications.Ranges());
        assert ms[..i + 1] == ms[..i] + [ms[i]];
        i := i + 1;
      }
      assert ms[..i] == ms;
    }

    // The same moves, leaving from the positions before these changes.
    method Rebase(ms: seq<Move>) returns (out: seq<Move>)
      requires deletions.Valid() && insertions.Valid()
      ensures |out| == |ms|
      ensures forall i | 0 <= i < |out| :: out[i].to == ms[i].to && out[i].from == OldAt(Now(), ms[i].from)
    {
      hide Flat, Sorted, ChunksOk;
      out := [];
      while |out| < |ms|
        invariant |out| <= |ms|
        invariant forall i | 0 <= i < |out| :: out[i].to == ms[i].to && out[i].from == OldAt(Now(), ms[i].from)
      {
        var mv := ms[|out|];
        UnshiftMonotone(insertions.Ranges(), 0, mv.from);
        var unshifted := insertions.Unshift(mv.from);
        var from := deletions.Shift(unshifted);
        out := out + [Move(from, mv.to)];
      }
    }

    // clean_up_stale_moves: a move that leaves the order of the rows as it is goes,
    // together with its deletion and its insertion.
    method CleanUpStaleMoves()
      requires Apart() && (moves == [] || deletions.Valid()) && insertions.Valid() && modifications.Valid()
      requires Sorted(deletions.Ranges()) && MovesOk(Now(), moves)
      modifies this`moves, deletions.v, insertions.v
      ensures Sorted(deletions.Ranges()) && insertions.Valid() && MovesOk(Now(), moves)
      ensures old(moves) == [] ==> moves == [] && Now() == old(Now())
      ensures deletions.Valid() <==> old(deletions.Valid())
      ensures forall m, n :: Goes(Now(), moves, m, n) <==> Goes(old(Now()), old(moves), m, n)
      ensures forall mv | mv in moves :: !Stale(Now(), mv)
    {
      hide Flat, Sorted, ChunksOk, Has, Goes, MovesOk, Stale, SameGoes;
      var i: nat, kept: seq<Move> := 0, [];
      assert [] + moves[0..] == moves;
      GoesItself(Now(), moves);
      while i < |moves|
        invariant i <= |moves| && moves == old(moves)
        invariant (moves == [] || deletions.Valid()) && insertions.Valid() && Sorted(deletions.Ranges())
        invariant moves == [] ==> kept == [] && Now() == old(Now())
        invariant deletions.Valid() <==> old(deletions.Valid())
        invariant modifications.Ranges() == old(modifications.Ranges())
        invariant MovesOk(Now(), kept + moves[i..])
        invariant SameGoes(old(Now()), moves, Now(), kept + moves[i..])
        invariant forall mv | mv in kept :: !Stale(Now(), mv)
      {
        NextInLine(kept, moves, i);
        ghost var c, ms := Now(), kept + moves[i..];
        kept := CleanUpMove(kept, moves[i], moves[i + 1..]);
        i := i + 1;
        GoesOn(old(Now()), moves, c, ms, Now(), kept + moves[i..]);
      }
      NextInLine(kept, moves, i);
      GoesAlike(old(Now()), moves, Now(), kept);
      moves := kept;
    }

    method CleanUpMove(kept: seq<Move>, x: Move, ghost rest: seq<Move>) returns (kept': seq<Move>)
      requires Apart() && deletions.Valid() && insertions.Valid() && modifications.Valid()
      requires MovesOk(Now(), kept + [x] + rest) && forall mv | mv in kept :: !Stale(Now(), mv)
      modifies deletions.v, insertions.v
      ensures deletions.Valid() && insertions.Valid() && MovesOk(Now(), kept' + rest)
      ensures SameGoes(old(Now()), kept + [x] + rest, Now(), kept' + rest)
      ensures forall mv | mv in kept' :: !Stale(Now(), mv)
    {
      hide Flat, Sorted, ChunksOk, Has, Goes, MovesOk, Miscounts, CountIn;
      ghost var c := Now();
      var deleted := deletions.Count(0, x.from);
      NeverFromZero(deletions.v.chunks, x.from);
      var inserted := insertions.Count(0, x.to);
      NeverFromZero(insertions.v.chunks, x.to);
      if x.from - deleted != x.to - inserted {
        GoesItself(Now(), kept + [x] + rest);
        return kept + [x];
      }
      kept' := kept;
      deletions.Remove(x.from, 1);
      insertions.Remove(x.to, 1);
      OneLess(c, kept, x, rest);
      OthersStay(c, Now(), kept + rest, x);
      StaleMoves(c, Now(), kept + [x] + rest, kept + rest, x.from, x.to);
      forall mv | mv in kept
        ensures !Stale(Now(), mv)
      {
        MoveThere(c, kept + [x] + rest, mv);
        StaysReal(c, Now(), x.from, x.to, mv);
      }
    }

    // ----- One change -----

    // count elements appear from index on.
    method Insert(index: nat, count: nat)
      requires Valid() && count > 0
      modifies Repr()
      ensures Valid() && Merged(old(Now()), Changes([], [Range(index, index + count)], []), Now())
      ensures MergedMoves(old(Now()), old(moves), Changes([], [Range(index, index + count)], []), [], moves)
    {
      hide Flat, Sorted, ChunksOk, Has, Merged, Opened, MovesOk, MergedMoves, Updated, NewPosition;
      ghost var a, am := Now(), moves;
      ghost var b := Changes([], [Range(index, index + count)], []);
      modifications.ShiftForInsertAt(index, count);
      insertions.InsertAt(index, count);
      MergeInsert(a, index, count, Now());
      OpenEnds(a, index, count);
      OneSorted(index, index + count);
      NoMovesOk(b);
      StillMoves(a, am, b, [], Now(), moves);
    }

    method OpenEnds(ghost a: Changes, index: nat, count: nat)
      requires Proper(a) && MovesOk(a, moves) && count > 0
      modifies this`moves
      ensures MergedMoves(a, old(moves), Changes([], [Range(index, index + count)], []), [], moves)
    {
      hide Has, Sorted, MovesOk, MergedMoves, Updated, NewPosition;
      ghost var am, b := moves, Changes([], [Range(index, index + count)], []);
      OneSorted(index, index + count);
      NoMovesOk(b);
      NothingUpdated(b, []);
      var i: nat := 0;
      while i < |moves|
        invariant i <= |moves| == |am| && moves[i..] == am[i..] && Updated(am[..i], b, [], moves[..i], [])
      {
        var x := moves[i];
        var y := if x.to >= index then Move(x.from, x.to + count) else x;
        FirstMoves(a, am, i + 1);
        NextMove(am, i, moves, i, y);
        NotMovedAgain(a, am[..i], x, b, [], moves[..i], []);
        OpenedAt(index, count, x.to);
        moves := moves[i := y];
        i := i + 1;
      }
      assert moves[..i] == moves && am[..i] == am;
      EndsOnly(a, am, b, moves);
    }

    // The element at index goes.
    method Erase(index: nat)
      requires Valid()
      modifies Repr()
      ensures Valid() && Merged(old(Now()), Changes([Range(index, index + 1)], [], []), Now())
      ensures MergedMoves(old(Now()), old(moves), Changes([Range(index, index + 1)], [], []), [], moves)
    {
      hide Flat, Sorted, ChunksOk, Has, Merged, Closed, Shifted, CountIn, MovesOk, MergedMoves, NewPosition;
      ghost var a, am := Now(), moves;
      ghost var b := Changes([Range(index, index + 1)], [], []);
      modifications.EraseAt(index);
      var unshifted := insertions.EraseOrUnshift(index);
      UnshiftMonotone(a.insertions, 0, index);
      if unshifted.Some? {
        var added := deletions.AddShifted(unshifted.value);
      }
      MergeErase(a, index, Now());
      CloseEnds(a, index);
      OneSorted(index, index + 1);
      NoMovesOk(b);
      StillMoves(a, am, b, [], Now(), moves);
    }

    method CloseEnds(ghost a: Changes, index: nat)
      requires Proper(a) && MovesOk(a, moves)
      modifies this`moves
      ensures MergedMoves(a, old(moves), Changes([Range(index, index + 1)], [], []), [], moves)
    {
      hide Has, Sorted, MovesOk, MergedMoves, Updated, NewPosition;
      ghost var am, b := moves, Changes([Range(index, index + 1)], [], []);
      OneSorted(index, index + 1);
      NoMovesOk(b);
      NothingUpdated(b, []);
      var i: nat := 0;
      ghost var j: nat := 0;
      while i < |moves|
        invariant i <= |moves| && j <= |am| && moves[i..] == am[j..] && Updated(am[..j], b, [], moves[..i], [])
        decreases |moves| - i
      {
        var x := moves[i];
        FirstMoves(a, am, j + 1);
        var y := if x.to > index then Move(x.from, x.to - 1) else x;
        NextMove(am, j, moves, i, y);
        NotMovedAgain(a, am[..j], x, b, [], moves[..i], []);
        ClosedAt(index, x.to);
        if x.to == index {
          moves := moves[..i] + moves[i + 1..];
        } else {
          moves := moves[i := y];
          i := i + 1;
        }
        j := j + 1;
      }
      assert moves[..i] == moves && am[..j] == am;
      EndsOnly(a, am, b, moves);
    }

    // The element at from goes to to.
    method MoveTo(from: nat, to: nat)
      requires Valid() && from != to
      modifies Repr()
      ensures Valid()
      ensures forall m, n :: Goes(Now(), moves, m, n) <==>
                Both(old(Now()), old(moves), OneMove(from, to), [Move(from, to)], m, n)
      ensures forall n: nat :: Has(modifications.Ranges(), n) <==>
                exists p: nat :: old(Has(modifications.Ranges(), p)) && Goes(OneMove(from, to), [Move(from, to)], p, n)
    {
      hide Flat, Sorted, ChunksOk, Has, Merged, Opened, Closed, MovesOk, MergedMoves, Updated, Goes, Both,
        OneMove, Rebased, Shifted, CountIn;
      ghost var a, am, b, bm := Now(), moves, OneMove(from, to), [Move(from, to)];
      OneMoveOk(from, to);
      var again := MoveEnds(a, from, to);
      ghost var kept := moves;
      ghost var left := if again then [] else [Move(from, to)];
      ghost var there := if Has(a.insertions, from) then [] else left;
      if again {
        insertions.EraseAt(from);
        LandedInside(a, am, from);
      } else {
        UnshiftMonotone(a.insertions, 0, from);
        var unshifted := insertions.EraseOrUnshift(from);
        if unshifted.Some? {
          var shifted := deletions.AddShifted(unshifted.value);
          moves := moves + [Move(shifted, to)];
        }
      }
      ghost var i := insertions.Ranges();
      insertions.InsertAt(to, 1);
      RebasedIs(a, left, there, moves[|kept|..]);
      assert moves == kept + moves[|kept|..];
      AllMoves(a, am, b, bm, kept, left, moves[|kept|..]);
      MoveModification(from, to);
      MergeMove(a, from, to, Now(), i);
      MoveComposes(a, am, from, to, Now(), moves);
    }

    // Moves that end at from go on to to, the others shift. Tells whether there
    // was one that ended at from.
    method MoveEnds(ghost a: Changes, from: nat, to: nat) returns (again: bool)
      requires Proper(a) && MovesOk(a, moves) && from != to
      modifies this`moves
      ensures again <==> LandedOn(old(moves), from)
      ensures Updated(old(moves), OneMove(from, to), [Move(from, to)], moves, if again then [] else [Move(from, to)])
    {
      hide Has, Sorted, MovesOk, Updated, NewPosition, OneMove, LandedOn;
      ghost var am, b, mv := moves, OneMove(from, to), Move(from, to);
      OneMoveOk(from, to);
      NothingUpdated(b, [mv]);
      NoneLanded();
      again := false;
      var i: nat := 0;
      while i < |moves|
        invariant i <= |moves| == |am| && moves[i..] == am[i..] && (again <==> LandedOn(am[..i], from))
        invariant Updated(am[..i], b, [mv], moves[..i], if again then [] else [mv])
      {
        var x := moves[i];
        var y := x;
        ghost var before := moves[..i];
        FirstMoves(a, am, i + 1);
        NextMove(am, i, moves, i, x);
        PlaceFree(a, am[..i], x);
        LandedOneMore(am[..i], x, from);
        OneMoveAt(from, to, x.to);
        if x.to != from {
          NotMovedAgain(a, am[..i], x, b, [mv], before, if again then [] else [mv]);
          if to <= x.to < from {
            y := Move(x.from, x.to + 1);
          } else if from < x.to <= to {
            y := Move(x.from, x.to - 1);
          }
        } else {
          MovedAgain(a, am[..i], x, b, [mv], before, [mv], mv, []);
          y := Move(x.from, to);
          again := true;
        }
        NextMove(am, i, moves, i, y);
        moves := moves[i := y];
        i := i + 1;
      }
      assert moves[..i] == moves && am[..i] == am;
    }

    method MoveModification(from: nat, to: nat)
      requires modifications.Valid()
      modifies modifications.v
      ensures modifications.Valid()
      ensures forall n: nat :: Has(modifications.Ranges(), n) <==>
                exists p: nat :: old(Has(modifications.Ranges(), p)) && Goes(OneMove(from, to), [Move(from, to)], p, n)
    {
      hide Flat, Sorted, ChunksOk, Has, Goes, OneMove, Opened, Closed;
      ghost var before := modifications.Ranges();
      var modified := modifications.Contains(from);
      modifications.EraseAt(from);
      ghost var now := modifications.Ranges();
      if modified {
        modifications.InsertAt(to, 1);
      } else {
        modifications.ShiftForInsertAt(to, 1);
      }
      MoveModified(before, from, to, now, modifications.Ranges());
    }

    // The element at index has changed.
    method Modify(index: nat)
      requires Valid()
      modifies Repr()
      ensures Valid() && Merged(old(Now()), Changes([], [], [Range(index, index + 1)]), Now()) && moves == old(moves)
    {
      hide Flat, Sorted, ChunksOk, Has, Merged;
      ghost var a := Now();
      modifications.Add(index);
      MergeModify(a, index, Now());
      SamePlaces(a, Now(), moves);
    }
  }

  // find_if on where a move leaves from.
  method FindMove(ms: seq<Move>, from: nat) returns (at: nat)
    ensures at <= |ms| && (at < |ms| ==> ms[at].from == from)
    ensures forall i | 0 <= i < at :: ms[i].from != from
  {
    at := 0;
    while at < |ms| && ms[at].from != from
      invariant at <= |ms| && forall i | 0 <= i < at :: ms[i].from != from
    {
      at := at + 1;
    }
  }

  lemma {:induction false} FirstMoves(c: Changes, moves: seq<Move>, n: nat)
    requires MovesOk(c, moves) && n <= |moves|
    ensures MovesOk(c, moves[..n])
  {
    hide Has;
  }

  lemma {:induction false} UpdatedLeft(am: seq<Move>, b: Changes, bm: seq<Move>, kept: seq<Move>, left: seq<Move>)
    requires Updated(am, b, bm, kept, left)
    ensures NoRepeat(left) && forall mv: Move :: mv in left <==> mv in bm && !LandedOn(am, mv.from)
  {
  }

  lemma {:induction false} NoneLanded()
    ensures forall p: nat :: !LandedOn([], p)
  {
  }

  // One step over the moves, of which those from i on are as they were from j on.
  lemma {:induction false} NextMove(was: seq<Move>, j: nat, now: seq<Move>, i: nat, y: Move)
    requires i < |now| && j < |was| && now[i..] == was[j..]
    ensures was[..j + 1] == was[..j] + [now[i]]
    ensures now[i := y][..i + 1] == now[..i] + [y] && now[i := y][i + 1..] == was[j + 1..]
    ensures (now[..i] + now[i + 1..])[..i] == now[..i] && (now[..i] + now[i + 1..])[i..] == was[j + 1..]
  {
    assert now[i..][0] == was[j..][0];
    assert now[i..][1..] == was[j..][1..];
    assert now[i + 1..] == now[i..][1..] && was[j + 1..] == was[j..][1..];
  }

  lemma {:induction false} MoveThere(c: Changes, moves: seq<Move>, mv: Move)
    requires MovesOk(c, moves) && mv in moves
    ensures Has(c.deletions, mv.from) && Has(c.insertions, mv.to)
  {
    hide Has;
  }

  // All elements go to the same place.
  ghost predicate SameGoes(c: Changes, ms: seq<Move>, d: Changes, ns: seq<Move>) {
    forall m, n :: Goes(d, ns, m, n) <==> Goes(c, ms, m, n)
  }

  lemma {:induction false} GoesItself(c: Changes, ms: seq<Move>)
    ensures SameGoes(c, ms, c, ms)
  {
  }

  lemma {:induction false} GoesOn(c: Changes, ms: seq<Move>, d: Changes, ns: seq<Move>, e: Changes, os: seq<Move>)
    requires SameGoes(c, ms, d, ns) && SameGoes(d, ns, e, os)
    ensures SameGoes(c, ms, e, os)
  {
    hide Goes;
  }

  lemma {:induction false} GoesAlike(c: Changes, ms: seq<Move>, d: Changes, ns: seq<Move>)
    requires SameGoes(c, ms, d, ns)
    ensures forall m, n :: Goes(d, ns, m, n) <==> Goes(c, ms, m, n)
  {
    hide Goes;
  }

  lemma {:induction false} NextInLine(kept: seq<Move>, moves: seq<Move>, i: nat)
    requires i <= |moves|
    ensures kept + moves[i..] == if i < |moves| then kept + [moves[i]] + moves[i + 1..] else kept
  {
  }

  lemma {:induction false} SameStale(c: Changes, d: Changes, moves: seq<Move>)
    requires c.deletions == d.deletions && c.insertions == d.insertions
    ensures forall mv | mv in moves :: Stale(c, mv) <==> Stale(d, mv)
  {
  }

  lemma {:induction false} NothingModified(moves: seq<Move>, marks: seq<Range>)
    ensures Marked([], moves, marks, marks)
  {
  }

  lemma {:induction false} OneSorted(first: nat, second: nat)
    requires first < second
    ensures Sorted([Range(first, second)]) && Sorted([])
  {
  }

  lemma {:induction false} NoMovesOk(c: Changes)
    ensures MovesOk(c, [])
  {
  }

  // Two change sets without moves give one without.
  lemma {:induction false} NoMoves(a: Changes, b: Changes, kept: seq<Move>, left: seq<Move>, rest: seq<Move>,
                                   used: seq<Move>, there: seq<Move>)
    requires Updated([], b, [], kept, left) && Rebased(a, left, rest)
    requires forall mv :: mv in used ==> mv in []
    requires forall mv :: mv in there ==> mv in left
    ensures kept == [] && left == [] && rest == [] && used == [] && there == []
  {
    hide Has, Goes;
    FirstIn(kept);
    FirstIn(left);
    FirstIn(rest);
    FirstIn(used);
    FirstIn(there);
  }

  lemma {:induction false} FirstIn(ms: seq<Move>)
    ensures ms == [] || ms[0] in ms
  {
  }
}
