// The steps of merging two change sets with moves: what each loop of the merge
// does to the moves and the modifications.
module MergeMoves {
  import opened Ranges
  import opened RangeEdits
  import opened ShiftedAdd
  import opened IndexMerge
  import opened CollectionChanges
  import opened ChangeMoves

  // ----- Old and new moves -----

  // Some old move ends at p.
  ghost predicate LandedOn(am: seq<Move>, p: nat) {
    exists m: nat :: Move(m, p) in am
  }

  ghost predicate NoRepeat(ms: seq<Move>) {
    forall i, j | 0 <= i < j < |ms| :: ms[i] != ms[j]
  }

  // The old moves am have been carried on to kept, and the moves that carried
  // them on are gone from the new moves bm.
  ghost predicate Updated(am: seq<Move>, b: Changes, bm: seq<Move>, kept: seq<Move>, left: seq<Move>) {
    && (forall mv: Move :: mv in kept <==> CarriedOn(am, b, bm, mv))
    && (forall mv: Move :: mv in left <==> mv in bm && !LandedOn(am, mv.from))
    && NoRepeat(kept) && NoRepeat(left)
  }

  lemma {:induction false} NothingUpdated(b: Changes, bm: seq<Move>)
    requires MovesOk(b, bm)
    ensures Updated([], b, bm, [], bm)
  {
  }

  lemma {:induction false} CarriedOneMore(am: seq<Move>, x: Move, b: Changes, bm: seq<Move>, mv: Move)
    ensures CarriedOn(am + [x], b, bm, mv) <==>
              CarriedOn(am, b, bm, mv) || (mv.from == x.from && Goes(b, bm, x.to, mv.to))
  {
    hide Goes;
    if p: nat :| Move(mv.from, p) in am && Goes(b, bm, p, mv.to) {
      assert Move(mv.from, p) in am + [x];
    }
    if mv.from == x.from && Goes(b, bm, x.to, mv.to) {
      assert Move(mv.from, x.to) in am + [x];
    }
  }

  lemma {:induction false} LandedOneMore(am: seq<Move>, x: Move, p: nat)
    ensures LandedOn(am + [x], p) <==> LandedOn(am, p) || p == x.to
  {
    if m: nat :| Move(m, p) in am {
      assert Move(m, p) in am + [x];
    }
    assert x in am + [x];
  }

  lemma {:induction false} PlaceFree(a: Changes, am: seq<Move>, x: Move)
    requires MovesOk(a, am + [x])
    ensures !LandedOn(am, x.to) && forall mv | mv in am :: mv.from != x.from
  {
    forall mv | mv in am
      ensures mv.from != x.from && mv.to != x.to
    {
      var i :| 0 <= i < |am| && am[i] == mv;
      assert (am + [x])[i] == mv && (am + [x])[|am|] == x;
    }
  }

  // The old move x was moved on by one of the new moves.
  lemma {:induction false} MovedAgain(a: Changes, am: seq<Move>, x: Move, b: Changes, bm: seq<Move>, kept: seq<Move>,
                                      left: seq<Move>, y: Move, left': seq<Move>)
    requires Proper(b) && MovesOk(a, am + [x]) && MovesOk(b, bm) && Updated(am, b, bm, kept, left)
    requires y in left && y.from == x.to && NoRepeat(left')
    requires forall mv :: mv in left' <==> mv in left && mv != y
    ensures Updated(am + [x], b, bm, kept + [Move(x.from, y.to)], left')
  {
    hide CarriedOn, LandedOn, Proper, Goes, MovesOk;
    PlaceFree(a, am, x);
    forall mv: Move
      ensures CarriedOn(am + [x], b, bm, mv) <==> mv in kept + [Move(x.from, y.to)]
    {
      CarriedOneMore(am, x, b, bm, mv);
      assert Goes(b, bm, x.to, y.to) by {
        assert Move(x.to, y.to) in bm;
        GoesAlong(b, bm, x.to, y.to);
      }
      if Goes(b, bm, x.to, mv.to) {
        OneWay(b, bm, x.to, mv.to, x.to, y.to);
      }
    }
    forall mv: Move
      ensures mv in left' <==> mv in bm && !LandedOn(am + [x], mv.from)
    {
      LandedOneMore(am, x, mv.from);
      if mv in bm && mv.from == x.to {
        OnlyMove(b, bm, mv, y);
      }
    }
    NewFrom(am, x, b, bm, kept, Move(x.from, y.to));
  }

  lemma {:induction false} GoesAlong(c: Changes, moves: seq<Move>, m: nat, n: nat)
    requires Move(m, n) in moves
    ensures Goes(c, moves, m, n)
  {
  }

  lemma {:induction false} OnlyMove(c: Changes, moves: seq<Move>, x: Move, y: Move)
    requires MovesOk(c, moves) && x in moves && y in moves && x.from == y.from
    ensures x == y
  {
    var i, j :| 0 <= i < |moves| && 0 <= j < |moves| && moves[i] == x && moves[j] == y;
  }

  // A move carried on from another place is not among those kept so far.
  lemma {:induction false} NewFrom(am: seq<Move>, x: Move, b: Changes, bm: seq<Move>, kept: seq<Move>, y: Move)
    requires NoRepeat(kept) && y.from == x.from && forall mv | mv in am :: mv.from != x.from
    requires forall mv: Move :: mv in kept <==> CarriedOn(am, b, bm, mv)
    ensures NoRepeat(kept + [y])
  {
    assert y !in kept;
  }

  // The element the old move x put at x.to is deleted, or stays where it is
  // but for the shifting around it.
  lemma {:induction false} NotMovedAgain(a: Changes, am: seq<Move>, x: Move, b: Changes, bm: seq<Move>, kept: seq<Move>,
                                         left: seq<Move>)
    requires Proper(b) && MovesOk(a, am + [x]) && MovesOk(b, bm) && Updated(am, b, bm, kept, left)
    requires forall mv :: mv in left ==> mv.from != x.to
    ensures Has(b.deletions, x.to) ==> Updated(am + [x], b, bm, kept, left)
    ensures !Has(b.deletions, x.to) ==> NewAt(b, x.to) >= 0
    ensures !Has(b.deletions, x.to) ==> Updated(am + [x], b, bm, kept + [Move(x.from, NewAt(b, x.to))], left)
  {
    hide CarriedOn, LandedOn, Proper, Has, NewPosition, MovesOk;
    PlaceFree(a, am, x);
    forall n: nat
      ensures Move(x.to, n) !in bm
    {
      assert Move(x.to, n) in bm ==> Move(x.to, n) in left;
    }
    forall mv: Move
      ensures CarriedOn(am + [x], b, bm, mv) <==>
                CarriedOn(am, b, bm, mv) || (mv.from == x.from && Moved(b, x.to, mv.to))
    {
      CarriedOneMore(am, x, b, bm, mv);
    }
    forall mv: Move
      ensures mv in left <==> mv in bm && !LandedOn(am + [x], mv.from)
    {
      LandedOneMore(am, x, mv.from);
    }
    if !Has(b.deletions, x.to) {
      Survivor(b, x.to);
      NewFrom(am, x, b, bm, kept, Move(x.from, NewAt(b, x.to)));
    }
  }

  // A change set without positions and moves leaves all moves as they are.
  lemma {:induction false} UpdatedByNothing(a: Changes, am: seq<Move>, b: Changes)
    requires MovesOk(a, am) && b.deletions == [] && b.insertions == []
    ensures Updated(am, b, [], am, [])
  {
    hide Has, NewPosition;
    forall mv: Move
      ensures mv in am <==> CarriedOn(am, b, [], mv)
    {
      NoPositions(mv.to);
      StaysPut(b, mv.to);
      if mv in am {
        assert Move(mv.from, mv.to) in am && Goes(b, [], mv.to, mv.to);
      }
      if p: nat :| Move(mv.from, p) in am && Goes(b, [], p, mv.to) {
        StaysPut(b, p);
      }
    }
  }

  lemma {:induction false} StaysPut(c: Changes, m: nat)
    requires c.deletions == [] && c.insertions == []
    ensures NewAt(c, m) == m && OldAt(c, m) == m && !Has(c.deletions, m)
  {
    NoPositions(m);
  }

  // The new moves that are left, but for those of rows that were new before,
  // now leave from the old positions.
  ghost predicate Rebased(a: Changes, left: seq<Move>, rest: seq<Move>) {
    && (forall mv: Move :: mv in rest <==> exists p: nat :: Move(p, mv.to) in left && !Has(a.insertions, p)
                                                       && mv.from == OldAt(a, p))
    && NoRepeat(rest)
  }

  lemma {:induction false} AllMoves(a: Changes, am: seq<Move>, b: Changes, bm: seq<Move>, kept: seq<Move>,
                                    left: seq<Move>,
                                    rest: seq<Move>)
    requires Proper(a) && MovesOk(a, am) && Updated(am, b, bm, kept, left) && Rebased(a, left, rest)
    ensures MergedMoves(a, am, b, bm, kept + rest)
  {
    hide Has, Sorted, NewPosition, Goes;
    forall p: nat
      ensures LandedOn(am, p) ==> Has(a.insertions, p)
    {
      LandedInside(a, am, p);
    }
    forall mv: Move
      ensures mv in rest <==> NewlyMoved(a, bm, mv)
    {
      if p: nat :| Move(p, mv.to) in bm && !Has(a.insertions, p) && mv.from == OldAt(a, p) {
        assert Move(p, mv.to) in left;
      }
      if mv in rest {
        var p: nat :| Move(p, mv.to) in left && !Has(a.insertions, p) && mv.from == OldAt(a, p);
        assert Move(p, mv.to) in bm;
      }
    }
    forall mv
      ensures mv in kept ==> Has(a.deletions, mv.from)
      ensures mv in rest ==> !Has(a.deletions, mv.from)
    {
      if mv in kept {
        var p: nat :| Move(mv.from, p) in am && Goes(b, bm, p, mv.to);
        var i :| 0 <= i < |am| && am[i] == Move(mv.from, p);
      }
      if p: nat :| mv in rest && Move(p, mv.to) in left && !Has(a.insertions, p) && mv.from == OldAt(a, p) {
        Origin(a, p);
      }
    }
  }

  lemma {:induction false} LandedInside(a: Changes, am: seq<Move>, p: nat)
    requires MovesOk(a, am)
    ensures LandedOn(am, p) ==> Has(a.insertions, p)
  {
    hide Has;
    if m: nat :| Move(m, p) in am {
      var i :| 0 <= i < |am| && am[i] == Move(m, p);
    }
  }

  // ----- Modifications -----

  // A modified element is modified wherever it goes, unless it was new and is
  // taken along by a move.
  ghost predicate Follows(a: Changes, am: seq<Move>, b: Changes, bm: seq<Move>, p: nat, n: nat) {
    Moved(b, p, n) || (Move(p, n) in bm && (Has(a.insertions, p) ==> LandedOn(am, p)))
  }

  ghost predicate Followed(a: Changes, am: seq<Move>, b: Changes, bm: seq<Move>, modifications: seq<Range>) {
    forall n: nat :: Has(modifications, n) <==>
      Has(b.modifications, n) || exists p: nat :: Has(a.modifications, p) && Follows(a, am, b, bm, p, n)
  }

  // What was marked for moves in passing.
  ghost predicate Marked(modified: seq<Range>, moves: seq<Move>, before: seq<Range>, after: seq<Range>) {
    forall n: int :: Has(after, n) <==>
      Has(before, n) || exists mv :: mv in moves && Has(modified, mv.from) && mv.to == n
  }

  lemma {:induction false} NothingMarked(modified: seq<Range>, marks: seq<Range>)
    ensures Marked(modified, [], marks, marks)
  {
  }

  lemma {:induction false} MarkedOne(modified: seq<Range>, moves: seq<Move>, mv: Move, before: seq<Range>,
                                     now: seq<Range>,
                                     after: seq<Range>)
    requires Marked(modified, moves, before, now)
    requires forall y: int :: Has(after, y) <==> Has(now, y) || (Has(modified, mv.from) && y == mv.to)
    ensures Marked(modified, moves + [mv], before, after)
  {
    hide Has;
    forall n: int
      ensures Has(after, n) <==> Has(before, n) || exists x :: x in moves + [mv] && Has(modified, x.from) && x.to == n
    {
      if x :| x in moves && Has(modified, x.from) && x.to == n {
        assert x in moves + [mv];
      }
      if Has(modified, mv.from) && n == mv.to {
        assert mv in moves + [mv];
      }
    }
  }

  // The marks of the moves that carried old moves on, of the other new moves,
  // and of the elements that only shifted.
  lemma {:induction false} MarksFollow(a: Changes, am: seq<Move>, b: Changes, bm: seq<Move>, used: seq<Move>,
                                       rest: seq<Move>,
                                       first: seq<Range>, second: seq<Range>, after: seq<Range>)
    requires Proper(a) && Proper(b) && MovesOk(a, am)
    requires forall mv :: mv in used <==> mv in bm && LandedOn(am, mv.from)
    requires forall mv :: mv in rest <==> mv in bm && !LandedOn(am, mv.from) && !Has(a.insertions, mv.from)
    requires Marked(a.modifications, used, b.modifications, first) && Marked(a.modifications, rest, first, second)
    requires forall n: nat :: Has(after, n) <==>
               Has(second, n) || (!Has(b.insertions, n) && Has(a.modifications, OldAt(b, n)))
    ensures Followed(a, am, b, bm, after)
  {
    hide Has, Sorted, NewPosition, Moved;
    forall n: nat
      ensures Has(after, n) <==>
              Has(b.modifications, n) || exists p: nat :: Has(a.modifications, p) && Follows(a, am, b, bm, p, n)
    {
      MovedFrom(b, n);
      if mv :| mv in bm && mv.to == n && Has(a.modifications, mv.from) && (mv in used || mv in rest) {
        assert mv == Move(mv.from, n);
        assert Follows(a, am, b, bm, mv.from, n);
      }
      if !Has(b.insertions, n) && Has(a.modifications, OldAt(b, n)) {
        Origin(b, n);
        assert Follows(a, am, b, bm, OldAt(b, n), n);
      }
      if p: nat :| Has(a.modifications, p) && Follows(a, am, b, bm, p, n) {
        if !Moved(b, p, n) {
          assert Move(p, n) in used || Move(p, n) in rest;
        }
      }
    }
  }

  // ----- One change -----

  lemma {:induction false} OpenedAt(index: nat, count: nat, x: nat)
    requires count > 0
    ensures var b := Changes([], [Range(index, index + count)], []);
            !Has(b.deletions, x) && NewAt(b, x) == if index <= x then x + count else x
  {
    hide Has, Shifted, CountIn;
    NoPositions(x);
    OneRange(index, index + count, x);
  }

  lemma {:induction false} ClosedAt(index: nat, x: nat)
    ensures var b := Changes([Range(index, index + 1)], [], []);
            (Has(b.deletions, x) <==> x == index) && (x != index ==> NewAt(b, x) == if index < x then x - 1 else x)
  {
    hide Has, Shifted, CountIn;
    OneRange(index, index + 1, x);
    forall n: int
      ensures Shifted([], n) == n
    {
      NoPositions(n);
    }
  }

  // The moves go on to where a change set without moves takes their ends.
  lemma {:induction false} EndsOnly(a: Changes, am: seq<Move>, b: Changes, kept: seq<Move>)
    requires Proper(a) && MovesOk(a, am)
    requires Updated(am, b, [], kept, [])
    ensures MergedMoves(a, am, b, [], kept)
  {
    hide Has, Sorted, NewPosition, Goes;
    AllMoves(a, am, b, [], kept, [], []);
    assert kept + [] == kept;
  }

  // ----- Lists of moves -----

  // The last one takes the place of the one that is taken out.
  lemma {:induction false} TakenOut(ms: seq<Move>, at: nat, out: seq<Move>)
    requires at < |ms| && NoRepeat(ms) && out == ms[at := ms[|ms| - 1]][..|ms| - 1]
    ensures NoRepeat(out) && forall mv :: mv in out <==> mv in ms && mv != ms[at]
  {
    forall mv
      ensures mv in out <==> mv in ms && mv != ms[at]
    {
      if mv in ms && mv != ms[at] {
        var i :| 0 <= i < |ms| && ms[i] == mv;
        assert out[if i < |ms| - 1 then i else at] == mv;
      }
    }
  }

  // The one after the kept ones goes.
  lemma {:induction false} OneLess(c: Changes, kept: seq<Move>, x: Move, rest: seq<Move>)
    requires MovesOk(c, kept + [x] + rest)
    ensures MovesOk(c, kept + rest)
    ensures forall mv | mv in kept + rest :: mv.from != x.from && mv.to != x.to
    ensures forall mv :: mv in kept + rest <==> mv in kept + [x] + rest && mv != x
    ensures Move(x.from, x.to) in kept + [x] + rest && Has(c.deletions, x.from) && Has(c.insertions, x.to)
  {
    hide Has;
    var all := kept + [x] + rest;
    assert all[|kept|] == x;
    forall k | 0 <= k < |kept + rest|
      ensures (kept + rest)[k] == all[if k < |kept| then k else k + 1]
    {
    }
    forall mv
      ensures mv in kept + rest <==> mv in all && mv != x
    {
      if mv in all && mv != x {
        var i :| 0 <= i < |all| && all[i] == mv;
        assert (kept + rest)[if i < |kept| then i else i - 1] == mv;
      }
    }
  }

  // Moves of other elements stay moves when one is taken out of all three.
  lemma {:induction false} OthersStay(c: Changes, d: Changes, moves: seq<Move>, x: Move)
    requires MovesOk(c, moves) && forall mv | mv in moves :: mv.from != x.from && mv.to != x.to
    requires Without(c.deletions, d.deletions, x.from) && Without(c.insertions, d.insertions, x.to)
    ensures MovesOk(d, moves)
  {
    hide Has;
  }

  lemma {:induction false} RebasedIs(a: Changes, left: seq<Move>, there: seq<Move>, rest: seq<Move>)
    requires Proper(a) && NoRepeat(there) && |rest| == |there|
    requires forall mv :: mv in there <==> mv in left && !Has(a.insertions, mv.from)
    requires forall i | 0 <= i < |rest| :: rest[i].to == there[i].to && rest[i].from == OldAt(a, there[i].from)
    ensures Rebased(a, left, rest)
  {
    hide Has, Sorted, NewPosition;
    forall mv: Move
      ensures mv in rest <==> exists p: nat :: Move(p, mv.to) in left && !Has(a.insertions, p) && mv.from == OldAt(a, p)
    {
      if mv in rest {
        var i :| 0 <= i < |rest| && rest[i] == mv;
        assert there[i] == Move(there[i].from, mv.to) && there[i] in there;
      }
      if p: nat :| Move(p, mv.to) in left && !Has(a.insertions, p) && mv.from == OldAt(a, p) {
        var i :| 0 <= i < |there| && there[i] == Move(p, mv.to);
        assert rest[i] == mv;
      }
    }
    forall i, j | 0 <= i < j < |rest|
      ensures rest[i] != rest[j]
    {
      assert there[i] in there && there[j] in there;
      Origin(a, there[i].from);
      Origin(a, there[j].from);
    }
  }

  // ----- Empty change sets -----

  // Changes made nowhere take nothing anywhere.
  lemma {:induction false} ThenNothing(a: Changes, am: seq<Move>, b: Changes)
    requires Proper(a) && MovesOk(a, am) && b == Changes([], [], [])
    ensures forall m, n :: Goes(a, am, m, n) <==> Both(a, am, b, [], m, n)
    ensures Followed(a, am, b, [], a.modifications)
  {
    hide Has, Sorted, NewPosition;
    forall m: nat
      ensures NewAt(b, m) == m && !Has(b.deletions, m) && !Has(b.modifications, m)
    {
      StaysPut(b, m);
      NoPositions(m);
    }
    forall m, n
      ensures Goes(a, am, m, n) <==> Both(a, am, b, [], m, n)
    {
      if Goes(a, am, m, n) {
        if Moved(a, m, n) {
          Survivor(a, m);
        }
        assert Goes(b, [], n, n);
      }
    }
    forall n: nat
      ensures Has(a.modifications, n) <==>
              Has(b.modifications, n) || exists p: nat :: Has(a.modifications, p) && Follows(a, am, b, [], p, n)
    {
      assert Follows(a, am, b, [], n, n);
    }
  }

  lemma {:induction false} NothingThen(a: Changes, b: Changes, bm: seq<Move>)
    requires Proper(b) && MovesOk(b, bm) && a == Changes([], [], [])
    ensures forall m, n :: Goes(b, bm, m, n) <==> Both(a, [], b, bm, m, n)
    ensures Followed(a, [], b, bm, b.modifications)
  {
    hide Has, Sorted, NewPosition;
    forall m: nat
      ensures NewAt(a, m) == m && !Has(a.deletions, m) && !Has(a.modifications, m)
    {
      StaysPut(a, m);
      NoPositions(m);
    }
    forall m, n
      ensures Goes(b, bm, m, n) <==> Both(a, [], b, bm, m, n)
    {
      if Goes(b, bm, m, n) {
        assert Goes(a, [], m, m);
      }
    }
  }

  // ----- All steps of a merge -----

  // Where the moves kept and added take the elements, with the deletions and
  // insertions as they are before the clean-up.
  lemma {:induction false} MovesMerged(a: Changes, am: seq<Move>, b: Changes, bm: seq<Move>, c: Changes, cm: seq<Move>,
                                       i: seq<Range>)
    requires Proper(a) && Proper(b) && Proper(c) && MovesOk(a, am) && MovesOk(b, bm) && MergedMoves(a, am, b, bm, cm)
    requires forall y: int :: Has(c.deletions, y) <==>
               Has(a.deletions, y) || ShiftedInto(a.deletions, a.insertions, b.deletions, y)
    requires ErasedAt(a.insertions, b.deletions, i) && InsertedAt(i, b.insertions, c.insertions)
    ensures MovesOk(c, cm)
    ensures forall m, n :: Goes(c, cm, m, n) <==> Both(a, am, b, bm, m, n)
  {
    hide Has, Sorted, NewPosition, MergedMoves, MovesOk, ShiftedInto, InsertedAt, Merged;
    var a', b', c' := a.(modifications := []), b.(modifications := []), c.(modifications := []);
    forall n: int
      ensures !Has([], n)
    {
      NoPositions(n);
    }
    assert Proper(a') && Proper(b') && Proper(c') by {
      NothingSorted();
    }
    MergeSteps(a', b', c', i, [], []);
    SamePlaces(a, a', am);
    SamePlaces(b, b', bm);
    SamePlaces(c, c', cm);
    SameMergedMoves(a, a', am, b, b', bm, cm);
    MovesCompose(a', am, b', bm, c', cm);
    SameBoth(a, a', am, b, b', bm);
  }

  lemma {:induction false} NothingSorted()
    ensures Sorted([])
  {
  }

  // Modifications have no part in where an element goes.
  lemma {:induction false} SamePlaces(c: Changes, d: Changes, moves: seq<Move>)
    requires c.deletions == d.deletions && c.insertions == d.insertions
    ensures forall m, n :: Goes(c, moves, m, n) <==> Goes(d, moves, m, n)
    ensures MovesOk(c, moves) <==> MovesOk(d, moves)
  {
    hide Has, NewPosition;
  }

  lemma {:induction false} SameMergedMoves(a: Changes, a': Changes, am: seq<Move>, b: Changes, b': Changes,
                                           bm: seq<Move>,
                                           cm: seq<Move>)
    requires a.deletions == a'.deletions && a.insertions == a'.insertions
    requires forall m, n :: Goes(b, bm, m, n) <==> Goes(b', bm, m, n)
    requires MergedMoves(a, am, b, bm, cm)
    ensures MergedMoves(a', am, b', bm, cm)
  {
    hide Has, NewPosition, Goes;
    forall mv: Move
      ensures CarriedOn(am, b, bm, mv) <==> CarriedOn(am, b', bm, mv)
      ensures NewlyMoved(a, bm, mv) <==> NewlyMoved(a', bm, mv)
    {
      assert forall p :: OldAt(a, p) == OldAt(a', p);
    }
  }

  lemma {:induction false} SameBoth(a: Changes, a': Changes, am: seq<Move>, b: Changes, b': Changes, bm: seq<Move>)
    requires forall m, n :: Goes(a, am, m, n) <==> Goes(a', am, m, n)
    requires forall m, n :: Goes(b, bm, m, n) <==> Goes(b', bm, m, n)
    ensures forall m, n :: Both(a, am, b, bm, m, n) <==> Both(a', am, b', bm, m, n)
  {
    hide Goes;
  }

  // The modifications after the last three steps.
  lemma {:induction false} ModificationsMerged(a: Changes, b: Changes, marks: seq<Range>, m: seq<Range>, n: seq<Range>,
                                               after: seq<Range>)
    requires Proper(a) && Proper(b) && ErasedAt(a.modifications, b.deletions, m) && RoomMade(m, b.insertions, n)
    requires forall y: int :: Has(after, y) <==> Has(n, y) || Has(marks, y)
    ensures forall y: nat :: Has(after, y) <==>
              Has(marks, y) || (!Has(b.insertions, y) && Has(a.modifications, OldAt(b, y)))
  {
    hide Has, Sorted, Shifted, CountIn;
    forall y: nat
      ensures Has(n, y) <==> !Has(b.insertions, y) && Has(a.modifications, OldAt(b, y))
    {
      UnshiftMonotone(b.insertions, 0, y);
      var k: nat := Unshifted(b.insertions, y);
      assert Has(m, k) <==> Has(a.modifications, Shifted(b.deletions, k));
    }
  }

  // Without moves nothing is marked.
  lemma {:induction false} MergedWithoutMoves(a: Changes, b: Changes, c: Changes, i: seq<Range>, first: seq<Range>,
                                              second: seq<Range>)
    requires Proper(a) && Proper(b)
    requires forall y: int :: Has(c.deletions, y) <==>
               Has(a.deletions, y) || ShiftedInto(a.deletions, a.insertions, b.deletions, y)
    requires ErasedAt(a.insertions, b.deletions, i) && InsertedAt(i, b.insertions, c.insertions)
    requires Marked(a.modifications, [], b.modifications, first) && Marked(a.modifications, [], first, second)
    requires forall y: nat :: Has(c.modifications, y) <==>
               Has(second, y) || (!Has(b.insertions, y) && Has(a.modifications, OldAt(b, y)))
    ensures Merged(a, b, c)
  {
    hide Has, Sorted, Shifted, CountIn;
    forall y: nat
      ensures Has(c.insertions, y) <==> Has(b.insertions, y) || Has(a.insertions, OldAt(b, y))
      ensures Has(c.modifications, y) <==>
              Has(b.modifications, y) || (!Has(b.insertions, y) && Has(a.modifications, OldAt(b, y)))
    {
      UnshiftMonotone(b.insertions, 0, y);
      var k: nat := Unshifted(b.insertions, y);
      assert Has(i, k) <==> Has(a.insertions, Shifted(b.deletions, k));
    }
  }

  // ----- One element moves -----

  // The element at from goes to to; those between make room.
  function OneMove(from: nat, to: nat): Changes {
    Changes([Range(from, from + 1)], [Range(to, to + 1)], [])
  }

  lemma {:induction false} OneMoveAt(from: nat, to: nat, p: nat)
    ensures Has(OneMove(from, to).deletions, p) <==> p == from
    ensures Has(OneMove(from, to).insertions, p) <==> p == to
    ensures p != from ==> NewAt(OneMove(from, to), p) ==
                            if to <= p < from then p + 1 else if from < p <= to then p - 1 else p
    ensures p != to ==> OldAt(OneMove(from, to), p) ==
                            if from <= p < to then p + 1 else if to < p <= from then p - 1 else p
  {
    hide Has, Shifted, CountIn;
    OneRange(from, from + 1, p);
    OneRange(to, to + 1, p);
    if p > 0 {
      OneRange(from, from + 1, p - 1);
      OneRange(to, to + 1, p - 1);
    }
  }

  lemma {:induction false} OneMoveOk(from: nat, to: nat)
    ensures Proper(OneMove(from, to)) && MovesOk(OneMove(from, to), [Move(from, to)])
  {
    hide Has;
    OneMoveAt(from, to, from);
    OneMoveAt(from, to, to);
  }

  // What erasing from and inserting to leave in the three sets.
  lemma {:induction false} MergeMove(a: Changes, from: nat, to: nat, c: Changes, i: seq<Range>)
    requires Proper(a)
    requires forall y: int :: Has(i, y) <==> Closed(a.insertions, from, y)
    requires forall y: int :: Has(c.insertions, y) <==> Opened(i, to, 1, y) || y == to
    requires if Has(a.insertions, from) then c.deletions == a.deletions
             else forall y: int :: Has(c.deletions, y) <==>
                 Has(a.deletions, y) || y == Shifted(a.deletions, Unshifted(a.insertions, from))
    ensures Merged(a.(modifications := []), OneMove(from, to), c.(modifications := []))
  {
    hide Has, Sorted, Shifted, CountIn, NewPosition;
    var b := OneMove(from, to);
    forall n: int
      ensures !Has([], n)
    {
      NoPositions(n);
    }
    forall n: nat
      ensures Has(c.insertions, n) <==> Has(b.insertions, n) || Has(a.insertions, OldAt(b, n))
    {
      OneMoveAt(from, to, n);
    }
    forall m: nat
      ensures Has(c.deletions, m) <==> Has(a.deletions, m) || ShiftedInto(a.deletions, a.insertions, b.deletions, m)
    {
      ErasedOne(a, from, m);
    }
  }

  lemma {:induction false} MoveComposes(a: Changes, am: seq<Move>, from: nat, to: nat, c: Changes, cm: seq<Move>)
    requires Proper(a) && Proper(c) && MovesOk(a, am)
    requires Merged(a.(modifications := []), OneMove(from, to), c.(modifications := []))
    requires MergedMoves(a, am, OneMove(from, to), [Move(from, to)], cm)
    ensures MovesOk(c, cm)
    ensures forall m, n :: Goes(c, cm, m, n) <==> Both(a, am, OneMove(from, to), [Move(from, to)], m, n)
  {
    hide Has, Sorted, NewPosition, MergedMoves, MovesOk, Merged, OneMove;
    var a', b, bm, c' := a.(modifications := []), OneMove(from, to), [Move(from, to)], c.(modifications := []);
    NothingSorted();
    OneMoveOk(from, to);
    SamePlaces(a, a', am);
    SamePlaces(c, c', cm);
    SameMergedMoves(a, a', am, b, b, bm, cm);
    MovesCompose(a', am, b, bm, c', cm);
    SameBoth(a, a', am, b, b, bm);
  }

  // A modified element stays modified, moved or not.
  lemma {:induction false} MoveModified(before: seq<Range>, from: nat, to: nat, now: seq<Range>, after: seq<Range>)
    requires forall y: int :: Has(now, y) <==> Closed(before, from, y)
    requires forall y: int :: Has(after, y) <==> Opened(now, to, 1, y) || (y == to && Has(before, from))
    ensures forall n: nat :: Has(after, n) <==>
              exists p: nat :: Has(before, p) && Goes(OneMove(from, to), [Move(from, to)], p, n)
  {
    hide Has, NewPosition, OneMove;
    var b, bm := OneMove(from, to), [Move(from, to)];
    forall n: nat
      ensures Has(after, n) <==> exists p: nat :: Has(before, p) && Goes(b, bm, p, n)
    {
      if n == to {
        assert Goes(b, bm, from, to) by {
          assert Move(from, to) in bm;
        }
      } else {
        OneMoveAt(from, to, n);
        OneMoveOk(from, to);
        Origin(b, n);
        assert Goes(b, bm, OldAt(b, n), n);
      }
      forall p: nat
        ensures Goes(b, bm, p, n) ==> if n == to then p == from else p == OldAt(b, n)
      {
        OneMoveOk(from, to);
        OneMoveAt(from, to, n);
        OneMoveAt(from, to, p);
        if Moved(b, p, n) {
          Survivor(b, p);
        }
      }
    }
  }
}
