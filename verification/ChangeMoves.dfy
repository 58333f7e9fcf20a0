// Moves in a change set: an element that is both deleted at its old position
// and inserted at a new one. Where every element goes, over a merge and over the
// clean-up of moves that have become stale.
module ChangeMoves {
  import opened Ranges
  import opened CollectionChanges

  datatype Move = Move(from: nat, to: nat)

  // The element at m goes to n.
  ghost predicate Goes(c: Changes, moves: seq<Move>, m: int, n: int) {
    Moved(c, m, n) || (m >= 0 && n >= 0 && Move(m, n) in moves)
  }

  // Each move leaves a deleted position for an inserted one, all different.
  ghost predicate MovesOk(c: Changes, moves: seq<Move>) {
    && (forall i | 0 <= i < |moves| :: Has(c.deletions, moves[i].from) && Has(c.insertions, moves[i].to))
    && (forall i, j | 0 <= i < j < |moves| :: moves[i].from != moves[j].from && moves[i].to != moves[j].to)
  }

  lemma {:induction false} OneWay(c: Changes, moves: seq<Move>, m: int, n: int, k: int, l: int)
    requires Proper(c) && MovesOk(c, moves) && Goes(c, moves, m, n) && Goes(c, moves, k, l)
    ensures m == k <==> n == l
  {
    hide Has, Sorted, NewPosition;
    if Moved(c, m, n) {
      Survivor(c, m);
    }
    if Moved(c, k, l) {
      Survivor(c, k);
    }
  }

  // A position that is not new is where some element went.
  lemma {:induction false} ComesFrom(c: Changes, moves: seq<Move>, n: nat)
    requires Proper(c) && MovesOk(c, moves)
    ensures (exists m :: Goes(c, moves, m, n)) <==>
              !Has(c.insertions, n) || exists i :: 0 <= i < |moves| && moves[i].to == n
  {
    hide Has, Sorted, NewPosition;
    if !Has(c.insertions, n) {
      Origin(c, n);
      assert Goes(c, moves, OldAt(c, n), n);
    }
    if i: nat :| i < |moves| && moves[i].to == n {
      assert Goes(c, moves, moves[i].from, n);
    }
    if m :| Goes(c, moves, m, n) {
      if Moved(c, m, n) {
        Survivor(c, m);
      } else {
        var i :| 0 <= i < |moves| && moves[i] == Move(m, n);
      }
    }
  }

  // ----- Merging -----

  // An old move, carried on by the second change set.
  ghost predicate CarriedOn(am: seq<Move>, b: Changes, bm: seq<Move>, mv: Move) {
    exists p: nat :: Move(mv.from, p) in am && Goes(b, bm, p, mv.to)
  }

  // A move of the second change set of an element the first only shifted.
  ghost predicate NewlyMoved(a: Changes, bm: seq<Move>, mv: Move) {
    exists p: nat :: Move(p, mv.to) in bm && !Has(a.insertions, p) && mv.from == OldAt(a, p)
  }

  ghost predicate MergedMoves(a: Changes, am: seq<Move>, b: Changes, bm: seq<Move>, cm: seq<Move>) {
    && (forall mv: Move :: mv in cm <==> CarriedOn(am, b, bm, mv) || NewlyMoved(a, bm, mv))
    && (forall i, j | 0 <= i < j < |cm| :: cm[i] != cm[j])
  }

  ghost predicate Both(a: Changes, am: seq<Move>, b: Changes, bm: seq<Move>, m: int, n: int) {
    exists p: int :: Goes(a, am, m, p) && Goes(b, bm, p, n)
  }

  // With moves too, an element goes where both change sets take it in turn.
  lemma {:induction false} MovesCompose(a: Changes, am: seq<Move>, b: Changes, bm: seq<Move>, c: Changes, cm: seq<Move>)
    requires Proper(a) && Proper(b) && Proper(c) && Merged(a, b, c)
    requires MovesOk(a, am) && MovesOk(b, bm) && MergedMoves(a, am, b, bm, cm)
    ensures forall m, n :: Goes(c, cm, m, n) <==> Both(a, am, b, bm, m, n)
    ensures MovesOk(c, cm)
  {
    hide Has, Sorted, NewPosition, Merged, Goes, Both, MovesOk, MergedMoves;
    forall m, n
      ensures Goes(c, cm, m, n) <==> Both(a, am, b, bm, m, n)
    {
      if Goes(c, cm, m, n) {
        GoesByBoth(a, am, b, bm, c, cm, m, n);
      }
      if Both(a, am, b, bm, m, n) {
        BothGo(a, am, b, bm, c, cm, m, n);
      }
    }
    StillMoves(a, am, b, bm, c, cm);
  }

  lemma {:induction false} GoesByBoth(a: Changes, am: seq<Move>, b: Changes, bm: seq<Move>, c: Changes, cm: seq<Move>,
                                      m: int, n: int)
    requires Proper(a) && Proper(b) && Proper(c) && Merged(a, b, c)
    requires MovesOk(a, am) && MovesOk(b, bm) && MergedMoves(a, am, b, bm, cm) && Goes(c, cm, m, n)
    ensures Both(a, am, b, bm, m, n)
  {
    hide Has, Sorted, NewPosition, Merged, MovesOk;
    if Moved(c, m, n) {
      MergedSurvivor(a, b, c, m);
      MergeIsComposition(a, b, c);
      Survivor(a, m);
      assert NewAt(c, m) == NewAt(b, NewAt(a, m));
      assert Goes(a, am, m, NewAt(a, m)) && Goes(b, bm, NewAt(a, m), n);
    } else {
      var mv := Move(m, n);
      if CarriedOn(am, b, bm, mv) {
        var p: nat :| Move(mv.from, p) in am && Goes(b, bm, p, mv.to);
        assert Goes(a, am, m, p);
      } else {
        var p: nat :| Move(p, mv.to) in bm && !Has(a.insertions, p) && mv.from == OldAt(a, p);
        Origin(a, p);
        assert Goes(a, am, m, p) && Goes(b, bm, p, n);
      }
    }
  }

  lemma {:induction false} BothGo(a: Changes, am: seq<Move>, b: Changes, bm: seq<Move>, c: Changes, cm: seq<Move>,
                                  m: int, n: int)
    requires Proper(a) && Proper(b) && Proper(c) && Merged(a, b, c)
    requires MovesOk(a, am) && MovesOk(b, bm) && MergedMoves(a, am, b, bm, cm) && Both(a, am, b, bm, m, n)
    ensures Goes(c, cm, m, n)
  {
    hide Has, Sorted, NewPosition, Merged, MovesOk;
    var p :| Goes(a, am, m, p) && Goes(b, bm, p, n);
    if Moved(a, m, p) {
      Survivor(a, m);
      if Moved(b, p, n) {
        Survivor(b, p);
        MergedSurvivor(a, b, c, m);
        MergeIsComposition(a, b, c);
        assert NewAt(c, m) == NewAt(b, NewAt(a, m));
      } else {
        assert NewlyMoved(a, bm, Move(m, n));
      }
    } else {
      if Moved(b, p, n) {
        Survivor(b, p);
      }
      assert CarriedOn(am, b, bm, Move(m, n));
    }
  }

  lemma {:induction false} StillMoves(a: Changes, am: seq<Move>, b: Changes, bm: seq<Move>, c: Changes, cm: seq<Move>)
    requires Proper(a) && Proper(b) && Proper(c) && Merged(a, b, c)
    requires MovesOk(a, am) && MovesOk(b, bm) && MergedMoves(a, am, b, bm, cm)
    ensures MovesOk(c, cm)
  {
    hide Has, Sorted, NewPosition, Merged, CarriedOn, NewlyMoved;
    forall i | 0 <= i < |cm|
      ensures Has(c.deletions, cm[i].from) && Has(c.insertions, cm[i].to)
    {
      MoveInside(a, am, b, bm, c, cm[i]);
    }
    forall i, j | 0 <= i < j < |cm|
      ensures cm[i].from != cm[j].from && cm[i].to != cm[j].to
    {
      TwoMoves(a, am, b, bm, cm, cm[i], cm[j]);
    }
  }

  lemma {:induction false} MoveInside(a: Changes, am: seq<Move>, b: Changes, bm: seq<Move>, c: Changes, mv: Move)
    requires Proper(a) && Proper(b) && Proper(c) && Merged(a, b, c) && MovesOk(a, am) && MovesOk(b, bm)
    requires CarriedOn(am, b, bm, mv) || NewlyMoved(a, bm, mv)
    ensures Has(c.deletions, mv.from) && Has(c.insertions, mv.to)
  {
    hide Has, Sorted, NewPosition;
    if CarriedOn(am, b, bm, mv) {
      var p: nat :| Move(mv.from, p) in am && Goes(b, bm, p, mv.to);
      assert Has(a.deletions, mv.from) && Has(a.insertions, p);
      if Moved(b, p, mv.to) {
        Survivor(b, p);
      }
    } else {
      var p: nat :| Move(p, mv.to) in bm && !Has(a.insertions, p) && mv.from == OldAt(a, p);
      Origin(a, p);
      MergedSurvivor(a, b, c, mv.from);
    }
  }

  lemma {:induction false} TwoMoves(a: Changes, am: seq<Move>, b: Changes, bm: seq<Move>, cm: seq<Move>, x: Move,
                                    y: Move)
    requires Proper(a) && Proper(b) && MovesOk(a, am) && MovesOk(b, bm) && MergedMoves(a, am, b, bm, cm)
    requires x in cm && y in cm && x != y
    ensures x.from != y.from && x.to != y.to
  {
    hide Has, Sorted, NewPosition, MovesOk;
    var p, q := Between(a, am, b, bm, x), Between(a, am, b, bm, y);
    OneWay(a, am, x.from, p, y.from, q);
    OneWay(b, bm, p, x.to, q, y.to);
  }

  // The position of a moved element between the two change sets.
  ghost function Between(a: Changes, am: seq<Move>, b: Changes, bm: seq<Move>, mv: Move): (p: nat)
    requires Proper(a) && (CarriedOn(am, b, bm, mv) || NewlyMoved(a, bm, mv))
    ensures Goes(a, am, mv.from, p) && Goes(b, bm, p, mv.to)
  {
    if CarriedOn(am, b, bm, mv) then
      var p: nat :| Move(mv.from, p) in am && Goes(b, bm, p, mv.to);
      p
    else
      var p: nat :| Move(p, mv.to) in bm && !Has(a.insertions, p) && mv.from == OldAt(a, p);
      Origin(a, p);
      p
  }

  // ----- Stale moves -----

  ghost predicate Without(before: seq<Range>, after: seq<Range>, x: nat) {
    forall y: int :: Has(after, y) <==> Has(before, y) && y != x
  }

  lemma {:induction false} CountWithout(before: seq<Range>, after: seq<Range>, x: nat, y: int)
    requires Sorted(before) && Sorted(after) && Has(before, x) && Without(before, after, x) && y >= 0
    ensures Unshifted(after, y) == Unshifted(before, y) + if x < y then 1 else 0
  {
    hide Has, Sorted, CountIn;
    CountIsCardinality(before, 0, y);
    CountIsCardinality(after, 0, y);
    assert Members(after, 0, y) == Members(before, 0, y) - {x as int};
  }

  // A move is stale if as many elements survive before its old position as
  // there are survivors before its new one: then the element has not moved.
  lemma {:induction false} StaleElement(c: Changes, d: Changes, from: nat, to: nat, m: int)
    requires Proper(c) && Proper(d) && Has(c.deletions, from) && Has(c.insertions, to)
    requires Without(c.deletions, d.deletions, from) && Without(c.insertions, d.insertions, to)
    requires Unshifted(c.deletions, from) == Unshifted(c.insertions, to)
    requires m >= 0 && !Has(d.deletions, m)
    ensures NewAt(d, m) == if m == from then to else NewAt(c, m)
  {
    hide Has, Sorted, CountIn, Shifted;
    var n := if m == from then to else NewAt(c, m);
    if m != from {
      Survivor(c, m);
      UnshiftMonotone(c.deletions, 0, m);
      ShiftExact(c.insertions, Unshifted(c.deletions, m));
      assert Unshifted(c.insertions, n) == Unshifted(c.deletions, m);
      SameSide(c.deletions, from, m);
      SameSide(c.insertions, to, n);
    }
    CountWithout(c.deletions, d.deletions, from, m);
    CountWithout(c.insertions, d.insertions, to, n);
    assert !Has(d.insertions, n);
    ShiftInverse(d.insertions, n);
  }

  // A free position lies behind a member exactly if it has no smaller rank.
  lemma {:induction false} SameSide(rs: seq<Range>, x: nat, y: int)
    requires Sorted(rs) && Has(rs, x) && y >= 0 && !Has(rs, y)
    ensures x < y <==> Unshifted(rs, x) <= Unshifted(rs, y)
  {
    hide Has, Sorted, CountIn;
    if x < y {
      UnshiftMonotone(rs, x, y);
    } else {
      UnshiftMonotone(rs, y, x);
    }
  }

  // As many elements survive before its old position as before its new one.
  ghost predicate Stale(c: Changes, mv: Move) {
    Unshifted(c.deletions, mv.from) == Unshifted(c.insertions, mv.to)
  }

  // Taking a stale move out of all three changes nothing for any element.
  lemma {:induction false} StaleMoves(c: Changes, d: Changes, before: seq<Move>, after: seq<Move>, from: nat, to: nat)
    requires Proper(c) && Proper(d) && MovesOk(c, before) && Move(from, to) in before
    requires forall mv :: mv in after <==> mv in before && mv != Move(from, to)
    requires Without(c.deletions, d.deletions, from) && Without(c.insertions, d.insertions, to)
    requires Unshifted(c.deletions, from) == Unshifted(c.insertions, to)
    ensures forall m, n :: Goes(d, after, m, n) <==> Goes(c, before, m, n)
  {
    hide Has, Sorted, NewPosition;
    forall m, n
      ensures Goes(d, after, m, n) <==> Goes(c, before, m, n)
    {
      if m >= 0 && !Has(d.deletions, m) {
        StaleElement(c, d, from, to, m);
      }
    }
  }

  // No stale move comes into being when one is taken out.
  lemma {:induction false} StaysReal(c: Changes, d: Changes, from: nat, to: nat, mv: Move)
    requires Proper(c) && Proper(d) && mv.from != from && mv.to != to
    requires Has(c.deletions, from) && Has(c.insertions, to)
    requires Has(c.deletions, mv.from) && Has(c.insertions, mv.to)
    requires Without(c.deletions, d.deletions, from) && Without(c.insertions, d.insertions, to)
    requires Stale(c, Move(from, to)) && !Stale(c, mv)
    ensures !Stale(d, mv)
  {
    hide Has, Sorted, Unshifted;
    CountWithout(c.deletions, d.deletions, from, mv.from);
    CountWithout(c.insertions, d.insertions, to, mv.to);
    if from < mv.from {
      UnshiftMonotone(c.deletions, from, mv.from);
    } else {
      UnshiftMonotone(c.deletions, mv.from, from);
    }
    if to < mv.to {
      UnshiftMonotone(c.insertions, to, mv.to);
    } else {
      UnshiftMonotone(c.insertions, mv.to, to);
    }
  }
}
