// The merges of insert_at(positions), erase_at(positions) and add_shifted_by,
// pushing indices and ranges into a builder.
module IndexMerging {
  import opened Ranges
  import opened Chunks
  import opened ChunkedVector
  import opened RangeEdits
  import opened IndexMerge
  import opened Builders
  import opened ShiftedAdd

  // Old members and inserted positions in ascending order.
  method MergeInserted(chunks: seq<Chunk>, positions: seq<Chunk>) returns (result: seq<Chunk>)
    requires NonEmpty(chunks) && NonEmpty(positions) && Sorted(Flat(chunks)) && Sorted(Flat(positions))
    ensures ChunksOk(result) && Sorted(Flat(result)) && InsertedAt(Flat(chunks), Flat(positions), Flat(result))
  {
    hide Flat, Sorted, ChunksOk, NonEmpty, Has, Indices, Run, IndexIterator.Rest, IndexIterator.Valid,
      IndexIterator.AtEnd,
      ChunkedRangeVectorBuilder.Ready, ChunkedRangeVectorBuilder.Ranges, Inserting, InsertedAt;
    ghost var f, g := Flat(chunks), Flat(positions);
    var begin1 := StartIndices(chunks);
    var begin2 := StartIndices(positions);
    var builder := new ChunkedRangeVectorBuilder(chunks);
    var shift := 0;
    ghost var ca: seq<nat>, cb: seq<nat> := [], [];
    InsertStart(f, g);
    while !begin1.AtEnd() && !begin2.AtEnd()
      invariant fresh(begin1) && fresh(begin1.it) && fresh(begin2) && fresh(begin2.it) && fresh(builder)
      invariant begin1 != begin2 && begin1.it != begin2.it
      invariant begin1.Valid() && begin2.Valid() && builder.Ready()
      invariant shift == |cb| && Inserting(f, g, ca, begin1.Rest(), cb, begin2.Rest(), builder.Ranges())
      decreases |begin1.Rest()| + |begin2.Rest()|
    {
      var a := begin1.Get();
      var b := begin2.Get();
      if a + shift < b {
        PushOld(begin1, builder, shift, f, g, ca, cb, begin2.Rest());
        ca := ca + [a];
      } else {
        shift := shift + 1;
        PushNew(begin2, builder, f, g, ca, begin1.Rest(), cb);
        cb := cb + [b];
      }
    }
    while !begin1.AtEnd()
      invariant fresh(begin1) && fresh(begin1.it) && fresh(begin2) && fresh(begin2.it) && fresh(builder)
      invariant begin1 != begin2 && begin1.it != begin2.it
      invariant begin1.Valid() && begin2.Valid() && builder.Ready() && (begin1.AtEnd() || begin2.AtEnd())
      invariant shift == |cb| && Inserting(f, g, ca, begin1.Rest(), cb, begin2.Rest(), builder.Ranges())
      decreases |begin1.Rest()|
    {
      ghost var a := begin1.Rest()[0];
      PushOld(begin1, builder, shift, f, g, ca, cb, []);
      ca := ca + [a];
    }
    while !begin2.AtEnd()
      invariant fresh(begin2) && fresh(begin2.it) && fresh(builder)
      invariant begin2.Valid() && builder.Ready()
      invariant Inserting(f, g, ca, [], cb, begin2.Rest(), builder.Ranges())
      decreases |begin2.Rest()|
    {
      ghost var b := begin2.Rest()[0];
      PushNew(begin2, builder, f, g, ca, [], cb);
      cb := cb + [b];
    }
    InsertEnd(f, g, ca, cb, builder.Ranges());
    builder.ReadyFacts();
    result := builder.Finalize();
  }

  // Old members moved up by the positions before them.
  method MergeRoomMade(chunks: seq<Chunk>, positions: seq<Chunk>) returns (result: seq<Chunk>)
    requires NonEmpty(chunks) && NonEmpty(positions) && Sorted(Flat(chunks)) && Sorted(Flat(positions))
    ensures ChunksOk(result) && Sorted(Flat(result)) && RoomMade(Flat(chunks), Flat(positions), Flat(result))
  {
    hide Flat, Sorted, ChunksOk, NonEmpty, Has, Indices, Run, IndexIterator.Rest, IndexIterator.Valid,
      IndexIterator.AtEnd,
      ChunkedRangeVectorBuilder.Ready, ChunkedRangeVectorBuilder.Ranges, MakingRoom, RoomMade;
    ghost var f, g := Flat(chunks), Flat(positions);
    var begin1 := StartIndices(chunks);
    var begin2 := StartIndices(positions);
    var builder := new ChunkedRangeVectorBuilder(chunks);
    var shift := 0;
    ghost var ca: seq<nat>, cb: seq<nat> := [], [];
    RoomStart(f, g);
    while !begin1.AtEnd() && !begin2.AtEnd()
      invariant fresh(begin1) && fresh(begin1.it) && fresh(begin2) && fresh(begin2.it) && fresh(builder)
      invariant begin1 != begin2 && begin1.it != begin2.it
      invariant begin1.Valid() && begin2.Valid() && builder.Ready()
      invariant shift == |cb| && MakingRoom(f, g, ca, begin1.Rest(), cb, begin2.Rest(), builder.Ranges())
      decreases |begin1.Rest()| + |begin2.Rest()|
    {
      var a := begin1.Get();
      var b := begin2.Get();
      if a + shift < b {
        PushMoved(begin1, builder, shift, f, g, ca, cb, begin2.Rest());
        ca := ca + [a];
      } else {
        RoomSkip(f, g, ca, begin1.Rest(), cb, begin2.Rest(), builder.Ranges());
        shift := shift + 1;
        begin2.Advance();
        cb := cb + [b];
      }
    }
    while !begin1.AtEnd()
      invariant fresh(begin1) && fresh(begin1.it) && fresh(builder) && begin1 != begin2 && begin1.it != begin2.it
      invariant begin1.Valid() && begin2.Valid() && builder.Ready() && (begin1.AtEnd() || begin2.AtEnd())
      invariant shift == |cb| && MakingRoom(f, g, ca, begin1.Rest(), cb, begin2.Rest(), builder.Ranges())
      decreases |begin1.Rest()|
    {
      ghost var a := begin1.Rest()[0];
      PushMoved(begin1, builder, shift, f, g, ca, cb, begin2.Rest());
      ca := ca + [a];
    }
    RoomEnd(f, g, ca, cb, begin2.Rest(), builder.Ranges());
    builder.ReadyFacts();
    result := builder.Finalize();
  }

  // The members outside the erased positions.
  method MergeErased(chunks: seq<Chunk>, positions: seq<Chunk>) returns (result: seq<Chunk>)
    requires NonEmpty(chunks) && NonEmpty(positions) && Sorted(Flat(chunks)) && Sorted(Flat(positions))
    ensures ChunksOk(result) && Sorted(Flat(result)) && ErasedAt(Flat(chunks), Flat(positions), Flat(result))
  {
    hide Flat, Sorted, ChunksOk, NonEmpty, Has, Indices, Run, IndexIterator.Rest, IndexIterator.Valid,
      IndexIterator.AtEnd,
      ChunkedRangeVectorBuilder.Ready, ChunkedRangeVectorBuilder.Ranges, Erasing, ErasedAt;
    ghost var f, g := Flat(chunks), Flat(positions);
    var builder := new ChunkedRangeVectorBuilder(chunks);
    var begin1 := StartIndices(chunks);
    var begin2 := StartIndices(positions);
    var shift := 0;
    ghost var ca: seq<nat>, cb: seq<nat> := [], [];
    EraseStart(f, g);
    while !begin1.AtEnd() && !begin2.AtEnd()
      invariant fresh(begin1) && fresh(begin1.it) && fresh(begin2) && fresh(begin2.it) && fresh(builder)
      invariant begin1 != begin2 && begin1.it != begin2.it
      invariant begin1.Valid() && begin2.Valid() && builder.Ready()
      invariant shift == |cb| && Erasing(f, g, ca, begin1.Rest(), cb, begin2.Rest(), builder.Ranges())
      decreases |begin1.Rest()| + |begin2.Rest()|
    {
      ghost var ra, rb, built := begin1.Rest(), begin2.Rest(), builder.Ranges();
      var a := begin1.Get();
      var b := begin2.Get();
      if a < b {
        PushKept(begin1, builder, shift, f, g, ca, cb, rb);
        ca := ca + [a];
      } else if a == b {
        shift := shift + 1;
        begin1.Advance();
        begin2.Advance();
        EraseSkip(f, g, ca, ra, cb, rb, built);
        ca, cb := ca + [a], cb + [b];
      } else {
        shift := shift + 1;
        begin2.Advance();
        EraseDrop(f, g, ca, ra, cb, rb, built);
        cb := cb + [b];
      }
    }
    while !begin1.AtEnd()
      invariant fresh(begin1) && fresh(begin1.it) && fresh(builder) && begin1 != begin2 && begin1.it != begin2.it
      invariant begin1.Valid() && begin2.Valid() && builder.Ready() && (begin1.AtEnd() || begin2.AtEnd())
      invariant shift == |cb| && Erasing(f, g, ca, begin1.Rest(), cb, begin2.Rest(), builder.Ranges())
      decreases |begin1.Rest()|
    {
      ghost var a := begin1.Rest()[0];
      PushKept(begin1, builder, shift, f, g, ca, cb, begin2.Rest());
      ca := ca + [a];
    }
    EraseEnd(f, g, ca, cb, begin2.Rest(), builder.Ranges());
    builder.ReadyFacts();
    result := builder.Finalize();
  }

  // One step of a merge: an old member moved up by the positions passed.
  method PushOld(begin: IndexIterator, builder: ChunkedRangeVectorBuilder, shift: nat,
                 ghost f: seq<Range>, ghost g: seq<Range>, ghost ca: seq<nat>, ghost cb: seq<nat>, ghost rb: seq<nat>)
    requires Sorted(f) && Sorted(g) && begin.Valid() && !begin.AtEnd() && builder.Ready() && shift == |cb|
    requires Inserting(f, g, ca, begin.Rest(), cb, rb, builder.Ranges())
    requires begin.Rest() != [] && (rb != [] ==> begin.Rest()[0] + shift < rb[0])
    modifies begin, begin.it, builder
    ensures begin.Valid() && builder.Ready() && begin.Rest() == old(begin.Rest())[1..]
    ensures Inserting(f, g, ca + [old(begin.Rest())[0]], begin.Rest(), cb, rb, builder.Ranges())
  {
    hide Flat, Sorted, ChunksOk, NonEmpty, Has, Indices, Run, IndexIterator.Rest, IndexIterator.Valid,
      IndexIterator.AtEnd,
      ChunkedRangeVectorBuilder.Ready, ChunkedRangeVectorBuilder.Ranges, Inserting;
    ghost var ra, built := begin.Rest(), builder.Ranges();
    InsertBound(f, g, ca, ra, cb, rb, built);
    var a := begin.Get();
    builder.PushIndex(a + shift);
    begin.Advance();
    InsertOld(f, g, ca, ra, cb, rb, built, builder.Ranges());
  }

  // One of the inserted positions.
  method PushNew(begin: IndexIterator, builder: ChunkedRangeVectorBuilder,
                 ghost f: seq<Range>, ghost g: seq<Range>, ghost ca: seq<nat>, ghost ra: seq<nat>, ghost cb: seq<nat>)
    requires Sorted(f) && Sorted(g) && begin.Valid() && !begin.AtEnd() && builder.Ready()
    requires Inserting(f, g, ca, ra, cb, begin.Rest(), builder.Ranges())
    requires begin.Rest() != [] && (ra != [] ==> begin.Rest()[0] <= ra[0] + |cb|)
    modifies begin, begin.it, builder
    ensures begin.Valid() && builder.Ready() && begin.Rest() == old(begin.Rest())[1..]
    ensures Inserting(f, g, ca, ra, cb + [old(begin.Rest())[0]], begin.Rest(), builder.Ranges())
  {
    hide Flat, Sorted, ChunksOk, NonEmpty, Has, Indices, Run, IndexIterator.Rest, IndexIterator.Valid,
      IndexIterator.AtEnd,
      ChunkedRangeVectorBuilder.Ready, ChunkedRangeVectorBuilder.Ranges, Inserting;
    ghost var rb, built := begin.Rest(), builder.Ranges();
    InsertBound(f, g, ca, ra, cb, rb, built);
    var b := begin.Get();
    builder.PushIndex(b);
    begin.Advance();
    InsertNew(f, g, ca, ra, cb, rb, built, builder.Ranges());
  }

  // The same when the positions do not become members.
  method PushMoved(begin: IndexIterator, builder: ChunkedRangeVectorBuilder, shift: nat,
                   ghost f: seq<Range>, ghost g: seq<Range>, ghost ca: seq<nat>, ghost cb: seq<nat>, ghost rb: seq<nat>)
    requires Sorted(f) && Sorted(g) && begin.Valid() && !begin.AtEnd() && builder.Ready() && shift == |cb|
    requires MakingRoom(f, g, ca, begin.Rest(), cb, rb, builder.Ranges())
    requires begin.Rest() != [] && (rb != [] ==> begin.Rest()[0] + shift < rb[0])
    modifies begin, begin.it, builder
    ensures begin.Valid() && builder.Ready() && begin.Rest() == old(begin.Rest())[1..]
    ensures MakingRoom(f, g, ca + [old(begin.Rest())[0]], begin.Rest(), cb, rb, builder.Ranges())
  {
    hide Flat, Sorted, ChunksOk, NonEmpty, Has, Indices, Run, IndexIterator.Rest, IndexIterator.Valid,
      IndexIterator.AtEnd,
      ChunkedRangeVectorBuilder.Ready, ChunkedRangeVectorBuilder.Ranges, MakingRoom;
    ghost var ra, built := begin.Rest(), builder.Ranges();
    RoomBound(f, g, ca, ra, cb, rb, built);
    var a := begin.Get();
    builder.PushIndex(a + shift);
    begin.Advance();
    RoomOld(f, g, ca, ra, cb, rb, built, builder.Ranges());
  }

  // A member that is not erased moved down by the positions passed.
  method PushKept(begin: IndexIterator, builder: ChunkedRangeVectorBuilder, shift: nat,
                  ghost f: seq<Range>, ghost g: seq<Range>, ghost ca: seq<nat>, ghost cb: seq<nat>, ghost rb: seq<nat>)
    requires Sorted(f) && Sorted(g) && begin.Valid() && !begin.AtEnd() && builder.Ready() && shift == |cb|
    requires Erasing(f, g, ca, begin.Rest(), cb, rb, builder.Ranges())
    requires begin.Rest() != [] && (rb != [] ==> begin.Rest()[0] < rb[0])
    modifies begin, begin.it, builder
    ensures begin.Valid() && builder.Ready() && begin.Rest() == old(begin.Rest())[1..]
    ensures Erasing(f, g, ca + [old(begin.Rest())[0]], begin.Rest(), cb, rb, builder.Ranges())
  {
    hide Flat, Sorted, ChunksOk, NonEmpty, Has, Indices, Run, IndexIterator.Rest, IndexIterator.Valid,
      IndexIterator.AtEnd,
      ChunkedRangeVectorBuilder.Ready, ChunkedRangeVectorBuilder.Ranges, Erasing;
    ghost var ra, built := begin.Rest(), builder.Ranges();
    ErasePlace(f, g, ca, ra, cb, rb, built);
    var a := begin.Get();
    builder.PushIndex(a - shift);
    begin.Advance();
    ErasePush(f, g, ca, ra, cb, rb, built, builder.Ranges());
  }

  // ----- add_shifted_by -----

  // The ranges of the result are right; the counts of its chunks are wrong
  // exactly if a copied range overruns the reserved chunks.
  method MergeShifted(chunks: seq<Chunk>, shiftedBy: seq<Chunk>, values: seq<Chunk>) returns (result: seq<Chunk>)
    requires NonEmpty(chunks) && NonEmpty(shiftedBy) && NonEmpty(values)
    requires Sorted(Flat(chunks)) && Sorted(Flat(shiftedBy)) && Sorted(Flat(values))
    ensures var xs := Targets(Flat(chunks), Flat(shiftedBy), Indices(Flat(values)));
            && Flat(result) == AddAll(Flat(chunks), xs)
            && (ChunksOk(result) <==> !Overruns(Flat(chunks), AddAll(Flat(chunks), xs), Last(xs)))
  {
    hide Flat, Sorted, ChunksOk, NonEmpty, Has, Indices, Total, Targets, Overruns, AddAll, CountsRight, Place, Copying,
      ChunkedRangeVectorBuilder.Ready, ChunkedRangeVectorBuilder.Valid, ChunkedRangeVectorBuilder.Ranges;
    ghost var f, g := Flat(chunks), Flat(shiftedBy);
    var builder := new ChunkedRangeVectorBuilder(chunks);
    var oldIt := PushTargets(chunks, shiftedBy, values, builder);
    CopyRest(chunks, oldIt, builder, Targets(f, g, Indices(Flat(values))));
    CopyDone(f, g, Flat(values), builder.Ranges());
    result := builder.Finalize();
  }

  // The targets of all values, and the old ranges before them.
  method PushTargets(chunks: seq<Chunk>, shiftedBy: seq<Chunk>, values: seq<Chunk>,
                     builder: ChunkedRangeVectorBuilder) returns (oldIt: Cursor)
    requires NonEmpty(chunks) && NonEmpty(shiftedBy) && NonEmpty(values)
    requires Sorted(Flat(chunks)) && Sorted(Flat(shiftedBy)) && Sorted(Flat(values))
    requires builder.Ready() && builder.Ranges() == []
    modifies builder
    ensures builder.Ready() && OnPath(chunks, oldIt) && Place(chunks, oldIt) <= |Flat(chunks)|
    ensures var xs := Targets(Flat(chunks), Flat(shiftedBy), Indices(Flat(values)));
            && Copying(Flat(chunks), xs, Place(chunks, oldIt), builder.Ranges())
            && !Overruns(Flat(chunks), builder.Ranges(), Last(xs))
  {
    hide Flat, Sorted, NonEmpty, Has, Indices, Run, Total, Targets, Overruns, Place, Stage, Copying,
      IndexIterator.Rest, IndexIterator.Valid, IndexIterator.AtEnd, ChunkedRangeVectorBuilder.Ready,
          ChunkedRangeVectorBuilder.Ranges;
    ghost var f, g, all := Flat(chunks), Flat(shiftedBy), Indices(Flat(values));
    BeginPlace(chunks);
    BeginPlace(shiftedBy);
    oldIt := Begin(chunks);
    var shiftIt := Begin(shiftedBy);
    var skipUntil: nat, oldShift: int, newShift: int := 0, 0, 0;
    var indices := StartIndices(values);
    ghost var done: seq<nat> := [];
    StageStart(f, g, all);
    while !indices.AtEnd()
      invariant fresh(indices) && fresh(indices.it) && indices.Valid() && builder.Ready()
      invariant OnPath(chunks, oldIt) && OnPath(shiftedBy, shiftIt)
      invariant Stage(f, g, all, done, indices.Rest(), Place(chunks, oldIt), Place(shiftedBy, shiftIt),
                builder.Ranges(), oldShift, newShift, skipUntil)
      decreases |indices.Rest()|
    {
      ghost var rest := indices.Rest();
      var index := indices.Get();
      oldIt, oldShift, shiftIt, newShift, skipUntil :=
        ShiftedStep(chunks, oldIt, oldShift, shiftedBy, shiftIt, newShift, skipUntil, index, builder, Flat(values),
            done, rest);
      done := done + [index];
      indices.Advance();
    }
    StageEnd(f, g, all, done, Place(chunks, oldIt), Place(shiftedBy, shiftIt), builder.Ranges(), oldShift, newShift,
        skipUntil);
  }

  // One value: it is skipped if it lies in shiftedBy, otherwise its target is
  // pushed after the old ranges before it.
  method ShiftedStep(chunks: seq<Chunk>, oldAt: Cursor, shift: int, shiftedBy: seq<Chunk>, shiftAt: Cursor, passed: int,
                     until: nat,
                     index: nat, builder: ChunkedRangeVectorBuilder,
                     ghost values: seq<Range>, ghost done: seq<nat>, ghost rest: seq<nat>)
    returns (oldIt: Cursor, oldShift: int, shiftIt: Cursor, newShift: int, skipUntil: nat)
    requires NonEmpty(chunks) && NonEmpty(shiftedBy) && Sorted(Flat(chunks)) && Sorted(Flat(shiftedBy))
    requires OnPath(chunks, oldAt) && OnPath(shiftedBy, shiftAt) && builder.Ready()
    requires rest != [] && rest[0] == index && Sorted(values)
    requires Stage(Flat(chunks), Flat(shiftedBy), Indices(values), done, rest, Place(chunks, oldAt),
             Place(shiftedBy, shiftAt), builder.Ranges(), shift, passed, until)
    modifies builder
    ensures builder.Ready() && OnPath(chunks, oldIt) && OnPath(shiftedBy, shiftIt)
    ensures Stage(Flat(chunks), Flat(shiftedBy), Indices(values), done + [index], rest[1..], Place(chunks, oldIt),
            Place(shiftedBy, shiftIt), builder.Ranges(), oldShift, newShift, skipUntil)
  {
    hide Flat, Sorted, NonEmpty, Has, Indices, Total, Walking, Targets, Target, Place, Passing,
      ChunkedRangeVectorBuilder.Ready, ChunkedRangeVectorBuilder.Ranges;
    ghost var f, g := Flat(chunks), Flat(shiftedBy);
    ghost var p, q, built := Place(chunks, oldAt), Place(shiftedBy, shiftAt), builder.Ranges();
    oldIt, oldShift := oldAt, shift;
    ListedOrder(values, done, rest);
    assert done + [index] + rest[1..] == done + rest;
    WalkGaps(f, g, done, rest, p, q, built);
    shiftIt, newShift, skipUntil := PassGaps(shiftedBy, shiftAt, index, passed, until);
    GapsHere(g, index, Place(shiftedBy, shiftIt), newShift, skipUntil);
    if index < skipUntil {
      WalkSkip(f, g, done, rest, p, q, Place(shiftedBy, shiftIt), built);
    } else {
      OldStart(f, g, done, rest, p, q, built);
      oldIt, oldShift := PassRanges(chunks, oldAt, index - newShift, shift, builder, Targets(f, g, done));
      built := builder.Ranges();
      OldPassed(f, g, Targets(f, g, done), Place(chunks, oldIt), index, built);
      builder.PushIndex(index - newShift + oldShift);
      WalkNext(f, g, done, rest, Place(chunks, oldIt), Place(shiftedBy, shiftIt), built, builder.Ranges());
    }
  }

  ghost predicate Stage(f: seq<Range>, g: seq<Range>, all: seq<nat>, done: seq<nat>, rest: seq<nat>, p: nat, q: nat,
                        built: seq<Range>, oldShift: int, newShift: int, skipUntil: nat) {
    && Walking(f, g, done, rest, p, q, built) && done + rest == all
    && p <= |f| && oldShift == Total(f[..p]) && GapsAt(g, q, newShift, skipUntil)
  }

  lemma {:induction false} StageStart(f: seq<Range>, g: seq<Range>, all: seq<nat>)
    ensures Stage(f, g, all, [], all, 0, 0, [], 0, 0, 0)
  {
    WalkStart(f, g, all);
  }

  lemma {:induction false} StageEnd(f: seq<Range>, g: seq<Range>, all: seq<nat>, done: seq<nat>, p: nat, q: nat,
                                    built: seq<Range>, oldShift: int, newShift: int, skipUntil: nat)
    requires Stage(f, g, all, done, [], p, q, built, oldShift, newShift, skipUntil)
    ensures p <= |f| && Copying(f, Targets(f, g, all), p, built)
    ensures !Overruns(f, built, Last(Targets(f, g, all)))
  {
    assert done == all;
    hide Walking, Overruns, Copying, Targets;
    CopyStart(f, g, done, p, q, built);
  }

  // What the walk over the gaps carries along.
  ghost predicate GapsAt(gaps: seq<Range>, q: nat, newShift: int, skipUntil: nat) {
    && q <= |gaps| && newShift == Total(gaps[..q])
    && skipUntil == if q > 0 then gaps[q - 1].second else 0
  }

  lemma {:induction false} WalkGaps(rs: seq<Range>, gaps: seq<Range>, done: seq<nat>, rest: seq<nat>, p: nat, q: nat,
                                    built: seq<Range>)
    requires Walking(rs, gaps, done, rest, p, q, built) && rest != []
    ensures q <= |gaps| && forall j | 0 <= j < q :: gaps[j].first <= rest[0]
    ensures forall i, j | 0 <= i < |done| && 0 <= j < |rest| :: done[i] < rest[j]
  {
  }

  lemma {:induction false} GapsHere(gaps: seq<Range>, index: nat, q: nat, newShift: int, skipUntil: nat)
    requires Sorted(gaps) && GapsAt(gaps, q, newShift, skipUntil)
    requires forall j | 0 <= j < q :: gaps[j].first <= index
    requires q < |gaps| ==> index < gaps[q].first
    ensures Has(gaps, index) <==> index < skipUntil
    ensures !Has(gaps, index) ==> Unshifted(gaps, index) == index - newShift >= 0
  {
    hide Has, Sorted, Total, CountIn;
    GapsPassed(gaps, index, q);
  }

  // The gaps before q begin by the index and have been added up.
  ghost predicate GapsBy(gaps: seq<Range>, q: nat, index: nat, newShift: int, skipUntil: nat) {
    GapsAt(gaps, q, newShift, skipUntil) && forall j | 0 <= j < q :: gaps[j].first <= index
  }

  lemma {:induction false} GapsBound(gaps: seq<Range>, q: nat, index: nat, newShift: int, skipUntil: nat)
    requires GapsBy(gaps, q, index, newShift, skipUntil)
    ensures q <= |gaps|
  {
  }

  lemma {:induction false} GapsNext(gaps: seq<Range>, q: nat, index: nat, newShift: int, skipUntil: nat)
    requires GapsBy(gaps, q, index, newShift, skipUntil) && q < |gaps| && gaps[q].first <= index
    ensures GapsBy(gaps, q + 1, index, newShift + Length(gaps[q]), gaps[q].second)
  {
    hide Total;
    OneMoreTotal(gaps, q);
  }

  method PassGaps(cs: seq<Chunk>, start: Cursor, index: nat, shift: int, until: nat)
    returns (it: Cursor, newShift: int, skipUntil: nat)
    requires NonEmpty(cs) && OnPath(cs, start) && GapsBy(Flat(cs), Place(cs, start), index, shift, until)
    ensures OnPath(cs, it) && GapsBy(Flat(cs), Place(cs, it), index, newShift, skipUntil)
    ensures Place(cs, it) < |Flat(cs)| ==> index < Flat(cs)[Place(cs, it)].first
  {
    hide Flat, Place, GapsBy;
    it, newShift, skipUntil := start, shift, until;
    GapsBound(Flat(cs), Place(cs, it), index, newShift, skipUntil);
    while it.outer < |cs| && cs[it.outer].data[it.inner.value].first <= index
      invariant OnPath(cs, it) && Place(cs, it) <= |Flat(cs)|
      invariant GapsBy(Flat(cs), Place(cs, it), index, newShift, skipUntil)
      decreases |Flat(cs)| - Place(cs, it)
    {
      DerefIsFlat(cs, it);
      NextPlace(cs, it);
      GapsNext(Flat(cs), Place(cs, it), index, newShift, skipUntil);
      newShift := newShift + Length(cs[it.outer].data[it.inner.value]);
      skipUntil := cs[it.outer].data[it.inner.value].second;
      it := Next(cs, it);
    }
    if it.outer < |cs| {
      DerefIsFlat(cs, it);
    } else {
      EndPlace(cs);
    }
  }

  lemma {:induction false} OneMoreTotal(rs: seq<Range>, p: nat)
    requires p < |rs|
    ensures Total(rs[..p + 1]) == Total(rs[..p]) + Length(rs[p])
  {
    hide Total;
    TotalTake(rs, p, p + 1);
    assert rs[p..p + 1] == [rs[p]];
    TotalOne(rs[p]);
  }

  // The old ranges on the way to a target are pushed index by index.
  method PassRanges(cs: seq<Chunk>, start: Cursor, k: nat, shift: int, builder: ChunkedRangeVectorBuilder,
                    ghost xs: seq<int>)
    returns (it: Cursor, oldShift: int)
    requires NonEmpty(cs) && Sorted(Flat(cs)) && OnPath(cs, start) && Place(cs, start) <= |Flat(cs)|
    requires builder.Ready() && Passing(Flat(cs), xs, Place(cs, start), k, builder.Ranges())
    requires shift == Total(Flat(cs)[..Place(cs, start)])
    modifies builder
    ensures builder.Ready() && OnPath(cs, it) && Place(cs, it) <= |Flat(cs)|
    ensures Passing(Flat(cs), xs, Place(cs, it), k, builder.Ranges())
    ensures oldShift == Total(Flat(cs)[..Place(cs, it)])
    ensures Place(cs, it) < |Flat(cs)| ==> k + oldShift < Flat(cs)[Place(cs, it)].first
    ensures builder.Ranges() != [] ==> builder.Ranges()[|builder.Ranges()| - 1].second <= k + oldShift
  {
    hide Flat, Total, Place, Sorted, Has, Below, NonEmpty, ChunkedRangeVectorBuilder.Ready,
      ChunkedRangeVectorBuilder.Ranges;
    it, oldShift := start, shift;
    while it.outer < |cs| && cs[it.outer].data[it.inner.value].first <= k + oldShift
      invariant builder.Ready() && OnPath(cs, it) && Place(cs, it) <= |Flat(cs)|
      invariant Passing(Flat(cs), xs, Place(cs, it), k, builder.Ranges())
      invariant oldShift == Total(Flat(cs)[..Place(cs, it)])
      decreases |Flat(cs)| - Place(cs, it)
    {
      DerefIsFlat(cs, it);
      NextPlace(cs, it);
      CutNeighbours(Flat(cs), Place(cs, it));
      PlaceInBounds(cs, Next(cs, it));
      var r := cs[it.outer].data[it.inner.value];
      ghost var built := builder.Ranges();
      PushIndices(builder, r.first, r.second);
      OldNext(Flat(cs), xs, Place(cs, it), k, built, builder.Ranges());
      oldShift := oldShift + Length(r);
      it := Next(cs, it);
    }
    if it.outer < |cs| {
      DerefIsFlat(cs, it);
    } else {
      EndPlace(cs);
    }
  }

  method PushIndices(builder: ChunkedRangeVectorBuilder, first: nat, second: nat)
    requires builder.Ready() && first < second
    requires builder.Ranges() != [] ==> builder.Ranges()[|builder.Ranges()| - 1].second <= first
    modifies builder
    ensures builder.Ready() && Sorted(builder.Ranges()) && builder.Ranges() != []
    ensures builder.Ranges()[|builder.Ranges()| - 1].second == second
    ensures forall y: int :: Has(builder.Ranges(), y) <==> old(Has(builder.Ranges(), y)) || first <= y < second
  {
    hide Sorted, Has, ChunkedRangeVectorBuilder.Ready, ChunkedRangeVectorBuilder.Ranges;
    for i := first to second
      invariant builder.Ready() && (i > first ==> builder.Ranges() != [] && Sorted(builder.Ranges()))
      invariant builder.Ranges() != [] ==> builder.Ranges()[|builder.Ranges()| - 1].second <= i
      invariant i > first ==> builder.Ranges()[|builder.Ranges()| - 1].second == i
      invariant forall y: int :: Has(builder.Ranges(), y) <==> old(Has(builder.Ranges(), y)) || first <= y < i
    {
      builder.PushIndex(i);
    }
  }

  // The old ranges behind the last target are pushed whole.
  method CopyRest(cs: seq<Chunk>, start: Cursor, builder: ChunkedRangeVectorBuilder, ghost xs: seq<int>)
    requires NonEmpty(cs) && Sorted(Flat(cs)) && OnPath(cs, start) && Place(cs, start) <= |Flat(cs)|
    requires builder.Ready() && builder.reserved == |Flat(cs)| / MAX_SIZE + 1
    requires Copying(Flat(cs), xs, Place(cs, start), builder.Ranges())
             && !Overruns(Flat(cs), builder.Ranges(), Last(xs))
    modifies builder
    ensures builder.Valid() && Copying(Flat(cs), xs, |Flat(cs)|, builder.Ranges())
    ensures CountsRight(builder.chunks) <==> !Overruns(Flat(cs), builder.Ranges(), Last(xs))
  {
    hide Flat, Place, Sorted, Has, NonEmpty, Copying, Pushed, CountsRight, Overruns, ChunkedRangeVectorBuilder.Valid;
    var it := start;
    builder.ReadyFacts();
    while it.outer < |cs|
      invariant builder.Valid() && OnPath(cs, it) && Place(cs, it) <= |Flat(cs)|
      invariant Copying(Flat(cs), xs, Place(cs, it), builder.Ranges())
      invariant CountsRight(builder.chunks) <==> !Overruns(Flat(cs), builder.Ranges(), Last(xs))
      decreases |Flat(cs)| - Place(cs, it)
    {
      DerefIsFlat(cs, it);
      NextPlace(cs, it);
      PlaceInBounds(cs, Next(cs, it));
      CopyNext(Flat(cs), xs, Place(cs, it), builder.Ranges());
      builder.PushRange(cs[it.outer].data[it.inner.value]);
      it := Next(cs, it);
    }
    EndPlace(cs);
  }
}
