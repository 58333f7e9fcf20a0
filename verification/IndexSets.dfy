// IndexSet: a set of indices kept in a ChunkedRangeVector. Each operation is
// specified by which indices are members afterwards.
module IndexSets {
  import opened Wrappers
  import opened Ranges
  import opened Chunks
  import opened ChunkedVector
  import opened RangeEdits
  import opened RangeCount
  import opened IndexMerge
  import opened IndexWalks
  import opened ShiftedAdd
  import opened IndexMerging

  class IndexSet {
    const v: ChunkedRangeVector

    ghost predicate Valid()
      reads this, v
    {
      v.Valid() && Sorted(v.Ranges())
    }

    ghost function Ranges(): seq<Range>
      reads this, v
    {
      v.Ranges()
    }

    lemma {:induction false} SameRanges()
      requires Valid()
      ensures Ranges() == Flat(v.chunks) && ChunksOk(v.chunks)
    {
    }

    constructor ()
      ensures Valid() && fresh(v) && Ranges() == [] && v.chunks == []
    {
      v := new ChunkedRangeVector();
    }

    // ----- Queries -----

    // find(index, begin): skips whole chunks, then bisects within one.
    method FindFrom(index: nat, begin: Cursor) returns (it: Cursor)
      requires v.Valid() && Loose(Ranges()) && OnPath(v.chunks, begin)
      requires forall k | 0 <= k < Place(v.chunks, begin) && k < |Ranges()| :: Ranges()[k].second <= index
      ensures OnPath(v.chunks, it) && FirstAfter(Ranges(), index, Place(v.chunks, it))
    {
      hide Flat, Total;
      OkNonEmpty(v.chunks);
      var k := begin.outer;
      while k < |v.chunks| && v.chunks[k].end <= index
        invariant begin.outer <= k <= |v.chunks|
        invariant forall j | begin.outer <= j < k :: v.chunks[j].end <= index
      {
        k := k + 1;
      }
      assert Ranges() == Flat(v.chunks);
      ChunksBefore(v.chunks, index, begin, k);
      if k == |v.chunks| {
        EndPlace(v.chunks);
        return Cursor(k, None);
      }
      var data := v.chunks[k].data;
      FlatSplit(v.chunks, k);
      if index < v.chunks[k].begin {
        return Cursor(k, Some(0));
      }
      DataLoose(v.chunks, k);
      ChunkEnds(v.chunks, k);
      var at := Bisect(data, index, if k == begin.outer then begin.inner.value else 0);
      it := Cursor(k, Some(at));
    }

    // lower_bound on the ends of the ranges.
    method Bisect(data: seq<Range>, index: nat, start: nat) returns (at: nat)
      requires Loose(data) && start < |data| && index < data[|data| - 1].second
      requires forall j | 0 <= j < start :: data[j].second <= index
      ensures at < |data| && index < data[at].second && forall j | 0 <= j < at :: data[j].second <= index
    {
      var lo, hi := start, |data|;
      while lo < hi
        invariant 0 <= lo <= hi <= |data|
        invariant forall j | 0 <= j < lo :: data[j].second <= index
        invariant hi < |data| ==> index < data[hi].second
      {
        var mid := (lo + hi) / 2;
        if data[mid].second <= index {
          lo := mid + 1;
        } else {
          hi := mid;
        }
      }
      at := lo;
    }

    method Find(index: nat) returns (it: Cursor)
      requires Valid()
      ensures OnPath(v.chunks, it) && FirstAfter(Ranges(), index, Place(v.chunks, it))
    {
      OkNonEmpty(v.chunks);
      BeginPlace(v.chunks);
      SortedIsLoose(Ranges());
      it := FindFrom(index, Begin(v.chunks));
    }

    method Contains(index: nat) returns (b: bool)
      requires Valid()
      ensures b <==> Has(Ranges(), index)
    {
      var it := Find(index);
      FirstAfterHas(Ranges(), index, Place(v.chunks, it));
      if it.outer == |v.chunks| {
        EndPlace(v.chunks);
        return false;
      }
      DerefIsFlat(v.chunks, it);
      b := v.chunks[it.outer].data[it.inner.value].first <= index;
    }

    // ----- Counting -----

    // The size of the intersection with [lo, hi), unless the walk stops early.
    method Count(lo: nat, hi: nat) returns (n: int)
      requires Valid()
      ensures NonEmpty(v.chunks)
      ensures n == CountIn(Ranges(), lo, hi) <==> !Miscounts(v.chunks, lo, hi)
      ensures forall k | 0 <= k < |v.chunks| - 1 && Straddles(v.chunks, k, lo, hi) ::
                n == CountIn(Ranges(), lo, hi) - (hi - v.chunks[k + 1].begin)
      ensures hi < lo && Miscounts(v.chunks, lo, hi) ==> n == hi - lo
    {
      hide Flat, Sorted, ChunkOk, NonEmpty, FirstAfter, Place, Counted, Miscounts, CountIn;
      OkNonEmpty(v.chunks);
      var it := Find(lo);
      MiscountsHere(v.chunks, it, lo, hi);
      if it.outer == |v.chunks| {
        CountNothing(v.chunks, it, lo, hi);
        return 0;
      }
      var here := v.chunks[it.outer].data[it.inner.value];
      FirstFacts(v.chunks, it, lo);
      if it.outer + 1 < |v.chunks| {
        ChunkBeyond(v.chunks, it);
      }
      if here.first >= hi {
        CountNothing(v.chunks, it, lo, hi);
        return 0;
      }
      CountFirst(v.chunks, it, lo, hi);
      if here.second >= hi {
        CountLast(v.chunks, it, lo, hi, Overlap(here, lo, hi));
        return hi - (if here.first < lo then lo else here.first);
      }
      if lo > here.first || it.inner.value != 0 {
        var stop: bool;
        it, n, stop := CountChunkRest(it, lo, hi);
        if stop {
          return;
        }
      } else {
        ChunkStart(v.chunks, it, lo);
        n := 0;
      }
      n := CountFrom(it, lo, hi, n);
    }

    // The rest of the chunk in which the count starts.
    method CountChunkRest(start: Cursor, lo: nat, hi: nat) returns (it: Cursor, n: int, stop: bool)
      requires Valid() && At(v.chunks, start) && FirstAfter(Ranges(), lo, Place(v.chunks, start))
      requires Deref(v.chunks, start).second < hi
      requires lo > Deref(v.chunks, start).first || start.inner.value != 0
      ensures NonEmpty(v.chunks)
      ensures stop ==> (n == CountIn(Ranges(), lo, hi) <==> !Miscounts(v.chunks, lo, hi))
      ensures stop ==> forall k | 0 <= k < |v.chunks| - 1 && Straddles(v.chunks, k, lo, hi) ::
                n == CountIn(Ranges(), lo, hi) - (hi - v.chunks[k + 1].begin)
      ensures !stop ==> !Miscounts(v.chunks, lo, hi) && At(v.chunks, it) && it.inner == Some(0) && Counted(v.chunks, it,
              lo, hi, n)
    {
      hide Flat, Sorted, ChunksOk, NonEmpty, FirstAfter, Place, Counted, Miscounts, CountIn;
      OkNonEmpty(v.chunks);
      FirstFacts(v.chunks, start, lo);
      MiscountsHere(v.chunks, start, lo, hi);
      CountFirst(v.chunks, start, lo, hi);
      var here := v.chunks[start.outer].data[start.inner.value];
      n := here.second - (if here.first < lo then lo else here.first);
      it := Next(v.chunks, start);
      CountedFacts(v.chunks, it, lo, hi, n);
      ChunkStart(v.chunks, start, lo);
      ghost var o := start.outer;
      while it.outer < |v.chunks| && v.chunks[it.outer].data[it.inner.value].second < hi && it.inner.value != 0
        invariant Counted(v.chunks, it, lo, hi, n) && OnPath(v.chunks, it)
        invariant (it.outer == o && At(v.chunks, it) && it.inner.value != 0) || it == NextChunk(v.chunks, start)
        decreases |Ranges()| - Place(v.chunks, it)
      {
        CountNext(v.chunks, it, lo, hi, n);
        n := n + Length(v.chunks[it.outer].data[it.inner.value]);
        it := Next(v.chunks, it);
        CountedFacts(v.chunks, it, lo, hi, n);
      }
      if it.outer == |v.chunks| {
        CountDone(v.chunks, it, lo, hi, n);
        return it, n, true;
      }
      var r := v.chunks[it.outer].data[it.inner.value];
      if r.second >= hi {
        CountNext(v.chunks, it, lo, hi, n);
        CountLast(v.chunks, it, lo, hi, n + Overlap(r, lo, hi));
        ChunkBegins(v.chunks, it.outer);
        if it.outer == o && o + 1 < |v.chunks| {
          ChunkBeyond(v.chunks, it);
        }
        if r.first < hi && it.inner.value != 0 {
          n := n + (hi - r.first);
        }
        return it, n, true;
      }
      stop := false;
    }

    // Whole chunks, then whole ranges of the last chunk, then part of a range.
    method CountFrom(start: Cursor, lo: nat, hi: nat, count: int) returns (n: int)
      requires Valid() && At(v.chunks, start) && start.inner == Some(0)
      requires Counted(v.chunks, start, lo, hi, count)
      ensures n == CountIn(Ranges(), lo, hi)
    {
      hide Flat, Sorted, ChunksOk, NonEmpty, Place, Counted, CountIn;
      var it := start;
      n := count;
      while it.outer < |v.chunks| && v.chunks[it.outer].end <= hi
        invariant Counted(v.chunks, it, lo, hi, n) && OnPath(v.chunks, it) && (At(v.chunks, it) ==> it.inner == Some(0))
        decreases |v.chunks| - it.outer
      {
        CountChunk(v.chunks, it, lo, hi, n);
        n := n + v.chunks[it.outer].count;
        it := NextChunk(v.chunks, it);
      }
      while it.outer < |v.chunks| && v.chunks[it.outer].data[it.inner.value].second <= hi
        invariant Counted(v.chunks, it, lo, hi, n) && OnPath(v.chunks, it)
        decreases |Ranges()| - Place(v.chunks, it)
      {
        CountNext(v.chunks, it, lo, hi, n);
        n := n + Length(v.chunks[it.outer].data[it.inner.value]);
        it := Next(v.chunks, it);
        CountedFacts(v.chunks, it, lo, hi, n);
      }
      if it.outer < |v.chunks| && v.chunks[it.outer].data[it.inner.value].first < hi {
        CountNext(v.chunks, it, lo, hi, n);
        n := n + (hi - v.chunks[it.outer].data[it.inner.value].first);
        CountLast(v.chunks, it, lo, hi, n);
      } else {
        CountDone(v.chunks, it, lo, hi, n);
      }
    }

    // ----- Shifting one index -----

    method Shift(index: nat) returns (shifted: nat)
      requires Valid()
      ensures shifted == Shifted(Ranges(), index)
    {
      hide Flat, Sorted, ChunksOk, FirstAfter, Place;
      var it := Begin(v.chunks);
      shifted := index;
      SkipNone(v.chunks, index);
      OnTheWay(v.chunks, it, index, shifted);
      while it.outer < |v.chunks| && v.chunks[it.outer].data[it.inner.value].first <= shifted
        invariant Skipped(v.chunks, it, index, shifted) && OnPath(v.chunks, it)
        decreases |Ranges()| - Place(v.chunks, it)
      {
        SkipOne(v.chunks, it, index, shifted);
        shifted := shifted + Length(v.chunks[it.outer].data[it.inner.value]);
        it := Next(v.chunks, it);
        OnTheWay(v.chunks, it, index, shifted);
      }
      SkipDone(v.chunks, it, index, shifted);
    }

    method Unshift(index: nat) returns (unshifted: int)
      requires Valid()
      ensures unshifted == Unshifted(Ranges(), index)
    {
      hide Flat, Sorted, ChunksOk, Miscounts, CountIn;
      var n := Count(0, index);
      NeverFromZero(v.chunks, index);
      unshifted := index - n;
    }

    // ----- Adding -----

    // it is the first range that ends after index.
    method DoAdd(it: Cursor, index: nat) returns (at: Cursor)
      requires Valid() && OnPath(v.chunks, it) && FirstAfter(Ranges(), index, Place(v.chunks, it))
      modifies v
      ensures Valid() && At(v.chunks, at)
      ensures var p := old(Place(v.chunks, it));
              p <= |old(Ranges())| && Edit(Ranges(), Place(v.chunks, at)) == RangeEdits.Add(old(Ranges()), index, p)
      ensures EndsBelow(old(Ranges()), index) ==> v.chunks == PushedChunks(old(v.chunks), Range(index, index + 1))
    {
      hide Flat, Total, Sorted, Place, Has, SameShape, ChunksOk, NonEmpty, PushedChunks;
      ghost var f, p := Ranges(), Place(v.chunks, it);
      OkNonEmpty(v.chunks);
      AddSorted(f, index, p);
      BeginOrBefore(v.chunks, it);
      if it.outer < |v.chunks| {
        DerefIsFlat(v.chunks, it);
        if v.chunks[it.outer].data[it.inner.value].first <= index {
          return it;
        }
      }
      if it != Begin(v.chunks) {
        var prev := Prev(v.chunks, it);
        PrevPlace(v.chunks, it);
        DerefIsFlat(v.chunks, prev);
        if v.chunks[prev.outer].data[prev.inner.value].second == index {
          at := GrowBefore(it, prev, index);
          return;
        }
      }
      if it.outer < |v.chunks| && v.chunks[it.outer].data[it.inner.value].first == index + 1 {
        ghost var was := v.chunks;
        v.Adjust(it, -1, 0);
        SamePlace(was, v.chunks, it);
        return it;
      }
      assert RangeEdits.Add(f, index, p).rs == f[..p] + [Range(index, index + 1)] + f[p..];
      SortedIsLoose(RangeEdits.Add(f, index, p).rs);
      at := v.Insert(it, Range(index, index + 1));
    }

    // The index comes right after the range at prev, and may join it to it.
    method GrowBefore(it: Cursor, prev: Cursor, index: nat) returns (at: Cursor)
      requires Valid() && OnPath(v.chunks, it) && FirstAfter(Ranges(), index, Place(v.chunks, it))
      requires At(v.chunks, prev) && Place(v.chunks, it) == Place(v.chunks, prev) + 1 && Deref(v.chunks, prev).second
               == index
      requires At(v.chunks, it) ==> index < Deref(v.chunks, it).first
      modifies v
      ensures v.Valid() && At(v.chunks, at)
      ensures var p := old(Place(v.chunks, it));
              p <= |old(Ranges())| && Edit(Ranges(), Place(v.chunks, at)) == RangeEdits.Add(old(Ranges()), index, p)
    {
      hide Flat, Total, Sorted, Place, Has, SameShape, ChunksOk, NonEmpty;
      ghost var f, p, was := Ranges(), Place(v.chunks, it), v.chunks;
      SortedFacts(f);
      FindFacts(v.chunks, it);
      DerefIsFlat(v.chunks, prev);
      v.Adjust(prev, 0, 1);
      SamePlace(was, v.chunks, prev);
      SamePlace(was, v.chunks, it);
      if it.outer < |v.chunks| {
        DerefIsFlat(v.chunks, prev);
        DerefIsFlat(v.chunks, it);
        var here := v.chunks[it.outer].data[it.inner.value];
        if v.chunks[prev.outer].data[prev.inner.value].second == here.first {
          was := v.chunks;
          v.Adjust(prev, 0, Length(here));
          SamePlace(was, v.chunks, it);
          var next := v.Erase(it);
          OkNonEmpty(v.chunks);
          BeginOrBefore(v.chunks, next);
          PrevPlace(v.chunks, next);
          assert Ranges() == f[..p - 1] + [Range(f[p - 1].first, f[p].second)] + f[p + 1..];
          return Prev(v.chunks, next);
        }
      }
      at := prev;
    }

    // The index becomes a member and nothing else changes.
    method Add(index: nat)
      requires Valid()
      modifies v
      ensures Valid() && forall y: int :: Has(Ranges(), y) <==> old(Has(Ranges(), y)) || y == index
      ensures EndsBelow(old(Ranges()), index) ==> v.chunks == PushedChunks(old(v.chunks), Range(index, index + 1))
    {
      hide Flat, Total, PushedChunks;
      var it := Find(index);
      ghost var f, p := Ranges(), Place(v.chunks, it);
      var at := DoAdd(it, index);
      forall y: int
        ensures Has(Ranges(), y) <==> Has(f, y) || y == index
      {
        AddHas(f, index, p, y);
      }
    }

    // Where the index-th index that is not a member belongs.
    method LocateShifted(index: nat) returns (it: Cursor, shifted: nat)
      requires Valid()
      ensures OnPath(v.chunks, it) && FirstAfter(Ranges(), shifted, Place(v.chunks, it))
      ensures shifted == Shifted(Ranges(), index)
    {
      hide Skipped, Flat, Sorted, ChunksOk, FirstAfter, Place;
      it, shifted := Begin(v.chunks), index;
      SkipNone(v.chunks, index);
      while it.outer < |v.chunks| && v.chunks[it.outer].end <= shifted
        invariant Skipped(v.chunks, it, index, shifted) && OnPath(v.chunks, it)
                  && (At(v.chunks, it) ==> it.inner == Some(0))
        decreases |v.chunks| - it.outer
      {
        SkipWhole(v.chunks, it, index, shifted);
        shifted := shifted + v.chunks[it.outer].count;
        it := NextChunk(v.chunks, it);
      }
      OnTheWay(v.chunks, it, index, shifted);
      while it.outer < |v.chunks| && v.chunks[it.outer].data[it.inner.value].first <= shifted
        invariant Skipped(v.chunks, it, index, shifted) && OnPath(v.chunks, it)
        decreases |Ranges()| - Place(v.chunks, it)
      {
        SkipOne(v.chunks, it, index, shifted);
        shifted := shifted + Length(v.chunks[it.outer].data[it.inner.value]);
        it := Next(v.chunks, it);
        OnTheWay(v.chunks, it, index, shifted);
      }
      SkipDone(v.chunks, it, index, shifted);
    }

    // Adds the index-th index that is not a member.
    method AddShifted(index: nat) returns (shifted: nat)
      requires Valid()
      modifies v
      ensures Valid() && shifted == Shifted(old(Ranges()), index)
      ensures !old(Has(Ranges(), shifted))
      ensures forall y: int :: Has(Ranges(), y) <==> old(Has(Ranges(), y)) || y == shifted
    {
      hide Flat, Total, Sorted, Place, Has, ChunksOk, NonEmpty;
      var it: Cursor;
      it, shifted := LocateShifted(index);
      ghost var f, p := Ranges(), Place(v.chunks, it);
      ShiftExact(f, index);
      var at := DoAdd(it, shifted);
      forall y: int
        ensures Has(Ranges(), y) <==> Has(f, y) || y == shifted
      {
        AddHas(f, shifted, p, y);
      }
    }

    // ----- Inserting and erasing positions -----

    // Moves every range from it on.
    method ShiftRest(it: Cursor, distance: int)
      requires v.Valid() && OnPath(v.chunks, it) && Place(v.chunks, it) <= |Ranges()|
      requires forall k | Place(v.chunks, it) <= k < |Ranges()| ::
                 Ranges()[k].first + distance >= 0 && Ranges()[k].second + distance >= 0
      modifies v
      ensures v.Valid() && SameShape(old(v.chunks), v.chunks) && OnPath(v.chunks, it)
      ensures Place(v.chunks, it) == old(Place(v.chunks, it))
      ensures Ranges() == ShiftFrom(old(Ranges()), old(Place(v.chunks, it)), distance)
    {
      hide Flat, Total, Sorted, Place;
      ghost var f, p, was := Ranges(), Place(v.chunks, it), v.chunks;
      var pos := it;
      PlaceInBounds(v.chunks, it);
      while pos.outer < |v.chunks|
        invariant v.Valid() && SameShape(was, v.chunks) && OnPath(v.chunks, pos)
        invariant p <= Place(v.chunks, pos) <= |f|
        invariant |Ranges()| == |f| && forall k | 0 <= k < |f| ::
                    Ranges()[k] == if p <= k < Place(v.chunks, pos)
                        then Range(f[k].first + distance, f[k].second + distance) else f[k]
        decreases |f| - Place(v.chunks, pos)
      {
        ghost var now, q := v.chunks, Place(v.chunks, pos);
        DerefIsFlat(v.chunks, pos);
        v.ShiftBy(pos, distance);
        SamePlace(now, v.chunks, pos);
        OkNonEmpty(v.chunks);
        NextPlace(v.chunks, pos);
        pos := Next(v.chunks, pos);
      }
      EndPlace(v.chunks);
      SamePlace(was, v.chunks, it);
    }

    // The indices from index on make room for count members.
    method InsertAt(index: nat, count: nat)
      requires Valid() && count > 0
      modifies v
      ensures Valid()
      ensures forall y: int :: Has(Ranges(), y) <==>
                Opened(old(Ranges()), index, count, y) || index <= y < index + count
    {
      hide Flat, Total, Sorted, Place, Has, Opened, ChunksOk, NonEmpty, SameShape, Grow, FirstAfter;
      var pos := Find(index);
      ghost var f, p := Ranges(), Place(v.chunks, pos);
      OkNonEmpty(v.chunks);
      PlaceInBounds(v.chunks, pos);
      if pos.outer < |v.chunks| {
        DerefIsFlat(v.chunks, pos);
        if v.chunks[pos.outer].data[pos.inner.value].first <= index {
          GrowOk(f, index, p, count);
          GrowRange(pos, count);
          return;
        }
      }
      EndPlace(v.chunks);
      MakeRoom(f, index, p, count);
      ShiftRest(pos, count);
      ghost var g := Ranges();
      for i := 0 to count
        invariant Valid() && OnPath(v.chunks, pos) && FirstAfter(Ranges(), index + i, Place(v.chunks, pos))
        invariant AllAbove(Ranges(), Place(v.chunks, pos), index + count)
        invariant forall y: int :: Has(Ranges(), y) <==> Has(g, y) || index <= y < index + i
      {
        ghost var h, q := Ranges(), Place(v.chunks, pos);
        AddNext(h, index + i, q);
        pos := DoAdd(pos, index + i);
        forall y: int
          ensures Has(Ranges(), y) <==> Has(h, y) || y == index + i
        {
          AddHas(h, index + i, q, y);
        }
        OkNonEmpty(v.chunks);
        NextPlace(v.chunks, pos);
        pos := Next(v.chunks, pos);
      }
    }

    // The range at pos grows and those after it move.
    method GrowRange(pos: Cursor, count: nat)
      requires Valid() && At(v.chunks, pos)
      modifies v
      ensures v.Valid() && old(Place(v.chunks, pos)) < |old(Ranges())|
      ensures Ranges() == Grow(old(Ranges()), old(Place(v.chunks, pos)), count)
    {
      hide Flat, Total, Sorted, Place, ChunksOk, NonEmpty;
      ghost var was := v.chunks;
      OkNonEmpty(v.chunks);
      DerefIsFlat(v.chunks, pos);
      v.Adjust(pos, 0, count);
      SamePlace(was, v.chunks, pos);
      OkNonEmpty(v.chunks);
      NextPlace(v.chunks, pos);
      PlaceInBounds(v.chunks, Next(v.chunks, pos));
      ShiftRest(Next(v.chunks, pos), count);
    }

    // The same without the new members; a range around index is split.
    method ShiftForInsertAt(index: nat, count: nat)
      requires Valid() && count > 0
      modifies v
      ensures Valid()
      ensures forall y: int :: Has(Ranges(), y) <==>
                Opened(old(Ranges()), index, count, y)
    {
      hide Flat, Total, Sorted, Place, Has, ChunksOk, NonEmpty, SameShape;
      var it := Find(index);
      ghost var f, p := Ranges(), Place(v.chunks, it);
      OkNonEmpty(v.chunks);
      if it.outer == |v.chunks| {
        EndPlace(v.chunks);
        forall y: int
          ensures y >= index ==> !Has(f, y)
        {
          Sides(f, index, p, y);
        }
        return;
      }
      DerefIsFlat(v.chunks, it);
      SplitOk(f, index, p, count);
      SortedIsLoose(SplitAt(f, index, p, count));
      ShiftRest(it, count);
      ghost var was := v.chunks;
      DerefIsFlat(v.chunks, it);
      var here := v.chunks[it.outer].data[it.inner.value];
      if here.first < index + count {
        v.Set(it, here.first - count, index);
        SamePlace(was, v.chunks, it);
        OkNonEmpty(v.chunks);
        NextPlace(v.chunks, it);
        ghost var g := Ranges();
        assert g[..p + 1] + [Range(index + count, here.second)] + g[p + 1..] == SplitAt(f, index, p, count);
        var at := v.Insert(Next(v.chunks, it), Range(index + count, here.second));
      }
    }

    // it is the first range that ends after index.
    method DoErase(it: Cursor, index: nat)
      requires Valid() && At(v.chunks, it) && FirstAfter(Ranges(), index, Place(v.chunks, it))
      modifies v
      ensures Valid()
      ensures forall y: int :: Has(Ranges(), y) <==> Closed(old(Ranges()), index, y)
    {
      hide Flat, Total, Sorted, Place, Has, ChunksOk, NonEmpty, SameShape, Erase;
      ghost var f, p := Ranges(), Place(v.chunks, it);
      OkNonEmpty(v.chunks);
      DerefIsFlat(v.chunks, it);
      BeginOrBefore(v.chunks, it);
      EraseSorted(f, index, p);
      EraseMembers(f, index, p);
      var here := v.chunks[it.outer].data[it.inner.value];
      if here.first <= index {
        EraseWithin(it, index);
        return;
      }
      if it != Begin(v.chunks) {
        var prev := Prev(v.chunks, it);
        PrevPlace(v.chunks, it);
        DerefIsFlat(v.chunks, prev);
        if v.chunks[prev.outer].data[prev.inner.value].second + 1 == here.first {
          EraseGap(it, prev, index);
          return;
        }
      }
      EraseOutside(f, index, p);
      ShiftRest(it, -1);
    }

    // The index lies in the range at it, which goes or becomes shorter.
    method EraseWithin(it: Cursor, index: nat)
      requires Valid() && At(v.chunks, it) && FirstAfter(Ranges(), index, Place(v.chunks, it))
      requires Deref(v.chunks, it).first <= index
      modifies v
      ensures v.Valid() && old(Place(v.chunks, it)) < |old(Ranges())|
      ensures Ranges() == Erase(old(Ranges()), index, old(Place(v.chunks, it)))
    {
      hide Flat, Total, Sorted, Place, Has, ChunksOk, NonEmpty, SameShape, Erase, FirstAfter;
      ghost var f, p := Ranges(), Place(v.chunks, it);
      OkNonEmpty(v.chunks);
      DerefIsFlat(v.chunks, it);
      var here := v.chunks[it.outer].data[it.inner.value];
      if here.first + 1 == here.second {
        EraseOnly(f, index, p);
        var next := v.Erase(it);
        ShiftRest(next, -1);
      } else {
        EraseShorter(f, index, p);
        ghost var was := v.chunks;
        v.Adjust(it, 0, -1);
        SamePlace(was, v.chunks, it);
        OkNonEmpty(v.chunks);
        NextPlace(v.chunks, it);
        ShiftRest(Next(v.chunks, it), -1);
      }
    }

    // The index is the only one between two ranges, which become one.
    method EraseGap(it: Cursor, prev: Cursor, index: nat)
      requires Valid() && At(v.chunks, it) && FirstAfter(Ranges(), index, Place(v.chunks, it))
      requires At(v.chunks, prev) && Place(v.chunks, it) == Place(v.chunks, prev) + 1
      requires index < Deref(v.chunks, it).first && Deref(v.chunks, prev).second + 1 == Deref(v.chunks, it).first
      modifies v
      ensures v.Valid() && old(Place(v.chunks, it)) < |old(Ranges())|
      ensures Ranges() == Erase(old(Ranges()), index, old(Place(v.chunks, it)))
    {
      hide Flat, Total, Sorted, Place, Has, ChunksOk, NonEmpty, SameShape, Erase, FirstAfter;
      ghost var f, p, was := Ranges(), Place(v.chunks, it), v.chunks;
      DerefIsFlat(v.chunks, it);
      DerefIsFlat(v.chunks, prev);
      EraseBetweenTwo(f, index, p);
      var here := v.chunks[it.outer].data[it.inner.value];
      v.Adjust(prev, 0, Length(here));
      SamePlace(was, v.chunks, it);
      var next := v.Erase(it);
      assert Ranges() == f[..p - 1] + [Range(f[p - 1].first, f[p - 1].second + Length(here))] + f[p + 1..];
      ShiftRest(next, -1);
    }

    // The index is removed and all later ones move down.
    method EraseAt(index: nat)
      requires Valid()
      modifies v
      ensures Valid()
      ensures forall y: int :: Has(Ranges(), y) <==> Closed(old(Ranges()), index, y)
    {
      hide Flat, Total, Sorted, Place, Has, ChunksOk, NonEmpty;
      var it := Find(index);
      if it.outer != |v.chunks| {
        DoErase(it, index);
      } else {
        EndPlace(v.chunks);
        ghost var f, p := Ranges(), Place(v.chunks, it);
        forall y: int
          ensures y >= index ==> !Has(f, y)
        {
          Sides(f, index, p, y);
        }
      }
    }

    // Erases an index that is a member (None stands for npos), or reports how
    // many other members lie below it; either way later members move down.
    method EraseOrUnshift(index: nat) returns (r: Option<int>)
      requires Valid()
      modifies v
      ensures Valid()
      ensures r == if old(Has(Ranges(), index)) then None else Some(Unshifted(old(Ranges()), index))
      ensures forall y: int :: Has(Ranges(), y) <==> Closed(old(Ranges()), index, y)
    {
      hide Flat, Sorted, ChunksOk, FirstAfter, Place, Passed, Has, Closed;
      var it := Begin(v.chunks);
      var shifted: int := index;
      PassNone(v.chunks, index);
      while it.outer < |v.chunks| && v.chunks[it.outer].end <= index
        invariant Valid() && v.chunks == old(v.chunks)
        invariant Passed(v.chunks, it, index, index - shifted) && OnPath(v.chunks, it)
                  && (At(v.chunks, it) ==> it.inner == Some(0))
        decreases |v.chunks| - it.outer
      {
        PassWhole(v.chunks, it, index, index - shifted);
        shifted := shifted - v.chunks[it.outer].count;
        it := NextChunk(v.chunks, it);
      }
      while it.outer < |v.chunks| && v.chunks[it.outer].data[it.inner.value].second <= index
        invariant Valid() && v.chunks == old(v.chunks)
        invariant Passed(v.chunks, it, index, index - shifted) && OnPath(v.chunks, it)
        decreases |Ranges()| - Place(v.chunks, it)
      {
        PassOne(v.chunks, it, index, index - shifted);
        shifted := shifted - Length(v.chunks[it.outer].data[it.inner.value]);
        it := Next(v.chunks, it);
      }
      PassDone(v.chunks, it, index, index - shifted);
      if it.outer == |v.chunks| {
        NothingCloses(Ranges(), index, Place(v.chunks, it));
        return Some(shifted);
      }
      r := Some(shifted);
      if v.chunks[it.outer].data[it.inner.value].first <= index {
        r := None;
      }
      DoErase(it, index);
    }

    // ----- Removing -----

    // What do_remove does to one range: split it, erase it or trim one end.
    method RemoveStep(it: Cursor, at: nat, end: nat) returns (next: Cursor)
      requires Valid() && At(v.chunks, it) && Deref(v.chunks, it).first < end
      requires Deref(v.chunks, it).first <= at < Deref(v.chunks, it).second && at <= end
      modifies v
      ensures v.Valid() && OnPath(v.chunks, next)
      ensures var p := old(Place(v.chunks, it));
              p < |old(Ranges())| && Ranges() == CutOut(old(Ranges()), p, at, end)
      ensures Place(v.chunks, next) == old(Place(v.chunks, it))
    {
      hide Flat, Sorted, Loose, ChunksOk, Place, SameShape;
      ghost var f, p, was := Ranges(), Place(v.chunks, it), v.chunks;
      DerefIsFlat(v.chunks, it);
      CutOutLoose(f, p, at, end);
      var here := v.chunks[it.outer].data[it.inner.value];
      if here.first < at && here.second > end {
        v.Set(it, here.first, at);
        SamePlace(was, v.chunks, it);
        OkNonEmpty(v.chunks);
        NextPlace(v.chunks, it);
        ghost var g := Ranges();
        assert g[..p + 1] + [Range(end, here.second)] + g[p + 1..] == CutOut(f, p, at, end);
        var inserted := v.Insert(Next(v.chunks, it), Range(end, here.second));
        OkNonEmpty(v.chunks);
        BeginOrBefore(v.chunks, inserted);
        PrevPlace(v.chunks, inserted);
        next := Prev(v.chunks, inserted);
      } else if at == here.first && end >= here.second {
        assert CutOut(f, p, at, end) == f[..p] + f[p + 1..];
        next := v.Erase(it);
      } else if at == here.first {
        assert CutOut(f, p, at, end) == f[p := Range(end, here.second)];
        v.Set(it, end, here.second);
        SamePlace(was, v.chunks, it);
        next := it;
      } else {
        assert CutOut(f, p, at, end) == f[p := Range(here.first, at)];
        v.Set(it, here.first, at);
        SamePlace(was, v.chunks, it);
        next := it;
      }
    }

    // Every range before start ends by begin. The members of the span go. The
    // set stays well formed unless an empty span lies strictly inside a range.
    method DoRemove(start: Cursor, begin: nat, end: nat) returns (it: Cursor)
      requires Valid() && OnPath(v.chunks, start) && begin <= end
      requires forall k | 0 <= k < Place(v.chunks, start) && k < |Ranges()| :: Ranges()[k].second <= begin
      modifies v
      ensures v.Valid() && OnPath(v.chunks, it)
      ensures Sorted(Ranges()) <==> begin < end || !StrictlyInside(old(Ranges()), begin)
      ensures forall k | 0 <= k < Place(v.chunks, it) && k < |Ranges()| :: Ranges()[k].second <= end
      ensures forall y: int :: Has(Ranges(), y) <==> old(Has(Ranges(), y)) && !(begin <= y < end)
    {
      hide Flat, Sorted, Loose, ChunksOk, Place, Has, FirstAfter, Removing, StrictlyInside, CutOut;
      ghost var before := Ranges();
      SortedIsLoose(before);
      it := FindFrom(begin, start);
      var at: nat := begin;
      RemovingStart(before, begin, end, Place(v.chunks, it));
      while it.outer < |v.chunks| && v.chunks[it.outer].data[it.inner.value].first < end
        invariant v.Valid() && OnPath(v.chunks, it)
        invariant Removing(before, Ranges(), begin, at, end, Place(v.chunks, it))
        decreases |Ranges()| - Place(v.chunks, it), if At(v.chunks, it) && Deref(v.chunks, it).first < end then 1 else 0
      {
        FindFacts(v.chunks, it);
        ghost var rs, p, from: nat := Ranges(), Place(v.chunks, it), at;
        RemovingCut(before, rs, begin, at, end, p);
        var here := v.chunks[it.outer].data[it.inner.value];
        at := if here.first > at then here.first else at;
        it := RemoveStep(it, at, end);
        CutBefore(before, rs, begin, from, at, end, p);
        it := FindFrom(at, it);
        FindFacts(v.chunks, it);
        RemovingNext(before, rs, begin, from, end, p, Place(v.chunks, it));
      }
      FindFacts(v.chunks, it);
      RemovingDone(before, Ranges(), begin, at, end, Place(v.chunks, it));
    }

    // Removes exactly the span. An empty one strictly inside a range leaves
    // that range in two halves that touch, which verify() rejects.
    method Remove(index: nat, count: nat)
      requires Valid()
      modifies v
      ensures v.Valid()
      ensures Sorted(Ranges()) <==> count > 0 || !StrictlyInside(old(Ranges()), index)
      ensures forall y: int :: Has(Ranges(), y) <==> old(Has(Ranges(), y)) && !(index <= y < index + count)
    {
      hide Flat, Sorted, ChunksOk, Place, Has;
      var it := Find(index);
      var at := DoRemove(it, index, index + count);
    }

    // ----- Whole sets at once -----

    method SetLength(len: nat)
      requires Valid()
      modifies v
      ensures Valid() && forall y: int :: Has(Ranges(), y) <==> 0 <= y < len
    {
      v.chunks := [];
      if len > 0 {
        assert Ranges() == [];
        v.PushBack(Range(0, len));
        assert Ranges() == [Range(0, len)];
        forall y: int
          ensures Has(Ranges(), y) <==> 0 <= y < len
        {
          HasOne(Range(0, len), y);
        }
      }
    }

    method AddSet(other: IndexSet)
      requires Valid() && other.Valid()
      modifies v
      ensures Valid() && forall y: int :: Has(Ranges(), y) <==> old(Has(Ranges(), y)) || old(Has(other.Ranges(), y))
    {
      hide Flat, Sorted, ChunksOk, Place, Has, Indices, Run, IndexIterator.Rest, FirstAfter, Adding, EndBy, NonEmpty;
      ghost var f, g := Ranges(), other.Ranges();
      OkNonEmpty(v.chunks);
      OkNonEmpty(other.v.chunks);
      BeginPlace(v.chunks);
      var it := Begin(v.chunks);
      var indices := StartIndices(other.v.chunks);
      ghost var done: seq<nat> := [];
      AddStart(f, g);
      while !indices.AtEnd()
        invariant Valid() && OnPath(v.chunks, it) && fresh(indices) && fresh(indices.it) && indices.Valid()
        invariant Adding(f, g, done, indices.Rest(), Ranges()) && EndBy(Ranges(), Place(v.chunks, it), indices.Rest())
        decreases |indices.Rest()|
      {
        ghost var rest := indices.Rest();
        var index := indices.Get();
        EndByFacts(Ranges(), Place(v.chunks, it), rest);
        SortedIsLoose(Ranges());
        it := FindFrom(index, it);
        ghost var h, p := Ranges(), Place(v.chunks, it);
        it := DoAdd(it, index);
        AddStep(f, g, done, rest, h, p);
        done := done + [index];
        indices.Advance();
      }
      AddEnd(f, g, done, Ranges());
    }

    // Adds the values that lie outside shiftedBy, counted among the indices
    // outside it and placed among those outside this set. The ranges are right;
    // the chunk counts go wrong exactly if a copied range overruns the chunks
    // reserved for the old set.
    method AddShiftedBy(shiftedBy: IndexSet, values: IndexSet)
      requires Valid() && shiftedBy.Valid() && values.Valid()
      modifies v
      ensures Sorted(Ranges())
      ensures forall y: int :: Has(Ranges(), y) <==>
                old(Has(Ranges(), y)) || ShiftedInto(old(Ranges()), old(shiftedBy.Ranges()), old(values.Ranges()), y)
      ensures var f := old(Ranges());
              var xs := Targets(f, old(shiftedBy.Ranges()), Indices(old(values.Ranges())));
              v.Valid() <==> !Overruns(f, AddAll(f, xs), Last(xs))
    {
      hide Flat, Sorted, ChunksOk, NonEmpty, Has, Indices, Targets, AddAll, Overruns, ShiftedInto;
      ghost var f, g, h := Ranges(), shiftedBy.Ranges(), values.Ranges();
      ghost var xs := Targets(f, g, Indices(h));
      OkNonEmpty(v.chunks);
      OkNonEmpty(shiftedBy.v.chunks);
      OkNonEmpty(values.v.chunks);
      FlatAll(values.v.chunks);
      TargetsAdded(f, g, h);
      if values.v.chunks == [] {
        NothingAdded(f, g);
        NothingOverruns(f, -1);
        return;
      }
      v.chunks := MergeShifted(v.chunks, shiftedBy.v.chunks, values.v.chunks);
    }

    // insert_at(positions): the positions become members, and each old member
    // keeps as many free indices below it as it had indices.
    method InsertAtSet(positions: IndexSet)
      requires Valid() && positions.Valid()
      modifies v
      ensures Valid() && InsertedAt(old(Ranges()), old(positions.Ranges()), Ranges())
    {
      hide Flat, Sorted, ChunksOk, NonEmpty, Has, InsertedAt;
      ghost var f, g := Ranges(), positions.Ranges();
      OkNonEmpty(v.chunks);
      OkNonEmpty(positions.v.chunks);
      FlatAll(v.chunks);
      FlatAll(positions.v.chunks);
      InsertNothing(f, g);
      if positions.v.chunks == [] {
        return;
      }
      if v.chunks == [] {
        v.chunks := positions.v.chunks;
        return;
      }
      v.chunks := MergeInserted(v.chunks, positions.v.chunks);
    }

    // shift_for_insert_at(positions): old members move as for insert_at, and
    // the positions stay free.
    method ShiftForInsertAtSet(positions: IndexSet)
      requires Valid() && positions.Valid()
      modifies v
      ensures Valid() && RoomMade(old(Ranges()), old(positions.Ranges()), Ranges())
    {
      hide Flat, Sorted, ChunksOk, NonEmpty, Has, RoomMade;
      ghost var f, g := Ranges(), positions.Ranges();
      OkNonEmpty(v.chunks);
      OkNonEmpty(positions.v.chunks);
      FlatAll(v.chunks);
      FlatAll(positions.v.chunks);
      if v.chunks == [] || positions.v.chunks == [] {
        RoomNothing(f, g);
        return;
      }
      FlatEnds(v.chunks);
      FlatEnds(positions.v.chunks);
      if positions.v.chunks[0].begin >= v.chunks[|v.chunks| - 1].end {
        RoomNothing(f, g);
        return;
      }
      v.chunks := MergeRoomMade(v.chunks, positions.v.chunks);
    }

    // erase_at(positions): the positions go, and the other members close up.
    method EraseAtSet(positions: IndexSet)
      requires Valid() && positions.Valid()
      modifies v
      ensures Valid() && ErasedAt(old(Ranges()), old(positions.Ranges()), Ranges())
    {
      hide Flat, Sorted, ChunksOk, NonEmpty, Has, ErasedAt;
      ghost var f, g := Ranges(), positions.Ranges();
      OkNonEmpty(v.chunks);
      OkNonEmpty(positions.v.chunks);
      FlatAll(v.chunks);
      FlatAll(positions.v.chunks);
      if v.chunks == [] || positions.v.chunks == [] {
        EraseNothing(f, g);
        return;
      }
      v.chunks := MergeErased(v.chunks, positions.v.chunks);
    }

    method RemoveSet(values: IndexSet)
      requires Valid() && values.Valid() && values.v != v
      modifies v
      ensures Valid() && forall y: int :: Has(Ranges(), y) <==> old(Has(Ranges(), y)) && !old(Has(values.Ranges(), y))
    {
      hide Flat, Sorted, ChunksOk, Place, Has;
      ghost var f, g := Ranges(), values.Ranges();
      OkNonEmpty(v.chunks);
      OkNonEmpty(values.v.chunks);
      BeginPlace(v.chunks);
      BeginPlace(values.v.chunks);
      var it := Begin(v.chunks);
      var at := Begin(values.v.chunks);
      assert g[..0] == [];
      forall y: int
        ensures !Has([], y)
      {
        NoneHas(y);
      }
      while at.outer < |values.v.chunks|
        invariant Valid() && OnPath(v.chunks, it) && OnPath(values.v.chunks, at) && Place(values.v.chunks, at) <= |g|
        invariant forall k | 0 <= k < Place(v.chunks, it) && k < |Ranges()| ::
                    Place(values.v.chunks, at) < |g| ==> Ranges()[k].second <= g[Place(values.v.chunks, at)].first
        invariant forall y: int :: Has(Ranges(), y) <==> Has(f, y) && !Has(g[..Place(values.v.chunks, at)], y)
        decreases |g| - Place(values.v.chunks, at)
      {
        ghost var p, h := Place(values.v.chunks, at), Ranges();
        FindFacts(values.v.chunks, at);
        CutNeighbours(g, p);
        NextPlace(values.v.chunks, at);
        var range := values.v.chunks[at.outer].data[at.inner.value];
        it := DoRemove(it, range.first, range.second);
        RemovedSoFar(f, g, p, h, Ranges());
        if it.outer == |v.chunks| {
          FindFacts(v.chunks, it);
          NothingLeft(f, g, p, Ranges());
          return;
        }
        at := Next(values.v.chunks, at);
        FindFacts(values.v.chunks, at);
      }
      FindFacts(values.v.chunks, at);
      assert g[..|g|] == g;
    }

  }

  // ----- A run in which count goes wrong -----

  // Adding every fourth index up to 1024 fills one chunk with 256 ranges and
  // puts the last one into a chunk of its own. Of the 256 members in [1, 1025)
  // only the 255 in the first chunk are counted.
  method MiscountReached() returns (s: IndexSet, n: int)
    ensures s.Valid() && fresh(s) && fresh(s.v)
    ensures s.Ranges() == FourApart(257) && CountIn(s.Ranges(), 1, 1025) == 256 && n == 255
  {
    hide IndexSet.Valid, IndexSet.Ranges, CountIn, FourApart, Straddles;
    s := new IndexSet();
    assert FourApart(0) == [] by {
      FourApartEnds(0);
    }
    for i := 0 to 257
      invariant s.Valid() && fresh(s) && fresh(s.v) && TwoChunks(s.v.chunks, i) && s.Ranges() == FourApart(i)
    {
      FourApartEnds(i);
      ghost var before := s.v.chunks;
      s.Add(4 * i);
      s.SameRanges();
      TwoChunksNext(before, s.v.chunks, i);
      TwoChunksFlat(s.v.chunks, i + 1);
    }
    n := s.Count(1, 1025);
    TwoChunksStraddle(s.v.chunks);
    FourApartCount();
  }

  function FourApart(n: nat): (rs: seq<Range>)
    ensures |rs| == n
  {
    seq(n, i requires 0 <= i < n => Range(4 * i, 4 * i + 1))
  }

  lemma {:induction false} FourApartEnds(n: nat)
    ensures EndsBelow(FourApart(n), 4 * n) && (n == 0 ==> FourApart(n) == [])
  {
  }

  // The first 256 ranges in one chunk, the rest in the next.
  ghost predicate TwoChunks(cs: seq<Chunk>, n: nat) {
    && ChunksOk(cs)
    && |cs| == (if n == 0 then 0 else if n <= MAX_SIZE then 1 else 2)
    && (0 < n ==> cs[0].data == FourApart(if n <= MAX_SIZE then n else MAX_SIZE))
    && (MAX_SIZE < n ==> cs[1].data == FourApart(n)[MAX_SIZE..])
  }

  lemma {:induction false} TwoChunksNext(before: seq<Chunk>, after: seq<Chunk>, n: nat)
    requires TwoChunks(before, n) && n <= MAX_SIZE && ChunksOk(after)
    requires after == PushedChunks(before, Range(4 * n, 4 * n + 1))
    ensures TwoChunks(after, n + 1)
  {
    hide Total;
    assert FourApart(n + 1) == FourApart(n) + [Range(4 * n, 4 * n + 1)];
  }

  lemma {:induction false} TwoChunksFlat(cs: seq<Chunk>, n: nat)
    requires TwoChunks(cs, n)
    ensures Flat(cs) == FourApart(n)
  {
    hide Flat, Total;
    if n == 0 {
      FlatAll(cs);
    } else if n <= MAX_SIZE {
      FlatOne(cs[0]);
      assert cs == [cs[0]];
    } else {
      FlatConcat([cs[0]], [cs[1]]);
      FlatOne(cs[0]);
      FlatOne(cs[1]);
      assert cs == [cs[0]] + [cs[1]];
      assert FourApart(n)[..MAX_SIZE] == FourApart(MAX_SIZE);
      assert FourApart(n) == FourApart(n)[..MAX_SIZE] + FourApart(n)[MAX_SIZE..];
    }
  }

  lemma {:induction false} TwoChunksStraddle(cs: seq<Chunk>)
    requires TwoChunks(cs, 257)
    ensures NonEmpty(cs) && |cs| == 2 && Straddles(cs, 0, 1, 1025) && cs[1].begin == 1024
  {
    hide Total;
    OkNonEmpty(cs);
  }

  lemma {:induction false} FourApartCount()
    ensures CountIn(FourApart(257), 1, 1025) == 256
  {
    hide CountIn;
    var rs := FourApart(257);
    var tail := rs[1..];
    assert rs == [Range(0, 1)] + tail;
    CountConcat([Range(0, 1)], tail, 1, 1025);
    CountSingle(Range(0, 1), 1, 1025);
    CountWhole(tail, 1, 1025);
    TotalOfOnes(tail);
  }

  lemma {:induction false} TotalOfOnes(rs: seq<Range>)
    requires forall i | 0 <= i < |rs| :: Length(rs[i]) == 1
    ensures Total(rs) == |rs|
  {
    if rs != [] {
      TotalOfOnes(rs[1..]);
    }
  }
}
