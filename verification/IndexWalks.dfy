// The loops of IndexSet over its chunks and ranges: what has been passed so
// far, and what each step adds.
module IndexWalks {
  import opened Wrappers
  import opened Ranges
  import opened Chunks
  import opened ChunkedVector
  import opened RangeEdits
  import opened RangeCount
  import opened IndexMerge

  // One more range of g is gone.
  lemma {:induction false} RemovedSoFar(f: seq<Range>, g: seq<Range>, p: nat, before: seq<Range>, after: seq<Range>)
    requires p < |g|
    requires forall y: int :: Has(before, y) <==> Has(f, y) && !Has(g[..p], y)
    requires forall y: int :: Has(after, y) <==> Has(before, y) && !(g[p].first <= y < g[p].second)
    ensures forall y: int :: Has(after, y) <==> Has(f, y) && !Has(g[..p + 1], y)
  {
    hide Has;
    forall y: int
      ensures Has(after, y) <==> Has(f, y) && !Has(g[..p + 1], y)
    {
      assert g[..p + 1] == g[..p] + [g[p]];
      HasSplit(g[..p], [g[p]], y);
      HasOne(g[p], y);
    }
  }

  // All ranges end before the later ranges of g begin.
  lemma {:induction false} NothingLeft(f: seq<Range>, g: seq<Range>, p: nat, rs: seq<Range>)
    requires Sorted(g) && p < |g| && Sorted(rs)
    requires forall k | 0 <= k < |rs| :: rs[k].second <= g[p].second
    requires forall y: int :: Has(rs, y) <==> Has(f, y) && !Has(g[..p + 1], y)
    ensures forall y: int :: Has(rs, y) <==> Has(f, y) && !Has(g, y)
  {
    hide Sorted;
    forall y: int
      ensures Has(rs, y) <==> Has(f, y) && !Has(g, y)
    {
      assert g == g[..p + 1] + g[p + 1..];
      HasSplit(g[..p + 1], g[p + 1..], y);
      Ends(g, p, y);
    }
  }

  // The indices listed in done have been added.
  ghost predicate Adding(f: seq<Range>, g: seq<Range>, done: seq<nat>, rest: seq<nat>, rs: seq<Range>) {
    done + rest == Indices(g) && forall y: int :: Has(rs, y) <==> Has(f, y) || (y >= 0 && y in done)
  }

  ghost predicate EndBy(rs: seq<Range>, p: nat, rest: seq<nat>) {
    rest != [] ==> forall k | 0 <= k < p && k < |rs| :: rs[k].second <= rest[0]
  }

  lemma {:induction false} EndByFacts(rs: seq<Range>, p: nat, rest: seq<nat>)
    requires EndBy(rs, p, rest) && rest != []
    ensures forall k | 0 <= k < p && k < |rs| :: rs[k].second <= rest[0]
  {
  }

  lemma {:induction false} AddStart(f: seq<Range>, g: seq<Range>)
    ensures Adding(f, g, [], Indices(g), f) && EndBy(f, 0, Indices(g))
  {
  }

  lemma {:induction false} AddStep(f: seq<Range>, g: seq<Range>, done: seq<nat>, rest: seq<nat>, rs: seq<Range>, p: nat)
    requires Sorted(rs) && Sorted(g) && Adding(f, g, done, rest, rs) && rest != [] && FirstAfter(rs, rest[0], p)
    ensures var e := Add(rs, rest[0], p);
            Adding(f, g, done + [rest[0]], rest[1..], e.rs) && EndBy(e.rs, e.p, rest[1..])
  {
    hide Has, Sorted, Indices, Add;
    var e := Add(rs, rest[0], p);
    forall y: int
      ensures Has(e.rs, y) <==> Has(rs, y) || y == rest[0]
    {
      AddHas(rs, rest[0], p, y);
    }
    AddedBefore(rs, rest[0], p);
    ListedOrder(g, done, rest);
    assert done + [rest[0]] + rest[1..] == done + rest;
  }

  lemma {:induction false} AddEnd(f: seq<Range>, g: seq<Range>, done: seq<nat>, rs: seq<Range>)
    requires Sorted(g) && Adding(f, g, done, [], rs)
    ensures forall y: int :: Has(rs, y) <==> Has(f, y) || Has(g, y)
  {
    hide Has, Sorted, Indices;
    forall y: int
      ensures y >= 0 && y in done <==> Has(g, y)
    {
      HasIsNat(g, y);
      if y >= 0 {
        ListedHas(g, done, [], y);
      }
    }
  }

  // Adding x leaves the ranges before its own alone, and they end by x.
  lemma {:induction false} AddedBefore(rs: seq<Range>, x: nat, p: nat)
    requires Sorted(rs) && FirstAfter(rs, x, p)
    ensures var e := Add(rs, x, p); forall k | 0 <= k < e.p && k < |e.rs| :: e.rs[k].second <= x
  {
  }

  ghost predicate EndsBelow(rs: seq<Range>, x: nat) {
    forall k | 0 <= k < |rs| :: rs[k].second < x
  }

  // The first chunk begins, and the last one ends, where the ranges do.
  lemma {:induction false} FlatEnds(cs: seq<Chunk>)
    requires ChunksOk(cs) && cs != []
    ensures Flat(cs) != [] && Flat(cs)[0].first == cs[0].begin && Flat(cs)[|Flat(cs)| - 1].second == cs[|cs| - 1].end
  {
    hide Flat, Total;
    FlatSplit(cs, 0);
    FlatSplit(cs, |cs| - 1);
    FlatAll(cs);
    FlatAll(cs[|cs|..]);
    assert cs[|cs|..] == [];
  }

  lemma {:induction false} FindFacts(cs: seq<Chunk>, it: Cursor)
    requires OnPath(cs, it)
    ensures Place(cs, it) <= |Flat(cs)|
    ensures IsEnd(cs, it) ==> Place(cs, it) == |Flat(cs)|
    ensures At(cs, it) ==> Place(cs, it) < |Flat(cs)| && Flat(cs)[Place(cs, it)] == Deref(cs, it)
  {
    hide Flat, Place;
    PlaceInBounds(cs, it);
    EndPlace(cs);
    if At(cs, it) {
      DerefIsFlat(cs, it);
    }
  }

  // No range ends after x: erasing x moves nothing.
  lemma {:induction false} NothingCloses(rs: seq<Range>, x: nat, p: nat)
    requires Sorted(rs) && FirstAfter(rs, x, p) && p == |rs|
    ensures forall y: int :: Has(rs, y) <==> Closed(rs, x, y)
  {
    hide Has;
    forall y: int
      ensures Has(rs, y) <==> Closed(rs, x, y)
    {
      Sides(rs, x, p, y);
      Sides(rs, x, p, y + 1);
    }
  }

  // The ranges before it end by index and have n members.
  ghost predicate Passed(cs: seq<Chunk>, it: Cursor, index: nat, n: int) {
    && OnPath(cs, it) && Place(cs, it) <= |Flat(cs)|
    && (forall k | 0 <= k < Place(cs, it) :: Flat(cs)[k].second <= index)
    && n == Total(Flat(cs)[..Place(cs, it)])
  }

  lemma {:induction false} PassNone(cs: seq<Chunk>, index: nat)
    requires ChunksOk(cs)
    ensures Passed(cs, Begin(cs), index, 0) && OnPath(cs, Begin(cs))
  {
    OkNonEmpty(cs);
    BeginPlace(cs);
  }

  lemma {:induction false} PassWhole(cs: seq<Chunk>, it: Cursor, index: nat, n: int)
    requires ChunksOk(cs) && Sorted(Flat(cs)) && Passed(cs, it, index, n) && At(cs, it) && it.inner == Some(0)
    requires cs[it.outer].end <= index
    ensures Passed(cs, NextChunk(cs, it), index, n + cs[it.outer].count)
    ensures OnPath(cs, NextChunk(cs, it))
  {
    hide Flat, Total, Sorted, Place, ChunksOk;
    SkipChunk(cs, it);
    TotalTake(Flat(cs), Place(cs, it), Place(cs, NextChunk(cs, it)));
  }

  lemma {:induction false} PassOne(cs: seq<Chunk>, it: Cursor, index: nat, n: int)
    requires ChunksOk(cs) && Passed(cs, it, index, n) && At(cs, it) && Deref(cs, it).second <= index
    ensures Passed(cs, Next(cs, it), index, n + Length(Deref(cs, it)))
    ensures OnPath(cs, Next(cs, it))
    ensures Place(cs, it) < Place(cs, Next(cs, it)) <= |Flat(cs)|
  {
    hide Flat, Total, Place, ChunksOk;
    OkNonEmpty(cs);
    DerefIsFlat(cs, it);
    NextPlace(cs, it);
    var p := Place(cs, it);
    TotalTake(Flat(cs), p, p + 1);
    assert Flat(cs)[p..p + 1] == [Flat(cs)[p]];
    TotalOne(Flat(cs)[p]);
  }

  lemma {:induction false} PassDone(cs: seq<Chunk>, it: Cursor, index: nat, n: int)
    requires ChunksOk(cs) && Sorted(Flat(cs)) && Passed(cs, it, index, n) && OnPath(cs, it)
    requires At(cs, it) ==> Deref(cs, it).second > index
    ensures FirstAfter(Flat(cs), index, Place(cs, it))
    ensures IsEnd(cs, it) ==> Place(cs, it) == |Flat(cs)|
    ensures !Has(Flat(cs), index) ==> n == index - Unshifted(Flat(cs), index)
    ensures Has(Flat(cs), index) <==> At(cs, it) && Deref(cs, it).first <= index
  {
    hide Flat, Sorted, Place, ChunksOk, Has;
    EndPlace(cs);
    if At(cs, it) {
      DerefIsFlat(cs, it);
    }
    UnshiftSkip(Flat(cs), index, Place(cs, it));
    FirstAfterHas(Flat(cs), index, Place(cs, it));
  }

  // All ranges from p on begin after x.
  ghost predicate AllAbove(rs: seq<Range>, p: nat, x: nat) {
    p < |rs| ==> x < rs[p].first
  }

  lemma {:induction false} EraseMembers(rs: seq<Range>, x: nat, p: nat)
    requires Sorted(rs) && FirstAfter(rs, x, p) && p < |rs|
    ensures forall y: int :: Has(Erase(rs, x, p), y) <==> Closed(rs, x, y)
  {
    hide Has, Erase;
    forall y: int
      ensures Has(Erase(rs, x, p), y) <==> Closed(rs, x, y)
    {
      EraseHas(rs, x, p, y);
    }
  }

  // The ranges before it begin at or below the index shifted by those before
  // them, and shifted is the index shifted by all of them.
  ghost predicate Skipped(cs: seq<Chunk>, it: Cursor, index: nat, shifted: nat) {
    && OnPath(cs, it) && Place(cs, it) <= |Flat(cs)|
    && (forall k | 0 <= k < Place(cs, it) :: Flat(cs)[k].second <= shifted)
    && Shifted(Flat(cs)[Place(cs, it)..], shifted) == Shifted(Flat(cs), index)
  }

  lemma {:induction false} OnTheWay(cs: seq<Chunk>, it: Cursor, index: nat, shifted: nat)
    requires Skipped(cs, it, index, shifted)
    ensures OnPath(cs, it) && Place(cs, it) <= |Flat(cs)|
  {
  }

  lemma {:induction false} SkipNone(cs: seq<Chunk>, index: nat)
    requires ChunksOk(cs)
    ensures Skipped(cs, Begin(cs), index, index) && OnPath(cs, Begin(cs))
  {
    OkNonEmpty(cs);
    BeginPlace(cs);
    assert Flat(cs)[0..] == Flat(cs);
  }

  lemma {:induction false} SkipWhole(cs: seq<Chunk>, it: Cursor, index: nat, shifted: nat)
    requires ChunksOk(cs) && Sorted(Flat(cs)) && Skipped(cs, it, index, shifted) && At(cs, it) && it.inner == Some(0)
    requires cs[it.outer].end <= shifted
    ensures shifted + cs[it.outer].count >= 0
    ensures Skipped(cs, NextChunk(cs, it), index, shifted + cs[it.outer].count)
    ensures OnPath(cs, NextChunk(cs, it))
  {
    hide Flat, Total, Sorted, Place, ChunksOk;
    SkipChunk(cs, it);
    var f, p, q := Flat(cs), Place(cs, it), Place(cs, NextChunk(cs, it));
    assert f[p..] == f[p..q] + f[q..];
    ShiftSkip(f[p..q], f[q..], shifted);
  }

  lemma {:induction false} SkipOne(cs: seq<Chunk>, it: Cursor, index: nat, shifted: nat)
    requires ChunksOk(cs) && Sorted(Flat(cs)) && Skipped(cs, it, index, shifted) && At(cs, it)
    requires Deref(cs, it).first <= shifted
    ensures shifted + Length(Deref(cs, it)) >= 0
    ensures Skipped(cs, Next(cs, it), index, shifted + Length(Deref(cs, it)))
    ensures Place(cs, it) < Place(cs, Next(cs, it)) <= |Flat(cs)|
  {
    hide Flat, Sorted, Place, ChunksOk;
    OkNonEmpty(cs);
    SortedFacts(Flat(cs));
    DerefIsFlat(cs, it);
    NextPlace(cs, it);
    assert Flat(cs)[Place(cs, it)..][1..] == Flat(cs)[Place(cs, it) + 1..];
  }

  lemma {:induction false} SkipDone(cs: seq<Chunk>, it: Cursor, index: nat, shifted: nat)
    requires ChunksOk(cs) && Sorted(Flat(cs)) && Skipped(cs, it, index, shifted) && OnPath(cs, it)
    requires At(cs, it) ==> Deref(cs, it).first > shifted
    ensures FirstAfter(Flat(cs), shifted, Place(cs, it)) && shifted == Shifted(Flat(cs), index)
  {
    hide Flat, Sorted, Place, ChunksOk;
    SortedFacts(Flat(cs));
    if At(cs, it) {
      DerefIsFlat(cs, it);
    } else {
      EndPlace(cs);
    }
  }

  // All ranges of the chunks that were skipped, and before them, end by index.
  lemma {:induction false} ChunksBefore(cs: seq<Chunk>, index: nat, begin: Cursor, k: nat)
    requires ChunksOk(cs) && Loose(Flat(cs)) && OnPath(cs, begin) && begin.outer <= k <= |cs|
    requires forall j | begin.outer <= j < k :: cs[j].end <= index
    requires forall i | 0 <= i < Place(cs, begin) && i < |Flat(cs)| :: Flat(cs)[i].second <= index
    ensures |Flat(cs[..k])| <= |Flat(cs)|
    ensures forall i | 0 <= i < |Flat(cs[..k])| :: Flat(cs)[i].second <= index
    ensures k == begin.outer && k < |cs| ==> forall i | 0 <= i < begin.inner.value :: cs[k].data[i].second <= index
    decreases k
  {
    hide Flat, Total;
    FlatGrows(cs, k, |cs|);
    FlatAll(cs);
    if k == begin.outer {
      if k < |cs| {
        FlatSplit(cs, k);
        forall i | 0 <= i < begin.inner.value
          ensures cs[k].data[i].second <= index
        {
          assert Flat(cs)[|Flat(cs[..k])| + i] == cs[k].data[i];
        }
      }
    } else {
      ChunksBefore(cs, index, begin, k - 1);
      FlatSplit(cs, k - 1);
      DataLoose(cs, k - 1);
      forall i | |Flat(cs[..k - 1])| <= i < |Flat(cs[..k])|
        ensures Flat(cs)[i].second <= index
      {
        assert Flat(cs)[i] == cs[k - 1].data[i - |Flat(cs[..k - 1])|];
      }
    }
  }

  lemma {:induction false} DataLoose(cs: seq<Chunk>, k: nat)
    requires Loose(Flat(cs)) && k < |cs|
    ensures Loose(cs[k].data)
  {
    hide Flat;
    FlatSplit(cs, k);
    var a := |Flat(cs[..k])|;
    forall i, j | 0 <= i < j < |cs[k].data|
      ensures cs[k].data[i].second <= cs[k].data[j].first
    {
      assert Flat(cs)[a + i] == cs[k].data[i] && Flat(cs)[a + j] == cs[k].data[j];
    }
    forall i | 0 <= i < |cs[k].data|
      ensures cs[k].data[i].first < cs[k].data[i].second
    {
      assert Flat(cs)[a + i] == cs[k].data[i];
    }
  }

  lemma {:induction false} ChunkEnds(cs: seq<Chunk>, k: nat)
    requires ChunksOk(cs) && k < |cs|
    ensures |cs[k].data| > 0 && cs[k].end == cs[k].data[|cs[k].data| - 1].second
  {
  }
}
