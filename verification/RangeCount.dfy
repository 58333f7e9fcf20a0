// What IndexSet::count adds up while it walks, and when it stops too early.
module RangeCount {
  import opened Wrappers
  import opened Ranges
  import opened RangeEdits
  import opened Chunks
  import opened ChunkedVector

  // The count starts inside chunk k and ends inside the first range of the
  // next chunk, or it runs backwards within one range.
  ghost predicate Miscounts(cs: seq<Chunk>, lo: int, hi: int)
    requires NonEmpty(cs)
  {
    || (exists k :: 0 <= k < |cs| - 1 && Straddles(cs, k, lo, hi))
    || (hi < lo && exists i :: 0 <= i < |Flat(cs)| && Flat(cs)[i].first < hi && lo < Flat(cs)[i].second)
  }

  ghost predicate Straddles(cs: seq<Chunk>, k: nat, lo: int, hi: int)
    requires NonEmpty(cs) && k + 1 < |cs|
  {
    cs[k].begin < lo < cs[k].end && cs[k + 1].data[0].first < hi <= cs[k + 1].data[0].second
  }

  // The ranges before it have been counted, and those from it on begin at lo
  // or later.
  ghost predicate Counted(cs: seq<Chunk>, it: Cursor, lo: int, hi: int, n: int) {
    && OnPath(cs, it) && Place(cs, it) <= |Flat(cs)|
    && n == CountIn(Flat(cs)[..Place(cs, it)], lo, hi)
    && forall k | Place(cs, it) <= k < |Flat(cs)| :: lo <= Flat(cs)[k].first
  }

  // A chunk skipped as a whole.
  lemma {:induction false} SkipChunk(cs: seq<Chunk>, it: Cursor)
    requires ChunksOk(cs) && Sorted(Flat(cs)) && At(cs, it) && it.inner == Some(0)
    ensures OnPath(cs, NextChunk(cs, it)) && Place(cs, it) < Place(cs, NextChunk(cs, it)) <= |Flat(cs)|
    ensures Flat(cs)[Place(cs, it)..Place(cs, NextChunk(cs, it))] == cs[it.outer].data
    ensures Total(cs[it.outer].data) == cs[it.outer].count
    ensures forall k | Place(cs, it) <= k < Place(cs, NextChunk(cs, it)) ::
              Flat(cs)[k].first < Flat(cs)[k].second <= cs[it.outer].end
  {
    hide Flat, Total;
    FlatSplit(cs, it.outer);
    var p, n := Place(cs, it), |cs[it.outer].data|;
    forall k | p <= k < p + n
      ensures Flat(cs)[k].first < Flat(cs)[k].second <= cs[it.outer].end
    {
      assert Flat(cs)[p + n - 1] == cs[it.outer].data[n - 1];
    }
  }

  lemma {:induction false} CountTake(rs: seq<Range>, p: nat, lo: int, hi: int)
    requires p < |rs|
    ensures CountIn(rs[..p + 1], lo, hi) == CountIn(rs[..p], lo, hi) + Overlap(rs[p], lo, hi)
  {
    hide CountIn, Overlap;
    assert rs[..p + 1] == rs[..p] + [rs[p]];
    CountConcat(rs[..p], [rs[p]], lo, hi);
    CountSingle(rs[p], lo, hi);
  }

  lemma {:induction false} CountSingle(r: Range, lo: int, hi: int)
    ensures CountIn([r], lo, hi) == Overlap(r, lo, hi)
  {
    assert CountIn([r][1..], lo, hi) == 0;
  }

  // The first range that ends after lo.
  lemma {:induction false} CountFirst(cs: seq<Chunk>, it: Cursor, lo: nat, hi: int)
    requires ChunksOk(cs) && Sorted(Flat(cs)) && At(cs, it) && FirstAfter(Flat(cs), lo, Place(cs, it))
    ensures Counted(cs, Next(cs, it), lo, hi, Overlap(Deref(cs, it), lo, hi))
    ensures lo <= Deref(cs, it).first ==> Counted(cs, it, lo, hi, 0)
  {
    hide Flat, Place, CountIn, ChunksOk, Overlap;
    OkNonEmpty(cs);
    DerefIsFlat(cs, it);
    NextPlace(cs, it);
    var f, p := Flat(cs), Place(cs, it);
    CountTake(f, p, lo, hi);
    CountNone(f[..p], lo, hi);
  }

  lemma {:induction false} CountNext(cs: seq<Chunk>, it: Cursor, lo: int, hi: int, n: int)
    requires ChunksOk(cs) && Sorted(Flat(cs)) && At(cs, it) && Counted(cs, it, lo, hi, n)
    ensures lo <= Deref(cs, it).first < Deref(cs, it).second
    ensures Counted(cs, Next(cs, it), lo, hi, n + Overlap(Deref(cs, it), lo, hi))
    ensures Place(cs, it) < Place(cs, Next(cs, it)) <= |Flat(cs)|
  {
    hide Flat, Place, CountIn, ChunksOk, Overlap;
    OkNonEmpty(cs);
    DerefIsFlat(cs, it);
    NextPlace(cs, it);
    CountTake(Flat(cs), Place(cs, it), lo, hi);
  }

  lemma {:induction false} CountChunk(cs: seq<Chunk>, it: Cursor, lo: int, hi: int, n: int)
    requires ChunksOk(cs) && Sorted(Flat(cs)) && At(cs, it) && it.inner == Some(0) && Counted(cs, it, lo, hi, n)
    requires cs[it.outer].end <= hi
    ensures Counted(cs, NextChunk(cs, it), lo, hi, n + cs[it.outer].count)
    ensures OnPath(cs, NextChunk(cs, it))
  {
    hide Flat, Place, CountIn, ChunksOk, Overlap, Sorted;
    SkipChunk(cs, it);
    var f, p, q := Flat(cs), Place(cs, it), Place(cs, NextChunk(cs, it));
    assert f[..q] == f[..p] + f[p..q];
    CountConcat(f[..p], f[p..q], lo, hi);
    CountWhole(f[p..q], lo, hi);
  }

  lemma {:induction false} CountDone(cs: seq<Chunk>, it: Cursor, lo: int, hi: int, n: int)
    requires ChunksOk(cs) && Sorted(Flat(cs)) && Counted(cs, it, lo, hi, n)
    requires At(cs, it) ==> hi <= Deref(cs, it).first
    ensures n == CountIn(Flat(cs), lo, hi)
  {
    hide Flat, Place, CountIn, ChunksOk;
    var f, p := Flat(cs), Place(cs, it);
    if At(cs, it) {
      DerefIsFlat(cs, it);
      forall k | p <= k < |f|
        ensures hi <= f[k].first
      {
        OrderedEnds(f, p, k);
      }
    } else {
      EndPlace(cs);
    }
    assert f == f[..p] + f[p..];
    CountConcat(f[..p], f[p..], lo, hi);
    CountNone(f[p..], lo, hi);
  }

  // After a range that reaches hi nothing more counts.
  lemma {:induction false} CountLast(cs: seq<Chunk>, it: Cursor, lo: int, hi: int, n: int)
    requires ChunksOk(cs) && Sorted(Flat(cs)) && At(cs, it) && Counted(cs, Next(cs, it), lo, hi, n)
    requires hi <= Deref(cs, it).second
    ensures n == CountIn(Flat(cs), lo, hi)
  {
    hide Flat, Place, CountIn, ChunksOk, Counted, Sorted;
    OkNonEmpty(cs);
    NextPlace(cs, it);
    NextBeyond(cs, it);
    CountDone(cs, Next(cs, it), lo, hi, n);
  }

  lemma {:induction false} NextBeyond(cs: seq<Chunk>, it: Cursor)
    requires ChunksOk(cs) && Sorted(Flat(cs)) && At(cs, it)
    ensures At(cs, Next(cs, it)) ==> Deref(cs, it).second < Deref(cs, Next(cs, it)).first
  {
    hide Flat, Place, ChunksOk;
    OkNonEmpty(cs);
    DerefIsFlat(cs, it);
    NextPlace(cs, it);
    if At(cs, Next(cs, it)) {
      DerefIsFlat(cs, Next(cs, it));
    }
  }

  // The next chunk begins beyond every range of this one.
  lemma {:induction false} ChunkBeyond(cs: seq<Chunk>, it: Cursor)
    requires ChunksOk(cs) && Sorted(Flat(cs)) && At(cs, it) && it.outer + 1 < |cs|
    ensures Deref(cs, it).second < cs[it.outer + 1].data[0].first
  {
    hide Flat, ChunksOk;
    OkNonEmpty(cs);
    var next := NextChunk(cs, it);
    DerefIsFlat(cs, it);
    DerefIsFlat(cs, next);
    FlatSplit(cs, it.outer);
  }

  lemma {:induction false} CountNothing(cs: seq<Chunk>, it: Cursor, lo: nat, hi: int)
    requires ChunksOk(cs) && Sorted(Flat(cs)) && OnPath(cs, it) && FirstAfter(Flat(cs), lo, Place(cs, it))
    requires At(cs, it) ==> hi <= Deref(cs, it).first
    ensures CountIn(Flat(cs), lo, hi) == 0
  {
    hide Flat, Place, CountIn, ChunksOk;
    var f, p := Flat(cs), Place(cs, it);
    if At(cs, it) {
      DerefIsFlat(cs, it);
      forall k | p <= k < |f|
        ensures hi <= f[k].first
      {
        OrderedEnds(f, p, k);
      }
    } else {
      EndPlace(cs);
    }
    CountNone(f, lo, hi);
  }

  lemma {:induction false} FirstFacts(cs: seq<Chunk>, it: Cursor, lo: nat)
    requires Sorted(Flat(cs)) && At(cs, it) && FirstAfter(Flat(cs), lo, Place(cs, it))
    ensures Deref(cs, it).first < Deref(cs, it).second && lo < Deref(cs, it).second
  {
    hide Flat, Place;
    DerefIsFlat(cs, it);
  }

  lemma {:induction false} CountedFacts(cs: seq<Chunk>, it: Cursor, lo: int, hi: int, n: int)
    requires Counted(cs, it, lo, hi, n)
    ensures OnPath(cs, it) && Place(cs, it) <= |Flat(cs)|
  {
  }

  // A walk that starts inside a chunk starts inside its outer bounds.
  lemma {:induction false} ChunkStart(cs: seq<Chunk>, it: Cursor, lo: nat)
    requires ChunksOk(cs) && Sorted(Flat(cs)) && At(cs, it) && FirstAfter(Flat(cs), lo, Place(cs, it))
    ensures lo > Deref(cs, it).first || it.inner.value != 0 <==> cs[it.outer].begin < lo
    ensures lo < cs[it.outer].end
  {
    hide Flat;
    var first, last := Cursor(it.outer, Some(0)), Cursor(it.outer, Some(|cs[it.outer].data| - 1));
    DerefIsFlat(cs, it);
    DerefIsFlat(cs, first);
    DerefIsFlat(cs, last);
    OrderedEnds(Flat(cs), Place(cs, it), Place(cs, last));
  }

  lemma {:induction false} ChunkBegins(cs: seq<Chunk>, k: nat)
    requires ChunksOk(cs) && k < |cs|
    ensures |cs[k].data| > 0 && cs[k].begin == cs[k].data[0].first
  {
  }

  // Only the chunk in which the walk starts can make it miscount.
  lemma {:induction false} MiscountsHere(cs: seq<Chunk>, it: Cursor, lo: nat, hi: nat)
    requires ChunksOk(cs) && NonEmpty(cs) && Sorted(Flat(cs)) && OnPath(cs, it)
             && FirstAfter(Flat(cs), lo, Place(cs, it))
    ensures Miscounts(cs, lo, hi) <==>
              At(cs, it) && ((it.outer + 1 < |cs| && Straddles(cs, it.outer, lo, hi))
                  || (hi < lo && Deref(cs, it).first < hi))
    ensures forall k | 0 <= k < |cs| - 1 && Straddles(cs, k, lo, hi) :: At(cs, it) && k == it.outer
  {
    hide Flat, ChunksOk, Sorted;
    forall k | 0 <= k < |cs| - 1 && Straddles(cs, k, lo, hi)
      ensures At(cs, it) && k == it.outer
    {
      OnlyHere(cs, it, lo, k);
    }
    BackwardsHere(cs, it, lo, hi);
  }

  lemma {:induction false} OnlyHere(cs: seq<Chunk>, it: Cursor, lo: nat, k: nat)
    requires ChunksOk(cs) && Sorted(Flat(cs)) && OnPath(cs, it) && FirstAfter(Flat(cs), lo, Place(cs, it))
    requires k < |cs| && cs[k].begin < lo < cs[k].end
    ensures At(cs, it) && k == it.outer
  {
    hide Flat;
    var f, p := Flat(cs), Place(cs, it);
    OkNonEmpty(cs);
    var first, last := Cursor(k, Some(0)), Cursor(k, Some(|cs[k].data| - 1));
    DerefIsFlat(cs, first);
    DerefIsFlat(cs, last);
    PlaceInBounds(cs, it);
    var a, b := Place(cs, first), Place(cs, last);
    assert f[a].first < lo < f[b].second;
    assert a <= p <= b;
    PlaceInjective(cs, it, Cursor(k, Some(p - a)));
  }

  lemma {:induction false} BackwardsHere(cs: seq<Chunk>, it: Cursor, lo: nat, hi: nat)
    requires ChunksOk(cs) && Sorted(Flat(cs)) && OnPath(cs, it) && FirstAfter(Flat(cs), lo, Place(cs, it))
    ensures (exists i :: 0 <= i < |Flat(cs)| && Flat(cs)[i].first < hi && lo < Flat(cs)[i].second) ==>
            At(cs, it) && Deref(cs, it).first < hi
    ensures At(cs, it) && Deref(cs, it).first < hi ==>
              exists i :: 0 <= i < |Flat(cs)| && Flat(cs)[i].first < hi && lo < Flat(cs)[i].second
  {
    hide Flat;
    var f, p := Flat(cs), Place(cs, it);
    if At(cs, it) {
      DerefIsFlat(cs, it);
    } else {
      EndPlace(cs);
    }
    forall i | 0 <= i < |f| && f[i].first < hi && lo < f[i].second
      ensures At(cs, it) && Deref(cs, it).first < hi
    {
      OrderedEnds(f, p, i);
    }
  }

  // Eight members of this set lie in [2, 15). IndexSet.Count leaves out the five
  // in the second chunk and returns three.
  lemma {:induction false} MiscountExample()
    ensures var cs := [Chunk([Range(0, 5)], 0, 5, 5), Chunk([Range(10, 20)], 10, 20, 10)];
            && ChunksOk(cs) && NonEmpty(cs) && Sorted(Flat(cs))
            && Straddles(cs, 0, 2, 15) && CountIn(Flat(cs), 2, 15) == 8 && CountIn(Flat(cs), 2, 15) - (15 - cs[1].begin)
               == 3
  {
    var a, b := Chunk([Range(0, 5)], 0, 5, 5), Chunk([Range(10, 20)], 10, 20, 10);
    var cs := [a, b];
    assert [a] + [b] == cs;
    FlatConcat([a], [b]);
    FlatOne(a);
    FlatOne(b);
    TotalOne(Range(0, 5));
    TotalOne(Range(10, 20));
    assert Straddles(cs, 0, 2, 15);
    assert Flat(cs) == [Range(0, 5)] + [Range(10, 20)];
    CountConcat([Range(0, 5)], [Range(10, 20)], 2, 15);
    CountSingle(Range(0, 5), 2, 15);
    CountSingle(Range(10, 20), 2, 15);
  }

  // From zero, as unshift counts, nothing is missed.
  lemma {:induction false} NeverFromZero(cs: seq<Chunk>, hi: nat)
    requires NonEmpty(cs)
    ensures !Miscounts(cs, 0, hi)
  {
  }
}
