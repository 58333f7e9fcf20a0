// ChunkedRangeVector: a vector of ranges stored in chunks, its iterators, and
// the operations that keep the per-chunk summaries right.
module Chunks {
  import opened Wrappers
  import opened Ranges

  // 4096 / sizeof(std::pair<size_t, size_t>)
  const MAX_SIZE: nat := 256

  datatype Chunk = Chunk(data: seq<Range>, begin: nat, end: nat, count: int)

  // What verify() checks of one chunk, apart from the order of its ranges.
  ghost predicate ChunkOk(c: Chunk) {
    && 0 < |c.data| <= MAX_SIZE
    && c.begin == c.data[0].first
    && c.end == c.data[|c.data| - 1].second
    && c.count == Total(c.data)
  }

  ghost predicate ChunksOk(cs: seq<Chunk>) {
    forall k | 0 <= k < |cs| :: ChunkOk(cs[k])
  }

  ghost predicate NonEmpty(cs: seq<Chunk>) {
    forall k | 0 <= k < |cs| :: |cs[k].data| > 0
  }

  // The ranges of all chunks in order.
  ghost function Flat(cs: seq<Chunk>): seq<Range> {
    if cs == [] then [] else cs[0].data + Flat(cs[1..])
  }

  lemma {:induction false} FlatConcat(a: seq<Chunk>, b: seq<Chunk>)
    ensures Flat(a + b) == Flat(a) + Flat(b)
  {
    if a == [] {
      assert a + b == b;
    } else {
      assert (a + b)[1..] == a[1..] + b;
      FlatConcat(a[1..], b);
    }
  }

  lemma {:induction false} FlatOne(c: Chunk)
    ensures Flat([c]) == c.data
  {
    assert Flat([c][1..]) == [];
  }

  lemma {:induction false} FlatSplit(cs: seq<Chunk>, k: nat)
    requires k < |cs|
    ensures Flat(cs) == Flat(cs[..k]) + cs[k].data + Flat(cs[k + 1..])
    ensures Flat(cs[..k + 1]) == Flat(cs[..k]) + cs[k].data
  {
    hide Flat;
    assert cs[..k + 1] == cs[..k] + [cs[k]];
    assert cs == cs[..k + 1] + cs[k + 1..];
    FlatConcat(cs[..k], [cs[k]]);
    FlatConcat(cs[..k + 1], cs[k + 1..]);
    FlatOne(cs[k]);
  }

  lemma {:induction false} FlatAll(cs: seq<Chunk>)
    ensures Flat(cs[..|cs|]) == Flat(cs) && Flat(cs[..0]) == []
  {
    assert cs[..|cs|] == cs;
  }

  // ----- Iterator positions -----

  // m_outer, and m_inner as an index into the chunk (None for the null pointer).
  datatype Cursor = Cursor(outer: nat, inner: Option<nat>)

  ghost predicate At(cs: seq<Chunk>, it: Cursor) {
    it.outer < |cs| && it.inner.Some? && it.inner.value < |cs[it.outer].data|
  }

  predicate IsEnd(cs: seq<Chunk>, it: Cursor) {
    it == Cursor(|cs|, None)
  }

  ghost predicate OnPath(cs: seq<Chunk>, it: Cursor) {
    At(cs, it) || IsEnd(cs, it)
  }

  function Begin(cs: seq<Chunk>): Cursor {
    if cs == [] then Cursor(0, None) else Cursor(0, Some(0))
  }

  function Deref(cs: seq<Chunk>, it: Cursor): Range
    requires At(cs, it)
  {
    cs[it.outer].data[it.inner.value]
  }

  // next_chunk()
  function NextChunk(cs: seq<Chunk>, it: Cursor): Cursor
    requires it.outer < |cs|
  {
    Cursor(it.outer + 1, if it.outer + 1 != |cs| then Some(0) else None)
  }

  // operator++
  function Next(cs: seq<Chunk>, it: Cursor): Cursor
    requires At(cs, it)
  {
    if it.inner.value + 1 == |cs[it.outer].data| then NextChunk(cs, it)
    else Cursor(it.outer, Some(it.inner.value + 1))
  }

  // operator--
  function Prev(cs: seq<Chunk>, it: Cursor): Cursor
    requires NonEmpty(cs) && OnPath(cs, it) && it != Begin(cs)
  {
    if it.inner.None? || it.inner.value == 0 then Cursor(it.outer - 1, Some(|cs[it.outer - 1].data| - 1))
    else Cursor(it.outer, Some(it.inner.value - 1))
  }

  // The index of the range an iterator stands on, in the flat sequence.
  ghost function Place(cs: seq<Chunk>, it: Cursor): nat
    requires OnPath(cs, it)
  {
    |Flat(cs[..it.outer])| + if it.inner.Some? then it.inner.value else 0
  }

  lemma {:induction false} DerefIsFlat(cs: seq<Chunk>, it: Cursor)
    requires At(cs, it)
    ensures Place(cs, it) < |Flat(cs)| && Flat(cs)[Place(cs, it)] == Deref(cs, it)
  {
    FlatSplit(cs, it.outer);
  }

  lemma {:induction false} EndPlace(cs: seq<Chunk>)
    ensures Place(cs, Cursor(|cs|, None)) == |Flat(cs)|
  {
    FlatAll(cs);
  }

  lemma {:induction false} BeginPlace(cs: seq<Chunk>)
    requires NonEmpty(cs)
    ensures OnPath(cs, Begin(cs)) && Place(cs, Begin(cs)) == 0
  {
    FlatAll(cs);
  }

  lemma {:induction false} NextPlace(cs: seq<Chunk>, it: Cursor)
    requires NonEmpty(cs) && At(cs, it)
    ensures OnPath(cs, Next(cs, it)) && Place(cs, Next(cs, it)) == Place(cs, it) + 1
  {
    FlatSplit(cs, it.outer);
  }

  // -- undoes ++ everywhere, and ++ undoes --, across chunk borders and from end.
  lemma {:induction false} PrevNext(cs: seq<Chunk>, it: Cursor)
    requires NonEmpty(cs) && OnPath(cs, it)
    ensures At(cs, it) ==> Next(cs, it) != Begin(cs) && OnPath(cs, Next(cs, it)) && Prev(cs, Next(cs, it)) == it
    ensures it != Begin(cs) ==> At(cs, Prev(cs, it)) && Next(cs, Prev(cs, it)) == it
  {
  }

  lemma {:induction false} PrevPlace(cs: seq<Chunk>, it: Cursor)
    requires NonEmpty(cs) && OnPath(cs, it) && it != Begin(cs)
    ensures At(cs, Prev(cs, it)) && Place(cs, it) == Place(cs, Prev(cs, it)) + 1
  {
    PrevNext(cs, it);
    NextPlace(cs, Prev(cs, it));
  }

  // Chunks before the one an iterator stands in hold only smaller places.
  lemma {:induction false} FlatGrows(cs: seq<Chunk>, a: nat, b: nat)
    requires a <= b <= |cs|
    ensures |Flat(cs[..a])| <= |Flat(cs[..b])|
    decreases b - a
  {
    if a < b {
      FlatSplit(cs, b - 1);
      FlatGrows(cs, a, b - 1);
    }
  }

  // Iterators are equal exactly when they stand on the same place, so the
  // comparison of two pointers in operator== is enough.
  lemma {:induction false} PlaceInjective(cs: seq<Chunk>, a: Cursor, b: Cursor)
    requires NonEmpty(cs) && OnPath(cs, a) && OnPath(cs, b)
    ensures a == b <==> Place(cs, a) == Place(cs, b)
  {
    if a.outer < b.outer {
      FlatSplit(cs, a.outer);
      FlatGrows(cs, a.outer + 1, b.outer);
    } else if b.outer < a.outer {
      FlatSplit(cs, b.outer);
      FlatGrows(cs, b.outer + 1, a.outer);
    }
  }

  lemma {:induction false} BeginOrBefore(cs: seq<Chunk>, it: Cursor)
    requires NonEmpty(cs) && OnPath(cs, it)
    ensures it == Begin(cs) <==> Place(cs, it) == 0
    ensures IsEnd(cs, it) <==> Place(cs, it) == |Flat(cs)|
  {
    BeginPlace(cs);
    EndPlace(cs);
    PlaceInjective(cs, it, Begin(cs));
    PlaceInjective(cs, it, Cursor(|cs|, None));
  }

  // ----- ChunkedRangeVectorIterator -----

  class ChunkedRangeVectorIterator {
    const chunks: seq<Chunk>
    var outer: nat
    var inner: Option<nat>

    ghost function Where(): Cursor
      reads this
    {
      Cursor(outer, inner)
    }

    ghost predicate Valid()
      reads this
    {
      NonEmpty(chunks) && OnPath(chunks, Where())
    }

    constructor (chunks: seq<Chunk>, at: Cursor)
      requires NonEmpty(chunks) && OnPath(chunks, at)
      ensures Valid() && this.chunks == chunks && Where() == at
    {
      this.chunks, outer, inner := chunks, at.outer, at.inner;
    }

    method Advance()
      requires Valid() && At(chunks, Where())
      modifies this
      ensures Valid() && Where() == Next(chunks, old(Where()))
    {
      inner := Some(inner.value + 1);
      if inner.value == |chunks[outer].data| {
        AdvanceChunk();
      }
    }

    // next_chunk; called from ++ it runs with the inner pointer past the chunk.
    method AdvanceChunk()
      requires NonEmpty(chunks) && outer < |chunks|
      modifies this
      ensures Valid() && Where() == NextChunk(chunks, old(Where()))
    {
      outer := outer + 1;
      inner := if outer != |chunks| then Some(0) else None;
    }

    method Retreat()
      requires Valid() && Where() != Begin(chunks)
      modifies this
      ensures Valid() && Where() == Prev(chunks, old(Where()))
    {
      if inner.None? || inner.value == 0 {
        outer := outer - 1;
        inner := Some(|chunks[outer].data| - 1);
      } else {
        inner := Some(inner.value - 1);
      }
    }
  }

  // ++ from begin until end yields the concatenation of all chunks.
  method Traverse(cs: seq<Chunk>) returns (visited: seq<Range>)
    requires NonEmpty(cs)
    ensures visited == Flat(cs)
  {
    BeginPlace(cs);
    EndPlace(cs);
    var it := new ChunkedRangeVectorIterator(cs, Begin(cs));
    visited := [];
    while !(it.outer == |cs| && it.inner == None)
      invariant it.Valid() && it.chunks == cs && fresh(it)
      invariant Place(cs, it.Where()) <= |Flat(cs)| && visited == Flat(cs)[..Place(cs, it.Where())]
      decreases |Flat(cs)| - Place(cs, it.Where())
    {
      BeginOrBefore(cs, it.Where());
      DerefIsFlat(cs, it.Where());
      NextPlace(cs, it.Where());
      visited := visited + [cs[it.outer].data[it.inner.value]];
      it.Advance();
      BeginOrBefore(cs, it.Where());
      PlaceInBounds(cs, it.Where());
    }
    assert Flat(cs)[..|Flat(cs)|] == Flat(cs);
  }

  lemma {:induction false} PlaceInBounds(cs: seq<Chunk>, it: Cursor)
    requires OnPath(cs, it)
    ensures Place(cs, it) <= |Flat(cs)|
  {
    if At(cs, it) {
      DerefIsFlat(cs, it);
    } else {
      EndPlace(cs);
    }
  }

  // ----- IndexSet::IndexIterator -----

  // The members of a sequence of ranges, one by one.
  ghost function Indices(rs: seq<Range>): seq<nat> {
    if rs == [] then [] else Run(rs[0].first, rs[0].second) + Indices(rs[1..])
  }

  ghost function Run(a: nat, b: nat): (s: seq<nat>)
    ensures |s| == if a <= b then b - a else 0
    ensures forall i | 0 <= i < |s| :: s[i] == a + i
    decreases b - a
  {
    if a >= b then [] else [a] + Run(a + 1, b)
  }

  lemma {:induction false} IndicesConcat(a: seq<Range>, b: seq<Range>)
    ensures Indices(a + b) == Indices(a) + Indices(b)
  {
    if a == [] {
      assert a + b == b;
    } else {
      assert (a + b)[1..] == a[1..] + b;
      IndicesConcat(a[1..], b);
    }
  }

  // Strictly ascending, and exactly the members.
  lemma {:induction false} IndicesExact(rs: seq<Range>)
    requires Sorted(rs)
    ensures forall i, j | 0 <= i < j < |Indices(rs)| :: Indices(rs)[i] < Indices(rs)[j]
    ensures forall x: nat :: x in Indices(rs) <==> Has(rs, x)
    ensures rs != [] ==> forall i | 0 <= i < |Indices(rs)| :: rs[0].first <= Indices(rs)[i]
  {
    if rs != [] {
      SortedTail(rs);
      IndicesExact(rs[1..]);
      var head := Run(rs[0].first, rs[0].second);
      forall x: nat
        ensures x in Indices(rs) <==> Has(rs, x)
      {
        HasHead(rs, x);
        RunHas(rs[0].first, rs[0].second, x);
      }
    }
  }

  lemma {:induction false} RunHas(a: nat, b: nat, x: nat)
    ensures x in Run(a, b) <==> a <= x < b
  {
    if a <= x < b {
      assert Run(a, b)[x - a] == x;
    }
  }

  class IndexIterator {
    const chunks: seq<Chunk>
    const it: ChunkedRangeVectorIterator
    var offset: nat

    ghost predicate Valid()
      reads this, it
    {
      && it.Valid() && it.chunks == chunks
      && Sorted(Flat(chunks))
      && (At(chunks, it.Where()) ==> offset < Length(Deref(chunks, it.Where())))
      && (IsEnd(chunks, it.Where()) ==> offset == 0)
    }

    constructor (chunks: seq<Chunk>)
      requires NonEmpty(chunks) && Sorted(Flat(chunks))
      ensures Valid() && fresh(it) && this.chunks == chunks && it.Where() == Begin(chunks) && offset == 0
    {
      BeginPlace(chunks);
      var start := new ChunkedRangeVectorIterator(chunks, Begin(chunks));
      this.chunks, it, offset := chunks, start, 0;
      new;
      if At(chunks, it.Where()) {
        DerefIsFlat(chunks, it.Where());
      }
    }

    // The comparison with end(), which looks at the inner iterator only.
    predicate AtEnd()
      reads this, it
    {
      it.outer == |chunks| && it.inner == None
    }

    // What is still to come: the rest of the current range and all later ranges.
    ghost function Rest(): (rest: seq<nat>)
      requires Valid()
      reads this, it
      ensures AtEnd() <==> rest == []
    {
      if IsEnd(chunks, it.Where()) then []
      else
        Run(Deref(chunks, it.Where()).first + offset, Deref(chunks, it.Where()).second) +
        Indices(Flat(chunks)[InFlat(chunks, it.Where()) + 1..])
    }

    method Get() returns (index: nat)
      requires Valid() && !AtEnd()
      ensures Rest() != [] && index == Rest()[0]
    {
      index := chunks[it.outer].data[it.inner.value].first + offset;
    }

    method Advance()
      requires Valid() && !AtEnd()
      modifies this, it
      ensures Valid() && old(Rest()) != [] && Rest() == old(Rest())[1..]
    {
      hide Flat, Indices, Has, Sorted, Place;
      ghost var here := it.Where();
      RestStep(chunks, here, offset);
      offset := offset + 1;
      if chunks[it.outer].data[it.inner.value].first + offset == chunks[it.outer].data[it.inner.value].second {
        it.Advance();
        offset := 0;
      }
    }
  }

  // What is left after the last index of a range.
  lemma {:induction false} RestStep(cs: seq<Chunk>, it: Cursor, offset: nat)
    requires NonEmpty(cs) && At(cs, it) && Sorted(Flat(cs)) && offset < Length(Deref(cs, it))
    ensures OnPath(cs, Next(cs, it))
    ensures At(cs, Next(cs, it)) ==>
              && Deref(cs, Next(cs, it)).first < Deref(cs, Next(cs, it)).second
              && Indices(Flat(cs)[InFlat(cs, it) + 1..]) ==
                 Run(Deref(cs, Next(cs, it)).first, Deref(cs, Next(cs, it)).second) +
                 Indices(Flat(cs)[InFlat(cs, Next(cs, it)) + 1..])
    ensures IsEnd(cs, Next(cs, it)) ==> Indices(Flat(cs)[InFlat(cs, it) + 1..]) == []
  {
    hide Flat;
    DerefIsFlat(cs, it);
    NextPlace(cs, it);
    if At(cs, Next(cs, it)) {
      DerefIsFlat(cs, Next(cs, it));
    } else {
      EndPlace(cs);
    }
  }

  // The place of an iterator that is not at the end.
  ghost function InFlat(cs: seq<Chunk>, it: Cursor): (p: nat)
    requires At(cs, it)
    ensures p == Place(cs, it) && p < |Flat(cs)|
  {
    DerefIsFlat(cs, it);
    Place(cs, it)
  }

  // Stepping the index iterator until it equals end, whose comparison ignores
  // the offset, yields every member once in ascending order and stops.
  method TraverseIndices(cs: seq<Chunk>) returns (visited: seq<nat>)
    requires NonEmpty(cs) && Sorted(Flat(cs))
    ensures forall i, j | 0 <= i < j < |visited| :: visited[i] < visited[j]
    ensures forall x: nat :: x in visited <==> Has(Flat(cs), x)
  {
    hide Flat, Indices, Has, Sorted, Run, Place, IndexIterator.Rest, NonEmpty;
    ghost var all := Indices(Flat(cs));
    var it := StartIndices(cs);
    visited := [];
    while !it.AtEnd()
      invariant it.Valid() && it.chunks == cs && fresh(it) && fresh(it.it)
      invariant visited + it.Rest() == all
      decreases |it.Rest()|
    {
      ghost var before, rest := visited, it.Rest();
      var index := it.Get();
      visited := visited + [index];
      it.Advance();
      assert before + rest == visited + rest[1..];
    }
    assert visited == all;
    IndicesExact(Flat(cs));
  }

  method StartIndices(cs: seq<Chunk>) returns (it: IndexIterator)
    requires NonEmpty(cs) && Sorted(Flat(cs))
    ensures fresh(it) && fresh(it.it) && it.Valid() && it.chunks == cs && it.Rest() == Indices(Flat(cs))
  {
    hide Flat, Indices, Has, Sorted, Run;
    it := new IndexIterator(cs);
    RestAtBegin(cs);
  }

  lemma {:induction false} RestAtBegin(cs: seq<Chunk>)
    requires NonEmpty(cs)
    ensures cs == [] ==> Indices(Flat(cs)) == []
    ensures cs != [] ==>
              At(cs, Begin(cs)) &&
              Run(Deref(cs, Begin(cs)).first, Deref(cs, Begin(cs)).second)
                  + Indices(Flat(cs)[InFlat(cs, Begin(cs)) + 1..]) == Indices(Flat(cs))
  {
    BeginPlace(cs);
    if cs != [] {
      DerefIsFlat(cs, Begin(cs));
    }
  }
}
