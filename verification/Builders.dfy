// ChunkedRangeVectorBuilder: appends ranges to chunks reserved beforehand.
module Builders {
  import opened Ranges
  import opened RangeEdits
  import opened Chunks
  import opened ChunkedVector

  // A range is appended, or joined to the last one when they touch.
  ghost function Pushed(rs: seq<Range>, r: Range): seq<Range> {
    if rs != [] && rs[|rs| - 1].second == r.first
    then rs[|rs| - 1 := Range(rs[|rs| - 1].first, r.second)]
    else rs + [r]
  }

  lemma {:induction false} PushedIndex(rs: seq<Range>, x: nat)
    requires Sorted(rs) && (rs != [] ==> rs[|rs| - 1].second <= x)
    ensures var out := Pushed(rs, Range(x, x + 1)); Sorted(out) && out != [] && out[|out| - 1].second == x + 1
  {
    hide Sorted;
    SortedFacts(rs);
    LastIsFirstAfter(rs, x);
    AddSorted(rs, x, |rs|);
    assert Pushed(rs, Range(x, x + 1)) == Add(rs, x, |rs|).rs;
  }

  lemma {:induction false} PushedHas(rs: seq<Range>, x: nat, y: int)
    requires Sorted(rs) && (rs != [] ==> rs[|rs| - 1].second <= x)
    ensures Has(Pushed(rs, Range(x, x + 1)), y) <==> Has(rs, y) || y == x
  {
    hide Has, Sorted;
    LastIsFirstAfter(rs, x);
    AddHas(rs, x, |rs|, y);
    assert Pushed(rs, Range(x, x + 1)) == Add(rs, x, |rs|).rs;
  }

  lemma {:induction false} LastIsFirstAfter(rs: seq<Range>, x: nat)
    requires Sorted(rs) && (rs != [] ==> rs[|rs| - 1].second <= x)
    ensures FirstAfter(rs, x, |rs|)
  {
    forall k | 0 <= k < |rs|
      ensures rs[k].second <= x
    {
      OrderedEnds(rs, k, |rs| - 1);
    }
  }

  // Full chunks, then the one being filled, then reserved empty ones.
  ghost predicate Filling(cs: seq<Chunk>, pos: nat) {
    && pos < |cs|
    && (forall k | 0 <= k < pos :: ChunkFull(cs[k]))
    && |cs[pos].data| <= MAX_SIZE
    && (cs[pos].data != [] ==> cs[pos].begin == cs[pos].data[0].first)
    && (cs[pos].data == [] ==> pos == 0)
    && (forall k | pos < k < |cs| :: cs[k].data == [])
  }

  ghost predicate ChunkFull(c: Chunk) {
    |c.data| == MAX_SIZE && c.begin == c.data[0].first && c.end == c.data[|c.data| - 1].second
  }

  ghost predicate CountsRight(cs: seq<Chunk>) {
    forall k | 0 <= k < |cs| && cs[k].data != [] :: cs[k].count == Total(cs[k].data)
  }

  lemma {:induction false} FlatEmpty(cs: seq<Chunk>)
    requires forall k | 0 <= k < |cs| :: cs[k].data == []
    ensures Flat(cs) == []
  {
    if cs != [] {
      FlatEmpty(cs[1..]);
    }
  }

  lemma {:induction false} FlatFilling(cs: seq<Chunk>, pos: nat)
    requires Filling(cs, pos)
    ensures Flat(cs) == Flat(cs[..pos]) + cs[pos].data
    ensures |Flat(cs)| == pos * MAX_SIZE + |cs[pos].data|
  {
    hide Flat;
    FlatSplit(cs, pos);
    FlatEmpty(cs[pos + 1..]);
    FullSize(cs, pos);
  }

  lemma {:induction false} FullSize(cs: seq<Chunk>, n: nat)
    requires n <= |cs| && forall k | 0 <= k < n :: ChunkFull(cs[k])
    ensures |Flat(cs[..n])| == n * MAX_SIZE
  {
    hide Flat;
    if n > 0 {
      FullSize(cs, n - 1);
      FlatSplit(cs, n - 1);
    } else {
      FlatAll(cs);
    }
  }

  // Once the last chunk is closed only the counts can be wrong.
  lemma {:induction false} ClosedOk(cs: seq<Chunk>, pos: nat, result: seq<Chunk>)
    requires Filling(cs, pos)
    requires var last := cs[pos];
             result == cs[..pos] + if last.data == [] then [] else [last.(end := last.data[|last.data| - 1].second)]
    ensures ChunksOk(result) <==> CountsRight(cs)
  {
    hide Total;
    assert forall k | 0 <= k < pos :: result[k] == cs[k];
    if ChunksOk(result) {
      forall k | 0 <= k < |cs| && cs[k].data != []
        ensures cs[k].count == Total(cs[k].data)
      {
        assert ChunkOk(result[k]);
      }
    }
  }

  class ChunkedRangeVectorBuilder {
    var chunks: seq<Chunk>
    var outerPos: nat
    ghost const reserved: nat

    ghost predicate Valid()
      reads this
    {
      && Filling(chunks, outerPos)
      && 1 <= reserved
      && |chunks| == if reserved <= outerPos then outerPos + 1 else reserved
    }

    ghost function Ranges(): seq<Range>
      reads this
    {
      Flat(chunks)
    }

    ghost predicate Ready()
      reads this
    {
      Valid() && CountsRight(chunks) && Sorted(Ranges())
    }

    lemma {:induction false} ReadyFacts()
      requires Ready()
      ensures Valid() && CountsRight(chunks) && Sorted(Ranges())
    {
    }

    // The range starts a chunk beyond the reserved ones: all chunks so far are
    // full and it does not join the last range.
    ghost predicate Overflows(range: Range)
      reads this
    {
      var rs := Ranges();
      && rs != [] && |rs| % MAX_SIZE == 0 && reserved <= |rs| / MAX_SIZE
      && rs[|rs| - 1].second != range.first
    }

    // Reserves room for as many ranges as the expected vector holds.
    constructor (expected: seq<Chunk>)
      ensures Ready() && Ranges() == []
      ensures reserved == |Flat(expected)| / MAX_SIZE + 1
    {
      FlatAll(expected);
      var size := 0;
      for k := 0 to |expected|
        invariant size == |Flat(expected[..k])|
      {
        FlatSplit(expected, k);
        size := size + |expected[k].data|;
      }
      chunks := seq(size / MAX_SIZE + 1, _ => Chunk([], 0, 0, 0));
      outerPos := 0;
      reserved := size / MAX_SIZE + 1;
      new;
      FlatEmpty(chunks);
    }

    // The count of a chunk beyond the reserved ones starts at one whatever the
    // length of its first range.
    method PushRange(range: Range)
      requires Valid()
      modifies this
      ensures Valid() && Ranges() == Pushed(old(Ranges()), range)
      ensures CountsRight(chunks) <==> old(CountsRight(chunks)) && (old(Overflows(range)) ==> Length(range) == 1)
    {
      hide Flat, Total;
      FlatFilling(chunks, outerPos);
      var chunk := chunks[outerPos];
      TotalOne(range);
      if chunk.data == [] {
        chunks := chunks[outerPos := chunk.(data := [range], count := Length(range), begin := range.first)];
        assert chunks[..outerPos] == old(chunks)[..outerPos];
        FlatAll(chunks);
      } else if range.first == chunk.data[|chunk.data| - 1].second {
        var last := chunk.data[|chunk.data| - 1];
        var data := chunk.data[|chunk.data| - 1 := Range(last.first, range.second)];
        TotalUpdate(chunk.data, |chunk.data| - 1, Range(last.first, range.second));
        chunks := chunks[outerPos := chunk.(data := data, count := chunk.count + Length(range))];
        assert chunks[..outerPos] == old(chunks)[..outerPos];
      } else if |chunk.data| < MAX_SIZE {
        TotalConcat(chunk.data, [range]);
        chunks := chunks[outerPos := chunk.(data := chunk.data + [range], count := chunk.count + Length(range))];
        assert chunks[..outerPos] == old(chunks)[..outerPos];
      } else {
        NextChunk(range);
      }
      FlatFilling(chunks, outerPos);
    }

    // Closes the full chunk and starts the next one.
    method NextChunk(range: Range)
      requires Valid() && |chunks[outerPos].data| == MAX_SIZE
      modifies this
      ensures Valid() && Ranges() == old(Ranges()) + [range]
      ensures CountsRight(chunks) <==> old(CountsRight(chunks)) && (old(outerPos + 1 >= reserved) ==>
              Length(range) == 1)
    {
      hide Flat, Total;
      FlatFilling(chunks, outerPos);
      TotalOne(range);
      var chunk := chunks[outerPos];
      var closed := chunk.(end := chunk.data[|chunk.data| - 1].second);
      FlatReplace(chunks, outerPos, closed);
      chunks := chunks[outerPos := closed];
      FlatSplit(chunks, outerPos);
      outerPos := outerPos + 1;
      if outerPos >= |chunks| {
        chunks := chunks + [Chunk([range], range.first, 0, 1)];
      } else {
        chunks := chunks[outerPos := chunks[outerPos].(data := [range], begin := range.first, count := Length(range))];
      }
      assert chunks[..outerPos] == old(chunks)[..outerPos - 1] + [closed];
      FlatSplit(chunks, outerPos - 1);
      assert chunks[..outerPos - 1] == old(chunks)[..outerPos - 1];
      FlatFilling(chunks, outerPos);
    }

    method PushIndex(index: nat)
      requires Ready()
      requires Ranges() != [] ==> Ranges()[|Ranges()| - 1].second <= index
      modifies this
      ensures Ready() && Sorted(Ranges())
      ensures Ranges() != [] && Ranges()[|Ranges()| - 1].second == index + 1
      ensures forall y: int :: Has(Ranges(), y) <==> old(Has(Ranges(), y)) || y == index
    {
      hide Flat, Sorted, Has, Pushed, Overflows;
      ghost var f := Ranges();
      PushedIndex(f, index);
      PushRange(Range(index, index + 1));
      forall y: int
        ensures Has(Ranges(), y) <==> Has(f, y) || y == index
      {
        PushedHas(f, index, y);
      }
    }

    // Drops the unused chunks and closes the last one.
    method Finalize() returns (result: seq<Chunk>)
      requires Valid()
      ensures Flat(result) == Ranges()
      ensures ChunksOk(result) <==> CountsRight(chunks)
    {
      hide Flat, Total;
      FlatFilling(chunks, outerPos);
      result := chunks[..outerPos];
      var last := chunks[outerPos];
      if last.data != [] {
        var closed := last.(end := last.data[|last.data| - 1].second);
        FlatConcat(result, [closed]);
        FlatOne(closed);
        result := result + [closed];
      }
      ClosedOk(chunks, outerPos, result);
    }
  }
}
