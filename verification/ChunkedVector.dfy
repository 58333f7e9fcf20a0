// The mutating half of ChunkedRangeVector. Every operation is specified on the
// flat sequence of ranges; the chunks and their summaries stay consistent.
module ChunkedVector {
  import opened Wrappers
  import opened Ranges
  import opened Chunks

  lemma {:induction false} OkNonEmpty(cs: seq<Chunk>)
    requires ChunksOk(cs)
    ensures NonEmpty(cs)
  {
  }

  lemma {:induction false} FlatReplace(cs: seq<Chunk>, k: nat, c: Chunk)
    requires k < |cs|
    ensures Flat(cs[k := c]) == Flat(cs[..k]) + c.data + Flat(cs[k + 1..])
    ensures Flat(cs) == Flat(cs[..k]) + cs[k].data + Flat(cs[k + 1..])
    ensures cs[k := c][..k] == cs[..k]
  {
    hide Flat;
    FlatSplit(cs, k);
    FlatSplit(cs[k := c], k);
    assert cs[k := c][..k] == cs[..k];
    assert cs[k := c][k + 1..] == cs[k + 1..];
  }

  lemma {:induction false} TotalUpdate(rs: seq<Range>, i: nat, r: Range)
    requires i < |rs|
    ensures Total(rs[i := r]) == Total(rs) - Length(rs[i]) + Length(r)
  {
    hide Total;
    assert rs == rs[..i] + [rs[i]] + rs[i + 1..];
    assert rs[i := r] == rs[..i] + [r] + rs[i + 1..];
    TotalConcat(rs[..i] + [rs[i]], rs[i + 1..]);
    TotalConcat(rs[..i], [rs[i]]);
    TotalConcat(rs[..i] + [r], rs[i + 1..]);
    TotalConcat(rs[..i], [r]);
    TotalOne(rs[i]);
    TotalOne(r);
  }

  lemma {:induction false} TotalOne(r: Range)
    ensures Total([r]) == Length(r)
  {
    assert Total([r][1..]) == 0;
  }

  lemma {:induction false} TotalInsert(rs: seq<Range>, i: nat, r: Range)
    requires i <= |rs|
    ensures Total(rs[..i] + [r] + rs[i..]) == Total(rs) + Length(r)
  {
    hide Total;
    assert rs == rs[..i] + rs[i..];
    TotalConcat(rs[..i], rs[i..]);
    TotalConcat(rs[..i] + [r], rs[i..]);
    TotalConcat(rs[..i], [r]);
    TotalOne(r);
  }

  lemma {:induction false} TotalRemove(rs: seq<Range>, i: nat)
    requires i < |rs|
    ensures Total(rs[..i] + rs[i + 1..]) == Total(rs) - Length(rs[i])
  {
    hide Total;
    var s := rs[..i] + rs[i + 1..];
    assert s[..i] + [rs[i]] + s[i..] == rs;
    TotalInsert(s, i, rs[i]);
  }

  // Two vectors with chunks of the same sizes have the same iterators.
  ghost predicate SameShape(a: seq<Chunk>, b: seq<Chunk>) {
    |a| == |b| && forall k | 0 <= k < |a| :: |a[k].data| == |b[k].data|
  }

  lemma {:induction false} SamePrefix(a: seq<Chunk>, b: seq<Chunk>, k: nat)
    requires SameShape(a, b) && k <= |a|
    ensures |Flat(a[..k])| == |Flat(b[..k])|
    decreases k
  {
    hide Flat;
    if k > 0 {
      FlatSplit(a, k - 1);
      FlatSplit(b, k - 1);
      SamePrefix(a, b, k - 1);
    } else {
      assert a[..0] == b[..0];
    }
  }

  lemma {:induction false} SamePlace(a: seq<Chunk>, b: seq<Chunk>, it: Cursor)
    requires SameShape(a, b) && OnPath(a, it)
    ensures OnPath(b, it) && Place(a, it) == Place(b, it)
    ensures At(a, it) <==> At(b, it)
  {
    hide Flat;
    SamePrefix(a, b, it.outer);
  }


  // The chunks after one more range at the end.
  ghost function PushedChunks(cs: seq<Chunk>, r: Range): seq<Chunk> {
    var last := |cs| - 1;
    if cs != [] && |cs[last].data| < MAX_SIZE
    then cs[last := Chunk(cs[last].data + [r], cs[last].begin, r.second, cs[last].count + Length(r))]
    else cs + [Chunk([r], r.first, r.second, Length(r))]
  }

  class ChunkedRangeVector {
    var chunks: seq<Chunk>

    ghost predicate Valid()
      reads this
    {
      ChunksOk(chunks)
    }

    ghost function Ranges(): seq<Range>
      reads this
    {
      Flat(chunks)
    }

    constructor ()
      ensures Valid() && Ranges() == [] && chunks == []
    {
      chunks := [];
    }

    method PushBack(value: Range)
      requires Valid() && (Ranges() != [] ==> Ranges()[|Ranges()| - 1].second <= value.first)
      modifies this
      ensures Valid() && Ranges() == old(Ranges()) + [value]
      ensures chunks == PushedChunks(old(chunks), value)
      ensures chunks != [] && |chunks[|chunks| - 1].data| > 0
    {
      hide Flat, Total;
      if chunks != [] && |chunks[|chunks| - 1].data| < MAX_SIZE {
        var k := |chunks| - 1;
        var c := chunks[k];
        FlatReplace(chunks, k, Chunk(c.data + [value], c.begin, value.second, c.count + Length(value)));
        TotalConcat(c.data, [value]);
        TotalOne(value);
        assert Flat(chunks[k + 1..]) == [] by {
          FlatAll([]);
          assert chunks[k + 1..] == [];
        }
        chunks := chunks[k := Chunk(c.data + [value], c.begin, value.second, c.count + Length(value))];
      } else {
        FlatConcat(chunks, [Chunk([value], value.first, value.second, Length(value))]);
        FlatOne(Chunk([value], value.first, value.second, Length(value)));
        TotalOne(value);
        chunks := chunks + [Chunk([value], value.first, value.second, Length(value))];
      }
    }

    // Splits a full chunk in half so that one more range fits at pos.
    method EnsureSpace(pos: Cursor) returns (pos': Cursor)
      requires Valid() && At(chunks, pos)
      modifies this
      ensures Valid() && Ranges() == old(Ranges())
      ensures At(chunks, pos') && |chunks[pos'.outer].data| < MAX_SIZE
      ensures Place(chunks, pos') == old(Place(chunks, pos))
    {
      hide Flat, Total, ChunkOk;
      assert ChunkOk(chunks[pos.outer]);
      var c := chunks[pos.outer];
      if |c.data| + 1 <= MAX_SIZE {
        return pos;
      }
      var offset := pos.inner.value;
      var toMove := MAX_SIZE / 2;
      ChunkSize(c);
      var keep := |c.data| - toMove;
      var moved := c.data[keep..];
      var movedCount := SumLengths(moved);
      var left := Chunk(c.data[..keep], c.begin, c.data[keep - 1].second, c.count - movedCount);
      var right := Chunk(moved, moved[0].first, moved[|moved| - 1].second, movedCount);
      HalvesOk(c, left, right, keep);
      SplitFlat(chunks, pos.outer, left, right);
      chunks := chunks[..pos.outer] + [left, right] + chunks[pos.outer + 1..];
      if offset >= toMove {
        pos' := Cursor(pos.outer + 1, Some(offset - toMove));
      } else {
        pos' := Cursor(pos.outer, Some(offset));
      }
    }

    // Inserts value before pos and returns an iterator to it.
    method Insert(pos: Cursor, value: Range) returns (at: Cursor)
      requires Valid() && OnPath(chunks, pos)
      requires value.first < value.second
      requires var p, f := Place(chunks, pos), Ranges(); p <= |f| && Loose(f[..p] + [value] + f[p..])
      modifies this
      ensures Valid() && At(chunks, at) && Place(chunks, at) == old(Place(chunks, pos))
      ensures var p, f := old(Place(chunks, pos)), old(Ranges());
              p <= |f| && Ranges() == f[..p] + [value] + f[p..]
      ensures pos.outer == |old(chunks)| ==> chunks == PushedChunks(old(chunks), value)
    {
      hide Flat, Total, ChunkOk;
      ghost var p, f := Place(chunks, pos), Ranges();
      if pos.outer == |chunks| {
        EndPlace(chunks);
        assert f[..p] + [value] + f[p..] == f + [value];
        if f != [] {
          assert (f + [value])[|f| - 1] == f[|f| - 1] && (f + [value])[|f|] == value;
        }
        PushBack(value);
        OkNonEmpty(chunks);
        at := Cursor(|chunks| - 1, Some(|chunks[|chunks| - 1].data| - 1));
        PrevPlace(chunks, Cursor(|chunks|, None));
        EndPlace(chunks);
        return;
      }
      at := EnsureSpace(pos);
      var o, i := at.outer, at.inner.value;
      var c := chunks[o];
      assert ChunkOk(c);
      var c' := Chunk(c.data[..i] + [value] + c.data[i..],
                      if value.first < c.begin then value.first else c.begin,
                      if c.end < value.second then value.second else c.end, c.count + Length(value));
      InsertOrder(chunks, at, value);
      InsertedOk(c, c', i, value);
      FlatReplace(chunks, o, c');
      InsertFlat(Flat(chunks[..o]), c.data, Flat(chunks[o + 1..]), i, value);
      chunks := chunks[o := c'];
    }

    // Removes the range at pos and returns an iterator to the one after it.
    method Erase(pos: Cursor) returns (at: Cursor)
      requires Valid() && At(chunks, pos)
      modifies this
      ensures Valid() && OnPath(chunks, at) && Place(chunks, at) == old(Place(chunks, pos))
      ensures var p, f := old(Place(chunks, pos)), old(Ranges());
              p < |f| && Ranges() == f[..p] + f[p + 1..]
    {
      hide Flat, Total, ChunkOk;
      var o, i := pos.outer, pos.inner.value;
      var c := chunks[o];
      assert ChunkOk(c);
      DerefIsFlat(chunks, pos);
      var data := c.data[..i] + c.data[i + 1..];
      FlatSplit(chunks, o);
      EraseFlat(Flat(chunks[..o]), c.data, Flat(chunks[o + 1..]), i);
      if |data| == 0 {
        FlatConcat(chunks[..o], chunks[o + 1..]);
        assert (chunks[..o] + chunks[o + 1..])[..o] == chunks[..o];
        chunks := chunks[..o] + chunks[o + 1..];
        OkNonEmpty(chunks);
        at := Cursor(o, if o == |chunks| then None else Some(0));
        return;
      }
      var c' := Chunk(data, data[0].first, data[|data| - 1].second, c.count - Length(c.data[i]));
      ErasedOk(c, c', i);
      FlatReplace(chunks, o, c');
      chunks := chunks[o := c'];
      OkNonEmpty(chunks);
      FlatSplit(chunks, o);
      if i < |data| {
        at := Cursor(o, Some(i));
      } else {
        at := Cursor(o + 1, if o + 1 == |chunks| then None else Some(0));
      }
    }

    // Replaces the range at an iterator and updates the summary of its chunk.
    method Set(it: Cursor, front: nat, back: nat)
      requires Valid() && At(chunks, it)
      modifies this
      ensures Valid() && SameShape(old(chunks), chunks) && At(chunks, it)
      ensures var p, f := old(Place(chunks, it)), old(Ranges());
              p < |f| && Ranges() == f[p := Range(front, back)]
    {
      hide Flat, Total;
      var o, i := it.outer, it.inner.value;
      var c := chunks[o];
      DerefIsFlat(chunks, it);
      var r := Range(front, back);
      var c' := Chunk(c.data[i := r],
                      if i == 0 then front else c.begin,
                      if i == |c.data| - 1 then back else c.end,
                      c.count - Length(c.data[i]) + Length(r));
      TotalUpdate(c.data, i, r);
      FlatReplace(chunks, o, c');
      UpdateFlat(Flat(chunks[..o]), c.data, Flat(chunks[o + 1..]), i, r);
      chunks := chunks[o := c'];
    }

    method Adjust(it: Cursor, front: int, back: int)
      requires Valid() && At(chunks, it)
      requires Deref(chunks, it).first + front >= 0 && Deref(chunks, it).second + back >= 0
      modifies this
      ensures Valid() && SameShape(old(chunks), chunks) && At(chunks, it)
      ensures var p, f := old(Place(chunks, it)), old(Ranges());
              && p < |f| && f[p].first + front >= 0 && f[p].second + back >= 0
              && Ranges() == f[p := Range(f[p].first + front, f[p].second + back)]
    {
      hide Flat, Total;
      DerefIsFlat(chunks, it);
      var r := chunks[it.outer].data[it.inner.value];
      Set(it, r.first + front, r.second + back);
    }

    method ShiftBy(it: Cursor, distance: int)
      requires Valid() && At(chunks, it)
      requires Deref(chunks, it).first + distance >= 0 && Deref(chunks, it).second + distance >= 0
      modifies this
      ensures Valid() && SameShape(old(chunks), chunks) && At(chunks, it)
      ensures var p, f := old(Place(chunks, it)), old(Ranges());
              && p < |f| && f[p].first + distance >= 0 && f[p].second + distance >= 0
              && Ranges() == f[p := Range(f[p].first + distance, f[p].second + distance)]
    {
      Adjust(it, distance, distance);
    }
  }

  lemma {:induction false} ChunkSize(c: Chunk)
    requires ChunkOk(c)
    ensures 0 < |c.data| <= MAX_SIZE
  {
  }

  // The two halves of a chunk have right summaries again.
  lemma {:induction false} HalvesOk(c: Chunk, left: Chunk, right: Chunk, keep: nat)
    requires ChunkOk(c) && 0 < keep < |c.data|
    requires right == Chunk(c.data[keep..], c.data[keep].first, c.data[|c.data| - 1].second, Total(c.data[keep..]))
    requires left == Chunk(c.data[..keep], c.begin, c.data[keep - 1].second, c.count - right.count)
    ensures ChunkOk(left) && ChunkOk(right) && c.data == left.data + right.data
  {
    hide Total;
    assert c.data == left.data + right.data;
    TotalConcat(left.data, right.data);
  }

  method SumLengths(rs: seq<Range>) returns (total: int)
    ensures total == Total(rs)
  {
    total := 0;
    for i := 0 to |rs|
      invariant total == Total(rs[..i])
    {
      assert rs[..i + 1] == rs[..i] + [rs[i]];
      TotalConcat(rs[..i], [rs[i]]);
      TotalOne(rs[i]);
      total := total + Length(rs[i]);
    }
    assert rs[..|rs|] == rs;
  }

  // ----- Flat sequences around one chunk -----

  lemma {:induction false} SplitFlat(cs: seq<Chunk>, k: nat, left: Chunk, right: Chunk)
    requires k < |cs| && cs[k].data == left.data + right.data
    ensures var cs' := cs[..k] + [left, right] + cs[k + 1..];
            && Flat(cs') == Flat(cs)
            && cs'[..k] == cs[..k] && Flat(cs'[..k + 1]) == Flat(cs[..k]) + left.data
  {
    hide Flat;
    var cs' := cs[..k] + [left, right] + cs[k + 1..];
    FlatSplit(cs, k);
    assert cs'[..k] == cs[..k];
    assert cs'[..k + 1] == cs[..k] + [left];
    assert [left, right] == [left] + [right];
    FlatConcat(cs[..k], [left]);
    FlatConcat(cs[..k] + [left, right], cs[k + 1..]);
    FlatConcat(cs[..k], [left, right]);
    FlatConcat([left], [right]);
    FlatOne(left);
    FlatOne(right);
  }

  lemma {:induction false} InsertFlat(a: seq<Range>, b: seq<Range>, c: seq<Range>, i: nat, r: Range)
    requires i <= |b|
    ensures var f := a + b + c;
            a + (b[..i] + [r] + b[i..]) + c == f[..|a| + i] + [r] + f[|a| + i..]
  {
  }

  lemma {:induction false} EraseFlat(a: seq<Range>, b: seq<Range>, c: seq<Range>, i: nat)
    requires i < |b|
    ensures var f := a + b + c;
            a + (b[..i] + b[i + 1..]) + c == f[..|a| + i] + f[|a| + i + 1..]
  {
  }

  lemma {:induction false} UpdateFlat(a: seq<Range>, b: seq<Range>, c: seq<Range>, i: nat, r: Range)
    requires i < |b|
    ensures a + b[i := r] + c == (a + b + c)[|a| + i := r]
  {
  }

  lemma {:induction false} InsertedOk(c: Chunk, c': Chunk, i: nat, value: Range)
    requires ChunkOk(c) && i < |c.data| < MAX_SIZE
    requires (i == 0 ==> value.first < c.begin) && (i > 0 ==> c.begin < value.first) && value.second < c.end
    requires c' == Chunk(c.data[..i] + [value] + c.data[i..],
                         if value.first < c.begin then value.first else c.begin,
                         if c.end < value.second then value.second else c.end, c.count + Length(value))
    ensures ChunkOk(c')
  {
    hide Total;
    TotalInsert(c.data, i, value);
  }

  lemma {:induction false} ErasedOk(c: Chunk, c': Chunk, i: nat)
    requires ChunkOk(c) && i < |c.data| && |c.data| > 1
    requires c'.data == c.data[..i] + c.data[i + 1..]
    requires c'.begin == c'.data[0].first && c'.end == c'.data[|c'.data| - 1].second
             && c'.count == c.count - Length(c.data[i])
    ensures ChunkOk(c')
  {
    hide Total;
    TotalRemove(c.data, i);
  }

  // In this order the summary may be updated by taking minimum and maximum.
  lemma {:induction false} InsertOrder(cs: seq<Chunk>, at: Cursor, value: Range)
    requires ChunksOk(cs) && At(cs, at)
    requires var p, f := Place(cs, at), Flat(cs); p <= |f| && Loose(f[..p] + [value] + f[p..])
    ensures var c, i := cs[at.outer], at.inner.value;
            && (i == 0 ==> value.first < c.begin) && (i > 0 ==> c.begin < value.first)
            && value.second < c.end
  {
    hide Flat, Total;
    var c, i, p, f := cs[at.outer], at.inner.value, Place(cs, at), Flat(cs);
    var a := |Flat(cs[..at.outer])|;
    var g := f[..p] + [value] + f[p..];
    FlatSplit(cs, at.outer);
    assert g[p] == value;
    assert f[a] == c.data[0] && f[a + |c.data| - 1] == c.data[|c.data| - 1];
    assert g[a + |c.data|] == f[a + |c.data| - 1];
    if i > 0 {
      assert g[a] == f[a];
    } else {
      assert g[a + 1] == f[a];
    }
  }
}
