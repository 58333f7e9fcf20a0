// The edits of IndexSet on the sorted sequence of ranges: for each, the order
// is kept and the members change as documented.
module RangeEdits {
  import opened Ranges

  // The first range that ends after index.
  ghost predicate FirstAfter(rs: seq<Range>, index: nat, p: nat) {
    && p <= |rs|
    && (forall k | 0 <= k < p :: rs[k].second <= index)
    && (p < |rs| ==> index < rs[p].second)
  }

  lemma {:induction false} FirstAfterHas(rs: seq<Range>, index: nat, p: nat)
    requires Sorted(rs) && FirstAfter(rs, index, p)
    ensures Has(rs, index) <==> p < |rs| && rs[p].first <= index
  {
  }

  // ----- Keeping the order -----

  lemma {:induction false} SortedSlice(rs: seq<Range>, i: nat, j: nat)
    requires Sorted(rs) && i <= j <= |rs|
    ensures Sorted(rs[i..j]) && Sorted(rs[..j]) && Sorted(rs[i..])
  {
  }

  lemma {:induction false} SortedJoin(a: seq<Range>, r: Range, c: seq<Range>)
    requires Sorted(a) && Sorted(c) && r.first < r.second
    requires a != [] ==> a[|a| - 1].second < r.first
    requires c != [] ==> r.second < c[0].first
    ensures Sorted(a + [r] + c)
  {
    var f := a + [r] + c;
    forall i, j | 0 <= i < j < |f|
      ensures f[i].second < f[j].first
    {
      if i < |a| {
        assert a[i].second <= a[|a| - 1].second by { OrderedEnds(a, i, |a| - 1); }
        if j > |a| {
          OrderedEnds(c, 0, j - |a| - 1);
        }
      } else if i == |a| {
        OrderedEnds(c, 0, j - |a| - 1);
      }
    }
  }

  lemma {:induction false} OrderedEnds(rs: seq<Range>, i: nat, j: nat)
    requires Sorted(rs) && i <= j < |rs|
    ensures rs[i].first <= rs[j].first && rs[i].second <= rs[j].second
  {
    if i < j {
      assert rs[i].second < rs[j].first;
    }
  }

  lemma {:induction false} ShiftFromSorted(rs: seq<Range>, p: nat, d: int)
    requires Sorted(rs) && p <= |rs| && forall k | p <= k < |rs| :: rs[k].first + d >= 0 && rs[k].second + d >= 0
    requires 0 < p < |rs| ==> rs[p - 1].second < rs[p].first + d
    ensures Sorted(ShiftFrom(rs, p, d))
  {
    var g := ShiftFrom(rs, p, d);
    forall i, j | 0 <= i < j < |g|
      ensures g[i].second < g[j].first
    {
      if i < p <= j {
        OrderedEnds(rs, i, p - 1);
        OrderedEnds(rs, p, j);
      }
    }
  }

  // ----- Adding one index -----

  datatype Edit = Edit(rs: seq<Range>, p: nat)

  // The ranges after adding x, and where the range holding x is.
  function Add(rs: seq<Range>, x: nat, p: nat): Edit
    requires p <= |rs|
  {
    if p < |rs| && rs[p].first <= x then
      Edit(rs, p)
    else if p > 0 && rs[p - 1].second == x then
      if p < |rs| && rs[p].first == x + 1
      then Edit(rs[..p - 1] + [Range(rs[p - 1].first, rs[p].second)] + rs[p + 1..], p - 1)
      else Edit(rs[p - 1 := Range(rs[p - 1].first, x + 1)], p - 1)
    else if p < |rs| && rs[p].first == x + 1 then
      Edit(rs[p := Range(x, rs[p].second)], p)
    else
      Edit(rs[..p] + [Range(x, x + 1)] + rs[p..], p)
  }

  // Replacing the ranges between a and c changes membership only there.
  lemma {:induction false} HasMiddle(a: seq<Range>, b: seq<Range>, c: seq<Range>, x: int)
    ensures Has(a + b + c, x) <==> Has(a, x) || Has(b, x) || Has(c, x)
  {
    HasSplit(a + b, c, x);
    HasSplit(a, b, x);
  }

  lemma {:induction false} HasOne(r: Range, x: int)
    ensures Has([r], x) <==> r.first <= x < r.second
  {
    assert [r][0] == r;
  }

  lemma {:induction false} HasTwo(r: Range, s: Range, x: int)
    ensures Has([r, s], x) <==> r.first <= x < r.second || s.first <= x < s.second
  {
    assert [r, s] == [r] + [s];
    HasSplit([r], [s], x);
    HasOne(r, x);
    HasOne(s, x);
  }

  lemma {:induction false} AddSorted(rs: seq<Range>, x: nat, p: nat)
    requires Sorted(rs) && FirstAfter(rs, x, p)
    ensures var e := Add(rs, x, p);
            Sorted(e.rs) && e.p < |e.rs| && e.rs[e.p].first <= x < e.rs[e.p].second
  {
    hide Sorted;
    SortedFacts(rs);
    if p < |rs| && rs[p].first <= x {
    } else if p > 0 && rs[p - 1].second == x {
      AddAfter(rs, x, p);
    } else if p < |rs| && rs[p].first == x + 1 {
      Cut(rs, p, p + 1, Range(x, rs[p].second));
      assert Add(rs, x, p).rs == rs[..p] + [Range(x, rs[p].second)] + rs[p + 1..];
    } else {
      Cut(rs, p, p, Range(x, x + 1));
    }
  }

  // The index comes right behind a range, and may join it to the next.
  lemma {:induction false} AddAfter(rs: seq<Range>, x: nat, p: nat)
    requires Sorted(rs) && FirstAfter(rs, x, p) && p > 0 && rs[p - 1].second == x && (p < |rs| ==> x < rs[p].first)
    ensures var e := Add(rs, x, p);
            Sorted(e.rs) && e.p < |e.rs| && e.rs[e.p].first <= x < e.rs[e.p].second
  {
    hide Sorted;
    SortedFacts(rs);
    if p < |rs| && rs[p].first == x + 1 {
      Cut(rs, p - 1, p + 1, Range(rs[p - 1].first, rs[p].second));
    } else {
      Cut(rs, p - 1, p, Range(rs[p - 1].first, x + 1));
      assert Add(rs, x, p).rs == rs[..p - 1] + [Range(rs[p - 1].first, x + 1)] + rs[p..];
    }
  }

  // One range in place of those from i to j.
  lemma {:induction false} Cut(rs: seq<Range>, i: nat, j: nat, r: Range)
    requires Sorted(rs) && i <= j <= |rs| && r.first < r.second
    requires i > 0 ==> rs[i - 1].second < r.first
    requires j < |rs| ==> r.second < rs[j].first
    ensures Sorted(rs[..i] + [r] + rs[j..])
  {
    hide Sorted;
    SortedSlice(rs, 0, i);
    SortedSlice(rs, j, |rs|);
    SortedJoin(rs[..i], r, rs[j..]);
  }

  lemma {:induction false} SortedFacts(rs: seq<Range>)
    requires Sorted(rs)
    ensures forall i | 0 <= i < |rs| :: rs[i].first < rs[i].second
    ensures forall i | 0 < i < |rs| :: rs[i - 1].second < rs[i].first
  {
  }

  lemma {:induction false} AddHas(rs: seq<Range>, x: nat, p: nat, y: int)
    requires Sorted(rs) && FirstAfter(rs, x, p)
    ensures Has(Add(rs, x, p).rs, y) <==> Has(rs, y) || y == x
  {
    hide Has;
    if p < |rs| && rs[p].first <= x {
      FirstAfterHas(rs, x, p);
    } else if p > 0 && rs[p - 1].second == x {
      if p < |rs| && rs[p].first == x + 1 {
        var a, c := rs[..p - 1], rs[p + 1..];
        assert rs == a + [rs[p - 1], rs[p]] + c;
        HasMiddle(a, [rs[p - 1], rs[p]], c, y);
        HasTwo(rs[p - 1], rs[p], y);
        HasMiddle(a, [Range(rs[p - 1].first, rs[p].second)], c, y);
        HasOne(Range(rs[p - 1].first, rs[p].second), y);
      } else {
        Replaced(rs, p - 1, Range(rs[p - 1].first, x + 1), y);
      }
    } else if p < |rs| && rs[p].first == x + 1 {
      Replaced(rs, p, Range(x, rs[p].second), y);
    } else {
      assert rs == rs[..p] + [] + rs[p..];
      HasMiddle(rs[..p], [], rs[p..], y);
      NoneHas(y);
      HasMiddle(rs[..p], [Range(x, x + 1)], rs[p..], y);
      HasOne(Range(x, x + 1), y);
    }
  }

  lemma {:induction false} Replaced(rs: seq<Range>, i: nat, r: Range, y: int)
    requires i < |rs|
    ensures Has(rs, y) <==> Has(rs[..i], y) || rs[i].first <= y < rs[i].second || Has(rs[i + 1..], y)
    ensures Has(rs[i := r], y) <==> Has(rs[..i], y) || r.first <= y < r.second || Has(rs[i + 1..], y)
  {
    hide Has;
    assert rs == rs[..i] + [rs[i]] + rs[i + 1..];
    assert rs[i := r] == rs[..i] + [r] + rs[i + 1..];
    HasMiddle(rs[..i], [rs[i]], rs[i + 1..], y);
    HasMiddle(rs[..i], [r], rs[i + 1..], y);
    HasOne(rs[i], y);
    HasOne(r, y);
  }

  // ----- Shifting a suffix -----

  // The ranges from p on moved by d.
  ghost function ShiftFrom(rs: seq<Range>, p: nat, d: int): (out: seq<Range>)
    requires p <= |rs| && forall k | p <= k < |rs| :: rs[k].first + d >= 0 && rs[k].second + d >= 0
    ensures |out| == |rs|
  {
    seq(|rs|, k requires 0 <= k < |rs| => if k < p then rs[k] else Range(rs[k].first + d, rs[k].second + d))
  }

  lemma {:induction false} ShiftFromHas(rs: seq<Range>, p: nat, d: int, y: int)
    requires p <= |rs| && forall k | p <= k < |rs| :: rs[k].first + d >= 0 && rs[k].second + d >= 0
    ensures Has(ShiftFrom(rs, p, d), y) <==> Has(rs[..p], y) || Has(rs[p..], y - d)
  {
    var out := ShiftFrom(rs, p, d);
    assert out[..p] == rs[..p];
    HasSplit(out[..p], out[p..], y);
    assert out == out[..p] + out[p..];
    if Has(out[p..], y) {
      var k :| 0 <= k < |out[p..]| && out[p..][k].first <= y < out[p..][k].second;
      assert rs[p..][k].first <= y - d < rs[p..][k].second;
    }
    if Has(rs[p..], y - d) {
      var k :| 0 <= k < |rs[p..]| && rs[p..][k].first <= y - d < rs[p..][k].second;
      assert out[p..][k].first <= y < out[p..][k].second;
    }
  }

  // Where the ranges before and from p lie.
  lemma {:induction false} LooseSides(rs: seq<Range>, x: nat, p: nat, y: int)
    requires Loose(rs) && FirstAfter(rs, x, p)
    ensures Has(rs, y) <==> Has(rs[..p], y) || Has(rs[p..], y)
    ensures Has(rs[..p], y) ==> y < x
    ensures Has(rs[p..], y) ==> p < |rs| && rs[p].first <= y
  {
    assert rs == rs[..p] + rs[p..];
    HasSplit(rs[..p], rs[p..], y);
  }

  lemma {:induction false} Sides(rs: seq<Range>, x: nat, p: nat, y: int)
    requires Sorted(rs) && FirstAfter(rs, x, p)
    ensures Has(rs, y) <==> Has(rs[..p], y) || Has(rs[p..], y)
    ensures Has(rs[..p], y) ==> y < x
    ensures Has(rs[p..], y) ==> p < |rs| && rs[p].first <= y
  {
    SortedIsLoose(rs);
    LooseSides(rs, x, p, y);
  }

  // ----- insert_at -----

  // Membership of y once the members from x on have moved up by count.
  ghost predicate Opened(rs: seq<Range>, x: int, count: int, y: int) {
    (y < x && Has(rs, y)) || (y >= x + count && Has(rs, y - count))
  }

  // Membership of y once x is gone and the members after it have moved down.
  ghost predicate Closed(rs: seq<Range>, x: int, y: int) {
    Has(rs, if y < x then y else y + 1)
  }

  // A range that contains the index grows and the later ones move; otherwise
  // all later ones move and the indices are added one by one.
  ghost function Grow(rs: seq<Range>, p: nat, count: nat): seq<Range>
    requires p < |rs|
  {
    ShiftFrom(rs[p := Range(rs[p].first, rs[p].second + count)], p + 1, count)
  }

  lemma {:induction false} GrowOk(rs: seq<Range>, x: nat, p: nat, count: nat)
    requires Sorted(rs) && FirstAfter(rs, x, p) && p < |rs| && rs[p].first <= x
    ensures Sorted(Grow(rs, p, count))
    ensures forall y: int :: Has(Grow(rs, p, count), y) <==> Opened(rs, x, count, y) || x <= y < x + count
  {
    forall y: int
      ensures Has(Grow(rs, p, count), y) <==> Opened(rs, x, count, y) || x <= y < x + count
    {
      GrowHas(rs, x, p, count, y);
    }
  }

  lemma {:induction false} GrowHas(rs: seq<Range>, x: nat, p: nat, count: nat, y: int)
    requires Sorted(rs) && FirstAfter(rs, x, p) && p < |rs| && rs[p].first <= x
    ensures Has(Grow(rs, p, count), y) <==> Opened(rs, x, count, y) || x <= y < x + count
  {
    hide Has;
    var r := Range(rs[p].first, rs[p].second + count);
    var g := rs[p := r];
    ShiftFromHas(g, p + 1, count, y);
    assert g[..p + 1] == rs[..p] + [r] && g[p + 1..] == rs[p + 1..];
    HasSplit(rs[..p], [r], y);
    HasOne(r, y);
    Replaced(rs, p, r, y);
    Replaced(rs, p, r, y - count);
    Ends(rs, p, y);
    Ends(rs, p, y - count);
  }

  // Members before and after range p lie outside it.
  lemma {:induction false} Ends(rs: seq<Range>, p: nat, y: int)
    requires Sorted(rs) && p < |rs|
    ensures Has(rs[..p], y) ==> y < rs[p].first
    ensures Has(rs[p + 1..], y) ==> rs[p].second < y
  {
  }

  lemma {:induction false} MakeRoom(rs: seq<Range>, x: nat, p: nat, count: nat)
    requires Sorted(rs) && FirstAfter(rs, x, p) && (p < |rs| ==> x < rs[p].first)
    ensures Sorted(ShiftFrom(rs, p, count)) && FirstAfter(ShiftFrom(rs, p, count), x, p)
    ensures p < |rs| ==> x + count < ShiftFrom(rs, p, count)[p].first
    ensures forall y: int :: Has(ShiftFrom(rs, p, count), y) <==> Opened(rs, x, count, y)
  {
    forall y: int
      ensures Has(ShiftFrom(rs, p, count), y) <==> Opened(rs, x, count, y)
    {
      ShiftFromHas(rs, p, count, y);
      Sides(rs, x, p, y);
      Sides(rs, x, p, y - count);
    }
  }

  // After adding x with nothing at x + 1, the next range is the first after x + 1.
  lemma {:induction false} AddNext(rs: seq<Range>, x: nat, p: nat)
    requires Sorted(rs) && FirstAfter(rs, x, p) && (p < |rs| ==> x + 1 < rs[p].first)
    ensures var e := Add(rs, x, p); FirstAfter(e.rs, x + 1, e.p + 1)
    ensures var e := Add(rs, x, p); |e.rs| - (e.p + 1) == |rs| - p && (p < |rs| ==> e.rs[e.p + 1] == rs[p])
  {
  }

  // ----- shift_for_insert_at: a range that contains the index is split -----

  ghost function SplitAt(rs: seq<Range>, x: nat, p: nat, count: nat): seq<Range>
    requires p < |rs|
  {
    var g := ShiftFrom(rs, p, count);
    if rs[p].first < x
    then g[..p] + [Range(rs[p].first, x), Range(x + count, g[p].second)] + g[p + 1..]
    else g
  }

  lemma {:induction false} SplitOk(rs: seq<Range>, x: nat, p: nat, count: nat)
    requires Sorted(rs) && FirstAfter(rs, x, p) && p < |rs| && count > 0
    ensures Sorted(SplitAt(rs, x, p, count))
    ensures forall y: int :: Has(SplitAt(rs, x, p, count), y) <==> Opened(rs, x, count, y)
  {
    hide Has, SplitAt, Sorted;
    forall y: int
      ensures Has(SplitAt(rs, x, p, count), y) <==> Opened(rs, x, count, y)
    {
      SplitHas(rs, x, p, count, y);
    }
    SplitSorted(rs, x, p, count);
  }

  // The range grown by the gap, with the gap cut out of it.
  lemma {:induction false} SplitSorted(rs: seq<Range>, x: nat, p: nat, count: nat)
    requires Sorted(rs) && FirstAfter(rs, x, p) && p < |rs| && count > 0
    ensures Sorted(SplitAt(rs, x, p, count))
  {
    hide Sorted;
    CutNeighbours(rs, p);
    if rs[p].first < x {
      var grown := Grow(rs, p, count);
      GrowOk(rs, x, p, count);
      GrowParts(rs, p, count);
      var low, high := Range(rs[p].first, x), Range(x + count, rs[p].second + count);
      CutTwo(grown, p, low, high);
      SplitParts(rs, x, p, count);
    } else {
      ShiftFromSorted(rs, p, count);
    }
  }

  lemma {:induction false} GrowParts(rs: seq<Range>, p: nat, count: nat)
    requires p < |rs|
    ensures var grown := Grow(rs, p, count);
            && |grown| == |rs| && grown[..p] == rs[..p] && grown[p] == Range(rs[p].first, rs[p].second + count)
            && grown[p + 1..] == ShiftFrom(rs, p, count)[p + 1..]
  {
  }

  lemma {:induction false} SplitParts(rs: seq<Range>, x: nat, p: nat, count: nat)
    requires p < |rs| && rs[p].first < x
    ensures SplitAt(rs, x, p, count) ==
            rs[..p] + [Range(rs[p].first, x), Range(x + count, rs[p].second + count)] + ShiftFrom(rs, p, count)[p + 1..]
  {
    assert ShiftFrom(rs, p, count)[..p] == rs[..p];
  }

  lemma {:induction false} SortedNone()
    ensures Sorted([])
  {
  }

  lemma {:induction false} SplitHas(rs: seq<Range>, x: nat, p: nat, count: nat, y: int)
    requires Sorted(rs) && FirstAfter(rs, x, p) && p < |rs| && count > 0
    ensures Has(SplitAt(rs, x, p, count), y) <==> Opened(rs, x, count, y)
  {
    hide Has, Sorted;
    if rs[p].first < x {
      var g := ShiftFrom(rs, p, count);
      var low, high := Range(rs[p].first, x), Range(x + count, g[p].second);
      assert g[..p] == rs[..p];
      HasMiddle(g[..p], [low, high], g[p + 1..], y);
      HasTwo(low, high, y);
      TailShifted(rs, p, count, y);
      Around(rs, p, y);
      Around(rs, p, y - count);
      assert SplitAt(rs, x, p, count) == g[..p] + [low, high] + g[p + 1..];
      assert Has(SplitAt(rs, x, p, count), y) <==>
          Has(rs[..p], y) || low.first <= y < low.second || high.first <= y < high.second
              || Has(rs[p + 1..], y - count);
    } else {
      ShiftFromHas(rs, p, count, y);
      Sides(rs, x, p, y);
      Sides(rs, x, p, y - count);
    }
  }

  lemma {:induction false} TailShifted(rs: seq<Range>, p: nat, count: nat, y: int)
    requires p < |rs|
    ensures Has(ShiftFrom(rs, p, count)[p + 1..], y) <==> Has(rs[p + 1..], y - count)
  {
    hide Has;
    var tail := rs[p + 1..];
    ShiftFromHas(tail, 0, count, y);
    assert ShiftFrom(rs, p, count)[p + 1..] == ShiftFrom(tail, 0, count);
    assert tail[..0] == [] && tail[0..] == tail;
    NoneHas(y);
  }

  // ----- erase_at -----

  ghost function Erase(rs: seq<Range>, x: nat, p: nat): seq<Range>
    requires p < |rs| && FirstAfter(rs, x, p) && Sorted(rs)
  {
    if rs[p].first <= x then
      if rs[p].first + 1 == rs[p].second then
        ShiftFrom(rs[..p] + rs[p + 1..], p, -1)
      else
        ShiftFrom(rs[p := Range(rs[p].first, rs[p].second - 1)], p + 1, -1)
    else if p > 0 && rs[p - 1].second + 1 == rs[p].first then
      var joined := Range(rs[p - 1].first, rs[p - 1].second + Length(rs[p]));
      ShiftFrom(rs[..p - 1] + [joined] + rs[p + 1..], p, -1)
    else
      ShiftFrom(rs, p, -1)
  }

  // The ranges from p on can move down by one.
  ghost predicate Lowerable(rs: seq<Range>, p: nat) {
    forall k | p <= k < |rs| :: rs[k].first + -1 >= 0 && rs[k].second + -1 >= 0
  }

  // The cases of an erase: a range of one index goes,
  lemma {:induction false} EraseOnly(rs: seq<Range>, x: nat, p: nat)
    requires Sorted(rs) && FirstAfter(rs, x, p) && p < |rs| && rs[p].first <= x && rs[p].first + 1 == rs[p].second
    ensures var cut := rs[..p] + rs[p + 1..];
            Lowerable(cut, p) && Erase(rs, x, p) == ShiftFrom(cut, p, -1) && Sorted(ShiftFrom(cut, p, -1))
  {
    hide Sorted;
    SortedFacts(rs);
    Positive(rs, p);
    Uncut(rs, p);
    ShiftFromSorted(rs[..p] + rs[p + 1..], p, -1);
  }

  // a longer range becomes shorter,
  lemma {:induction false} EraseShorter(rs: seq<Range>, x: nat, p: nat)
    requires Sorted(rs) && FirstAfter(rs, x, p) && p < |rs| && rs[p].first <= x && rs[p].first + 1 != rs[p].second
    ensures rs[p].second >= 1
    ensures var cut := rs[p := Range(rs[p].first, rs[p].second - 1)];
            Lowerable(cut, p + 1) && Erase(rs, x, p) == ShiftFrom(cut, p + 1, -1) && Sorted(ShiftFrom(cut, p + 1, -1))
  {
    hide Sorted;
    SortedFacts(rs);
    Positive(rs, p);
    var r := Range(rs[p].first, rs[p].second - 1);
    Cut(rs, p, p + 1, r);
    assert rs[p := r] == rs[..p] + [r] + rs[p + 1..];
    ShiftFromSorted(rs[p := r], p + 1, -1);
  }

  // two ranges with nothing but the index between them become one,
  lemma {:induction false} EraseBetweenTwo(rs: seq<Range>, x: nat, p: nat)
    requires Sorted(rs) && FirstAfter(rs, x, p) && 0 < p < |rs|
    requires x < rs[p].first && rs[p - 1].second + 1 == rs[p].first
    ensures rs[p - 1].second + Length(rs[p]) >= 0
    ensures var cut := rs[..p - 1] + [Range(rs[p - 1].first, rs[p - 1].second + Length(rs[p]))] + rs[p + 1..];
            p <= |cut| && Lowerable(cut, p) && Erase(rs, x, p) == ShiftFrom(cut, p, -1) && Sorted(ShiftFrom(cut, p, -1))
  {
    hide Sorted;
    SortedFacts(rs);
    Positive(rs, p);
    var joined := Range(rs[p - 1].first, rs[p - 1].second + Length(rs[p]));
    Cut(rs, p - 1, p + 1, joined);
    ShiftFromSorted(rs[..p - 1] + [joined] + rs[p + 1..], p, -1);
  }

  // and otherwise the ranges behind the index only move.
  lemma {:induction false} EraseOutside(rs: seq<Range>, x: nat, p: nat)
    requires Sorted(rs) && FirstAfter(rs, x, p) && p < |rs| && x < rs[p].first
    requires p > 0 ==> rs[p - 1].second + 1 != rs[p].first
    ensures Lowerable(rs, p) && Erase(rs, x, p) == ShiftFrom(rs, p, -1) && Sorted(ShiftFrom(rs, p, -1))
  {
    hide Sorted;
    SortedFacts(rs);
    Positive(rs, p);
    ShiftFromSorted(rs, p, -1);
  }

  lemma {:induction false} EraseSorted(rs: seq<Range>, x: nat, p: nat)
    requires Sorted(rs) && FirstAfter(rs, x, p) && p < |rs|
    ensures Sorted(Erase(rs, x, p))
  {
    hide Sorted, Erase, FirstAfter;
    if rs[p].first <= x {
      if rs[p].first + 1 == rs[p].second {
        EraseOnly(rs, x, p);
      } else {
        EraseShorter(rs, x, p);
      }
    } else if p > 0 && rs[p - 1].second + 1 == rs[p].first {
      EraseBetweenTwo(rs, x, p);
    } else {
      EraseOutside(rs, x, p);
    }
  }

  lemma {:induction false} Positive(rs: seq<Range>, p: nat)
    requires Sorted(rs) && p < |rs|
    ensures forall k | p < k < |rs| :: rs[k].first >= 1 && rs[k].second >= 1
  {
    assert rs[p].second >= 1;
  }

  lemma {:induction false} Uncut(rs: seq<Range>, p: nat)
    requires Sorted(rs) && p < |rs|
    ensures Sorted(rs[..p] + rs[p + 1..])
    ensures p > 0 && p + 1 < |rs| ==> rs[p - 1].second < rs[p].first < rs[p].second < rs[p + 1].first
  {
    var f := rs[..p] + rs[p + 1..];
    forall i, j | 0 <= i < j < |f|
      ensures f[i].second < f[j].first
    {
      assert f[i] == rs[if i < p then i else i + 1] && f[j] == rs[if j < p then j else j + 1];
    }
  }

  lemma {:induction false} EraseHas(rs: seq<Range>, x: nat, p: nat, y: int)
    requires Sorted(rs) && FirstAfter(rs, x, p) && p < |rs|
    ensures Has(Erase(rs, x, p), y) <==> Closed(rs, x, y)
  {
    hide Has, Sorted;
    SortedFacts(rs);
    Positive(rs, p);
    var a, c := rs[..p], rs[p + 1..];
    Around(rs, p, y);
    Around(rs, p, y + 1);
    if rs[p].first <= x {
      if rs[p].first + 1 == rs[p].second {
        EraseShift(rs, x, p, a, c, y);
        assert Has(Erase(rs, x, p), y) <==> Has(a, y) || Has(c, y + 1);
      } else {
        var r := Range(rs[p].first, rs[p].second - 1);
        assert rs[p := r] == a + [r] + c;
        EraseShift(rs, x, p, a + [r], c, y);
        HasSplit(a, [r], y);
        HasOne(r, y);
        assert Has(Erase(rs, x, p), y) <==> Has(a, y) || r.first <= y < r.second || Has(c, y + 1);
      }
    } else if p > 0 && rs[p - 1].second + 1 == rs[p].first {
      EraseJoined(rs, x, p, y);
    } else {
      EraseBetween(rs, x, p, y);
    }
  }

  // Membership by the side of range p on which y lies.
  lemma {:induction false} Around(rs: seq<Range>, p: nat, y: int)
    requires Sorted(rs) && p < |rs|
    ensures Has(rs, y) <==> Has(rs[..p], y) || rs[p].first <= y < rs[p].second || Has(rs[p + 1..], y)
    ensures Has(rs[..p], y) ==> y < rs[p].first
    ensures Has(rs[p + 1..], y) ==> rs[p].second < y
    ensures p > 0 && Has(rs[..p], y) ==> y < rs[p - 1].second
  {
    Replaced(rs, p, rs[p], y);
    Ends(rs, p, y);
  }

  lemma {:induction false} EraseShift(rs: seq<Range>, x: nat, p: nat, low: seq<Range>, high: seq<Range>, y: int)
    requires forall k | 0 <= k < |high| :: high[k].first >= 1 && high[k].second >= 1
    ensures Has(ShiftFrom(low + high, |low|, -1), y) <==> Has(low, y) || Has(high, y + 1)
  {
    hide Has;
    ShiftFromHas(low + high, |low|, -1, y);
    assert (low + high)[..|low|] == low && (low + high)[|low|..] == high;
  }

  // No range changes: those from p on only move down.
  lemma {:induction false} EraseBetween(rs: seq<Range>, x: nat, p: nat, y: int)
    requires Sorted(rs) && FirstAfter(rs, x, p) && p < |rs| && x < rs[p].first
    requires p > 0 ==> rs[p - 1].second + 1 != rs[p].first
    ensures Has(Erase(rs, x, p), y) <==> Closed(rs, x, y)
  {
    hide Has, Sorted;
    SortedFacts(rs);
    Positive(rs, p);
    assert Erase(rs, x, p) == ShiftFrom(rs, p, -1);
    ShiftFromHas(rs, p, -1, y);
    Sides(rs, x, p, y);
    Sides(rs, x, p, y + 1);
  }

  // The gap of one index between two ranges closes.
  lemma {:induction false} EraseJoined(rs: seq<Range>, x: nat, p: nat, y: int)
    requires Sorted(rs) && FirstAfter(rs, x, p) && 0 < p < |rs|
    requires x < rs[p].first && rs[p - 1].second + 1 == rs[p].first
    ensures Has(Erase(rs, x, p), y) <==> Closed(rs, x, y)
  {
    hide Has, Sorted;
    SortedFacts(rs);
    Positive(rs, p);
    var joined := Range(rs[p - 1].first, rs[p - 1].second + Length(rs[p]));
    var a, c := rs[..p - 1], rs[p + 1..];
    EraseShift(rs, x, p, a + [joined], c, y);
    HasSplit(a, [joined], y);
    HasOne(joined, y);
    Around(rs, p - 1, y);
    Around(rs, p - 1, y + 1);
    Around(rs, p, y);
    Around(rs, p, y + 1);
    BeforeAfter(rs, p, y);
    BeforeAfter(rs, p, y + 1);
  }

  lemma {:induction false} BeforeAfter(rs: seq<Range>, p: nat, y: int)
    requires Sorted(rs) && 0 < p < |rs|
    ensures Has(rs[..p], y) <==> Has(rs[..p - 1], y) || rs[p - 1].first <= y < rs[p - 1].second
  {
    hide Has;
    assert rs[..p] == rs[..p - 1] + [rs[p - 1]];
    HasSplit(rs[..p - 1], [rs[p - 1]], y);
    HasOne(rs[p - 1], y);
  }

  // ----- Summing over a prefix -----

  // Skipping ranges that begin at or below the index.
  lemma {:induction false} ShiftSkip(a: seq<Range>, b: seq<Range>, index: int)
    requires forall k | 0 <= k < |a| :: a[k].first <= index && a[k].first < a[k].second
    ensures Shifted(a + b, index) == Shifted(b, index + Total(a)) && Total(a) >= 0
  {
    if a == [] {
      assert a + b == b;
    } else {
      assert (a + b)[1..] == a[1..] + b;
      ShiftSkip(a[1..], b, index + Length(a[0]));
    }
  }

  // What a skipped prefix contributes to unshift.
  lemma {:induction false} UnshiftSkip(rs: seq<Range>, index: nat, p: nat)
    requires Sorted(rs) && FirstAfter(rs, index, p)
    ensures !Has(rs, index) ==> Unshifted(rs, index) == index - Total(rs[..p])
  {
    assert rs == rs[..p] + rs[p..];
    CountConcat(rs[..p], rs[p..], 0, index);
    CountWhole(rs[..p], 0, index);
    if !Has(rs, index) {
      FirstAfterHas(rs, index, p);
      CountNone(rs[p..], 0, index);
    }
  }

  lemma {:induction false} TotalTake(rs: seq<Range>, p: nat, q: nat)
    requires p <= q <= |rs|
    ensures Total(rs[..q]) == Total(rs[..p]) + Total(rs[p..q])
  {
    assert rs[..q] == rs[..p] + rs[p..q];
    TotalConcat(rs[..p], rs[p..q]);
  }

  // ----- remove -----

  // What is left of range p without [lo, hi).
  ghost function Leftover(r: Range, lo: nat, hi: nat): seq<Range> {
    (if r.first < lo then [Range(r.first, lo)] else []) + (if hi < r.second then [Range(hi, r.second)] else [])
  }

  ghost function CutOut(rs: seq<Range>, p: nat, lo: nat, hi: nat): seq<Range>
    requires p < |rs|
  {
    rs[..p] + Leftover(rs[p], lo, hi) + rs[p + 1..]
  }

  lemma {:induction false} CutOutSorted(rs: seq<Range>, p: nat, lo: nat, hi: nat)
    requires Sorted(rs) && p < |rs| && rs[p].first <= lo < rs[p].second && lo < hi
    ensures Sorted(CutOut(rs, p, lo, hi))
  {
    hide Sorted;
    var r := rs[p];
    CutNeighbours(rs, p);
    if r.first < lo && hi < r.second {
      CutTwo(rs, p, Range(r.first, lo), Range(hi, r.second));
      assert Leftover(r, lo, hi) == [Range(r.first, lo), Range(hi, r.second)];
    } else if r.first < lo {
      Cut(rs, p, p + 1, Range(r.first, lo));
      assert Leftover(r, lo, hi) == [Range(r.first, lo)];
    } else if hi < r.second {
      Cut(rs, p, p + 1, Range(hi, r.second));
      assert Leftover(r, lo, hi) == [Range(hi, r.second)];
    } else {
      Uncut(rs, p);
      assert CutOut(rs, p, lo, hi) == rs[..p] + rs[p + 1..];
    }
  }

  lemma {:induction false} CutNeighbours(rs: seq<Range>, p: nat)
    requires Sorted(rs) && p < |rs|
    ensures p > 0 ==> rs[p - 1].second < rs[p].first
    ensures p + 1 < |rs| ==> rs[p].second < rs[p + 1].first
    ensures rs[p].first < rs[p].second
  {
  }

  // Two ranges in place of the one at p.
  lemma {:induction false} CutTwo(rs: seq<Range>, p: nat, left: Range, right: Range)
    requires Sorted(rs) && p < |rs|
             && rs[p].first <= left.first < left.second < right.first < right.second <= rs[p].second
    ensures Sorted(rs[..p] + [left, right] + rs[p + 1..])
  {
    hide Sorted;
    CutNeighbours(rs, p);
    Cut(rs, p, p + 1, left);
    var g := rs[..p] + [left] + rs[p + 1..];
    assert g[p] == left && (p + 1 < |rs| ==> g[p + 1] == rs[p + 1]);
    Cut(g, p + 1, p + 1, right);
    assert g[..p + 1] + [right] + g[p + 1..] == rs[..p] + [left, right] + rs[p + 1..];
  }

  lemma {:induction false} CutOutHas(rs: seq<Range>, p: nat, lo: nat, hi: nat, y: int)
    requires Sorted(rs) && p < |rs| && rs[p].first <= lo < rs[p].second && lo <= hi
    ensures Has(CutOut(rs, p, lo, hi), y) <==> Has(rs, y) && !(lo <= y < hi && y < rs[p].second)
  {
    hide Has, Sorted;
    HasMiddle(rs[..p], Leftover(rs[p], lo, hi), rs[p + 1..], y);
    LeftoverHas(rs[p], lo, hi, y);
    Around(rs, p, y);
  }

  lemma {:induction false} LeftoverHas(r: Range, lo: nat, hi: nat, y: int)
    requires r.first <= lo < r.second && lo <= hi
    ensures Has(Leftover(r, lo, hi), y) <==> r.first <= y < r.second && !(lo <= y < hi)
  {
    hide Has;
    var a := if r.first < lo then [Range(r.first, lo)] else [];
    var b := if hi < r.second then [Range(hi, r.second)] else [];
    HasSplit(a, b, y);
    NoneHas(y);
    HasOne(Range(r.first, lo), y);
    HasOne(Range(hi, r.second), y);
  }

  // An empty span strictly inside a range splits it into two that touch, which
  // the representation does not allow.
  lemma {:induction false} EmptySpanTouches(rs: seq<Range>, p: nat, at: nat)
    requires Sorted(rs) && p < |rs| && rs[p].first < at < rs[p].second
    ensures Loose(CutOut(rs, p, at, at)) && !Sorted(CutOut(rs, p, at, at))
    ensures FirstAfter(CutOut(rs, p, at, at), at, p + 1) && CutOut(rs, p, at, at)[p + 1].first == at
  {
    var g := CutOut(rs, p, at, at);
    assert g == rs[..p] + [Range(rs[p].first, at), Range(at, rs[p].second)] + rs[p + 1..];
    assert g[p] == Range(rs[p].first, at) && g[p + 1] == Range(at, rs[p].second);
    assert forall k | 0 <= k < p :: g[k] == rs[k];
    assert forall k | p + 1 < k < |g| :: g[k] == rs[k - 1];
    assert g[p].second == g[p + 1].first;
    forall i, j | 0 <= i < j < |g|
      ensures g[i].second <= g[j].first
    {
      OneCutOrder(rs, p, at, i, j);
    }
  }

  lemma {:induction false} OneCutOrder(rs: seq<Range>, p: nat, at: nat, i: nat, j: nat)
    requires Sorted(rs) && p < |rs| && rs[p].first < at < rs[p].second && i < j <= |rs|
    ensures var low := if i < p then rs[i].second else if i == p then at else rs[i - 1].second;
            var high := if j <= p then rs[j].first else if j == p + 1 then at else rs[j - 1].first;
            low <= high
  {
  }

  lemma {:induction false} CutOutLoose(rs: seq<Range>, p: nat, lo: nat, hi: nat)
    requires Sorted(rs) && p < |rs| && rs[p].first <= lo < rs[p].second && lo <= hi && rs[p].first < hi
    ensures Loose(CutOut(rs, p, lo, hi))
  {
    hide Sorted, Loose, CutOut;
    if lo < hi {
      CutOutSorted(rs, p, lo, hi);
      SortedIsLoose(CutOut(rs, p, lo, hi));
    } else {
      EmptySpanTouches(rs, p, lo);
    }
  }

  ghost predicate StrictlyInside(rs: seq<Range>, x: nat) {
    exists k :: 0 <= k < |rs| && rs[k].first < x < rs[k].second
  }

  // Only one place is the first after x.
  lemma {:induction false} SameFirstAfter(rs: seq<Range>, x: nat, p: nat, q: nat)
    requires FirstAfter(rs, x, p) && FirstAfter(rs, x, q)
    ensures p == q
  {
  }

  // An empty span that met no range to cut lies strictly inside none.
  lemma {:induction false} NotInside(before: seq<Range>, rs: seq<Range>, lo: nat, hi: nat, p: nat)
    requires Sorted(before) && lo <= hi && p <= |rs| && (p < |rs| ==> hi <= rs[p].first)
    requires lo == hi && rs == before ==> FirstAfter(rs, lo, p)
    ensures lo == hi && rs == before ==> !StrictlyInside(before, lo)
  {
    if lo == hi && rs == before {
      forall k | 0 <= k < |before|
        ensures !(before[k].first < lo < before[k].second)
      {
        if p <= k {
          OrderedEnds(before, p, k);
        }
      }
    }
  }

  // The members from the original `before` after everything in [lo, at) is gone.
  ghost predicate Cleared(before: seq<Range>, rs: seq<Range>, lo: nat, at: nat, hi: nat) {
    && (forall y: int :: Has(rs, y) ==> Has(before, y) && !(lo <= y < at && y < hi))
    && (forall y: int :: Has(before, y) && !(lo <= y < hi) ==> Has(rs, y))
  }

  lemma {:induction false} ClearedStep(before: seq<Range>, rs: seq<Range>, lo: nat, at: nat, hi: nat, p: nat)
    requires Sorted(rs) && Cleared(before, rs, lo, at, hi) && lo <= at
    requires FirstAfter(rs, at, p) && p < |rs| && rs[p].first < hi
    requires var at' := if rs[p].first > at then rs[p].first else at; at' <= hi
    ensures var at' := if rs[p].first > at then rs[p].first else at;
            && Cleared(before, CutOut(rs, p, at', hi), lo, at', hi)
            && Loose(CutOut(rs, p, at', hi))
            && (Sorted(CutOut(rs, p, at', hi)) <==> at' < hi)
  {
    hide Has, Sorted, CutOut;
    var at' := if rs[p].first > at then rs[p].first else at;
    CutNeighbours(rs, p);
    if at' < hi {
      CutOutSorted(rs, p, at', hi);
      SortedIsLoose(CutOut(rs, p, at', hi));
    } else {
      EmptySpanTouches(rs, p, at');
    }
    forall y: int
      ensures Has(CutOut(rs, p, at', hi), y) ==> Has(before, y) && !(lo <= y < at' && y < hi)
      ensures Has(before, y) && !(lo <= y < hi) ==> Has(CutOut(rs, p, at', hi), y)
    {
      CutOutHas(rs, p, at', hi, y);
      Sides(rs, at, p, y);
    }
  }

  lemma {:induction false} ClearedDone(before: seq<Range>, rs: seq<Range>, lo: nat, at: nat, hi: nat, p: nat)
    requires Loose(rs) && Cleared(before, rs, lo, at, hi)
    requires FirstAfter(rs, at, p) && (p < |rs| ==> hi <= rs[p].first)
    ensures forall y: int :: Has(rs, y) <==> Has(before, y) && !(lo <= y < hi)
  {
    hide Has, Loose;
    forall y: int
      ensures Has(rs, y) <==> Has(before, y) && !(lo <= y < hi)
    {
      LooseSides(rs, at, p, y);
    }
  }

  // The loop of do_remove: where it stands, and what it has done so far. The
  // span is empty only if lo == hi; then one cut at most happens.
  ghost predicate Removing(before: seq<Range>, rs: seq<Range>, lo: nat, at: nat, hi: nat, p: nat) {
    && Loose(rs) && lo <= at && (at < hi || at == lo == hi) && FirstAfter(rs, at, p)
    && Cleared(before, rs, lo, at, hi)
    && (lo == hi && Sorted(rs) ==> rs == before)
    && (!Sorted(rs) ==> lo == hi && StrictlyInside(before, lo) && (p < |rs| ==> hi <= rs[p].first))
  }

  lemma {:induction false} RemovingStart(rs: seq<Range>, lo: nat, hi: nat, p: nat)
    requires Sorted(rs) && lo <= hi && FirstAfter(rs, lo, p)
    ensures Removing(rs, rs, lo, lo, hi, p)
  {
    hide Has;
    SortedIsLoose(rs);
  }

  lemma {:induction false} RemovingCut(before: seq<Range>, rs: seq<Range>, lo: nat, at: nat, hi: nat, p: nat)
    requires Removing(before, rs, lo, at, hi, p) && p < |rs| && rs[p].first < hi
    ensures Sorted(rs)
    ensures var at' := if rs[p].first > at then rs[p].first else at;
            && rs[p].first <= at' < rs[p].second && at' <= hi
            && Loose(CutOut(rs, p, at', hi))
  {
    hide Sorted, Cleared, CutOut;
    CutNeighbours(rs, p);
    CutOutLoose(rs, p, if rs[p].first > at then rs[p].first else at, hi);
  }

  lemma {:induction false} RemovingNext(before: seq<Range>, rs: seq<Range>, lo: nat, at: nat, hi: nat, p: nat, q: nat)
    requires Removing(before, rs, lo, at, hi, p) && p < |rs| && rs[p].first < hi
    requires var at' := if rs[p].first > at then rs[p].first else at; FirstAfter(CutOut(rs, p, at', hi), at', q)
    ensures var at' := if rs[p].first > at then rs[p].first else at;
            var cut := CutOut(rs, p, at', hi);
            && Removing(before, cut, lo, at', hi, q)
            && (|cut| - q < |rs| - p || (|cut| - q == |rs| - p && (q < |cut| ==> hi <= cut[q].first)))
  {
    hide Sorted, Cleared, Loose;
    RemovingCut(before, rs, lo, at, hi, p);
    ClearedStep(before, rs, lo, at, hi, p);
    var at' := if rs[p].first > at then rs[p].first else at;
    if at' == hi {
      EmptySpanTouches(rs, p, at');
      SameFirstAfter(CutOut(rs, p, at', hi), at', p + 1, q);
    } else {
      CutOutFirst(rs, p, at', hi, q);
    }
  }

  // A cut leaves the ranges before it alone, and they end by its start.
  lemma {:induction false} CutBefore(before: seq<Range>, rs: seq<Range>, lo: nat, from: nat, at: nat, hi: nat, p: nat)
    requires Removing(before, rs, lo, from, hi, p) && p < |rs| && from <= at
    ensures forall k | 0 <= k < p :: k < |CutOut(rs, p, at, hi)| && CutOut(rs, p, at, hi)[k].second <= at
  {
    hide Sorted, Cleared, Loose;
    assert forall k | 0 <= k < p :: CutOut(rs, p, at, hi)[k] == rs[k];
  }

  // After a cut the next range is one of what is left of the one that was cut,
  // or comes later.
  lemma {:induction false} CutOutFirst(rs: seq<Range>, p: nat, at: nat, hi: nat, q: nat)
    requires p < |rs| && rs[p].first <= at < rs[p].second && at < hi
    requires FirstAfter(CutOut(rs, p, at, hi), at, q) && forall k | 0 <= k < p :: rs[k].second <= at
    ensures var cut := CutOut(rs, p, at, hi);
            |cut| - q < |rs| - p || (|cut| - q == |rs| - p && (q < |cut| ==> hi <= cut[q].first))
  {
    var cut := CutOut(rs, p, at, hi);
    assert forall k | 0 <= k < p :: cut[k] == rs[k];
    if rs[p].first < at {
      assert cut[p] == Range(rs[p].first, at);
      if hi < rs[p].second {
        assert cut[p + 1] == Range(hi, rs[p].second);
      }
    } else if hi < rs[p].second {
      assert cut[p] == Range(hi, rs[p].second);
    }
  }

  lemma {:induction false} RemovingDone(before: seq<Range>, rs: seq<Range>, lo: nat, at: nat, hi: nat, p: nat)
    requires Sorted(before) && Removing(before, rs, lo, at, hi, p) && (p < |rs| ==> hi <= rs[p].first)
    ensures Sorted(rs) <==> lo < hi || !StrictlyInside(before, lo)
    ensures forall k | 0 <= k < p :: rs[k].second <= hi
    ensures forall y: int :: Has(rs, y) <==> Has(before, y) && !(lo <= y < hi)
  {
    hide Sorted, Has, Cleared, Loose;
    NotInside(before, rs, lo, hi, p);
    ClearedDone(before, rs, lo, at, hi, p);
  }
}
