// The block matching behind the change set between two sequences of rows: the
// longest block that two windows have in common, and what is found of them on
// both sides of it.
module RowMatches {
  import opened Wrappers
  import opened IndexSets

  // A row and its position in a sequence.
  datatype Row = Row(rowIndex: nat, tvIndex: nat)

  datatype Match = Match(i: nat, j: nat, size: nat, modified: Option<int>)

  // A block that ends at position j.
  datatype Length = Length(j: nat, len: nat)

  datatype Window = Window(begin1: nat, end1: nat, begin2: nat, end2: nat)

  ghost predicate Fits(w: Window, a: seq<Row>, b: seq<nat>) {
    w.begin1 <= w.end1 <= |a| && w.begin2 <= w.end2 <= |b|
  }

  // The block of a at i is the block of b at j, inside the window.
  ghost predicate Common(w: Window, a: seq<Row>, b: seq<nat>, i: int, j: int, size: int) {
    && w.begin1 <= i && i + size <= w.end1 <= |a| && w.begin2 <= j && j + size <= w.end2 <= |b|
    && forall x | i <= x < i + size :: a[x].rowIndex == b[x - i + j]
  }

  // The length of the longest common block that ends with a[i] and b[j].
  ghost function Run(w: Window, a: seq<Row>, b: seq<nat>, i: int, j: int): nat
    decreases i - w.begin1
  {
    if w.begin1 <= i < |a| && w.begin2 <= j < |b| && a[i].rowIndex == b[j] then 1 + Run(w, a, b, i - 1, j - 1) else 0
  }

  lemma {:induction false} RunCommon(w: Window, a: seq<Row>, b: seq<nat>, i: nat, j: nat)
    requires Fits(w, a, b) && w.begin1 <= i < w.end1 && w.begin2 <= j < w.end2 && a[i].rowIndex == b[j]
    ensures var n := Run(w, a, b, i, j); Common(w, a, b, i - n + 1, j - n + 1, n)
    decreases i
  {
    if i > w.begin1 && j > w.begin2 && a[i - 1].rowIndex == b[j - 1] {
      RunCommon(w, a, b, i - 1, j - 1);
    } else {
      assert Run(w, a, b, i - 1, j - 1) == 0;
    }
  }

  lemma {:induction false} CommonRun(w: Window, a: seq<Row>, b: seq<nat>, i: nat, j: nat, size: nat)
    requires Common(w, a, b, i, j, size)
    ensures size <= Run(w, a, b, i + size - 1, j + size - 1)
    decreases size
  {
    if size > 0 {
      CommonRun(w, a, b, i, j, size - 1);
      assert a[i + size - 1].rowIndex == b[j + size - 1];
    }
  }

  // b lists the rows of a sequence by row, and by position for the same row.
  ghost predicate Listing(b: seq<Row>, order: seq<nat>) {
    && |b| == |order|
    && (forall x | 0 <= x < |b| :: b[x].tvIndex < |order| && order[b[x].tvIndex] == b[x].rowIndex)
    && (forall j | 0 <= j < |order| :: Row(order[j], j) in b)
    && (forall x, y | 0 <= x < y < |b| :: Before(b[x], b[y]))
  }

  predicate Before(x: Row, y: Row) {
    x.rowIndex < y.rowIndex || (x.rowIndex == y.rowIndex && x.tvIndex < y.tvIndex)
  }

  // The blocks that end with a[i], one for each place of its row in the window.
  ghost predicate Lengths(w: Window, a: seq<Row>, b: seq<nat>, i: int, ls: seq<Length>) {
    && (forall e | e in ls :: e.len == Run(w, a, b, i, e.j))
    && (forall j: nat :: w.begin2 <= j < w.end2 && Run(w, a, b, i, j) > 0 ==> exists e :: e in ls && e.j == j)
  }

  // No block that ends before a[i] is longer.
  ghost predicate Best(w: Window, a: seq<Row>, b: seq<nat>, i: int, m: Match) {
    && Common(w, a, b, m.i, m.j, m.size)
    && forall x, y | x < i && y < w.end2 :: Run(w, a, b, x, y) <= m.size
  }

  // Matches inside the window, each behind the one before on both sides.
  ghost predicate Chain(w: Window, a: seq<Row>, b: seq<nat>, ms: seq<Match>) {
    && (forall k | 0 <= k < |ms| :: Common(w, a, b, ms[k].i, ms[k].j, ms[k].size))
    && (forall k, l | 0 <= k < l < |ms| :: ms[k].i + ms[k].size <= ms[l].i && ms[k].j + ms[k].size <= ms[l].j)
  }

  // size_t arithmetic below zero.
  function Wrapped(n: int): (m: nat)
    ensures n >= 0 ==> m == n
  {
    if n < 0 then n % 0x1_0000_0000_0000_0000 else n
  }

  lemma {:induction false} CommonInside(w: Window, a: seq<Row>, b: seq<nat>, i: int, j: int, size: int)
    requires Common(w, a, b, i, j, size)
    ensures w.begin1 <= i && i + size <= w.end1 && w.begin2 <= j && j + size <= w.end2
  {
  }

  lemma {:induction false} NothingYet(w: Window, a: seq<Row>, b: seq<nat>, m: Match)
    requires Fits(w, a, b) && m.i == w.begin1 && m.j == w.begin2 && m.size == 0
    ensures Best(w, a, b, w.begin1, m) && Lengths(w, a, b, w.begin1 - 1, [])
  {
  }

  lemma {:induction false} NoChain(w: Window, a: seq<Row>, b: seq<nat>)
    ensures Chain(w, a, b, [])
  {
  }

  // Matches before and behind a match.
  lemma {:induction false} Around(w: Window, a: seq<Row>, b: seq<nat>, first: seq<Match>, m: Match, last: seq<Match>)
    requires Fits(w, a, b) && Common(w, a, b, m.i, m.j, m.size)
    requires Chain(Window(w.begin1, m.i, w.begin2, m.j), a, b, first)
    requires Chain(Window(m.i + m.size, w.end1, m.j + m.size, w.end2), a, b, last)
    ensures Chain(w, a, b, first + [m] + last)
  {
    var all := first + [m] + last;
    forall k | 0 <= k < |all|
      ensures Common(w, a, b, all[k].i, all[k].j, all[k].size)
      ensures k < |first| ==> all[k].i + all[k].size <= m.i && all[k].j + all[k].size <= m.j
      ensures k > |first| ==> m.i + m.size <= all[k].i && m.j + m.size <= all[k].j
    {
    }
  }

  lemma {:induction false} Closed(w: Window, a: seq<Row>, b: seq<nat>, ms: seq<Match>)
    requires Fits(w, a, b) && Chain(w, a, b, ms)
    ensures Chain(w, a, b, ms + [Match(w.end1, w.end2, 0, Some(0))])
  {
  }

  lemma {:induction false} Found(b: seq<Row>, order: seq<nat>, row: nat, start: nat)
    requires Listing(b, order) && row in order && start <= |b|
    requires (forall x | 0 <= x < start :: b[x].rowIndex < row) && forall x | start <= x < |b| :: row <= b[x].rowIndex
    ensures start < |b| && b[start].rowIndex == row
  {
    var j :| 0 <= j < |order| && order[j] == row;
    var x :| 0 <= x < |b| && b[x] == Row(order[j], j);
  }

  lemma {:induction false} ListingAt(b: seq<Row>, order: seq<nat>, x: nat)
    requires Listing(b, order) && x < |b|
    ensures b[x].tvIndex < |order| && order[b[x].tvIndex] == b[x].rowIndex
  {
  }

  // The places of a[i] from start to it have been looked at.
  ghost predicate Scanned(w: Window, a: seq<Row>, b: seq<Row>, order: seq<nat>, i: nat, start: nat, it: nat,
                          cur: seq<Length>, best: Match) {
    && start <= it <= |b|
    && (forall e | e in cur :: e.len == Run(w, a, order, i, e.j))
    && (forall x | start <= x < it && w.begin2 <= b[x].tvIndex < w.end2 :: exists e :: e in cur && e.j == b[x].tvIndex)
    && Best(w, a, order, i, best)
    && (forall x | start <= x < it && b[x].tvIndex < w.end2 :: Run(w, a, order, i, b[x].tvIndex) <= best.size)
  }

  lemma {:induction false} ScannedNone(w: Window, a: seq<Row>, b: seq<Row>, order: seq<nat>, i: nat, start: nat,
                                       best: Match)
    requires start <= |b| && Best(w, a, order, i, best)
    ensures Scanned(w, a, b, order, i, start, start, [], best)
  {
  }

  lemma {:induction false} ScannedBest(w: Window, a: seq<Row>, b: seq<Row>, order: seq<nat>, i: nat, start: nat,
                                       it: nat, cur: seq<Length>, best: Match)
    requires Scanned(w, a, b, order, i, start, it, cur, best)
    ensures Common(w, a, order, best.i, best.j, best.size)
  {
  }

  lemma {:induction false} ScannedNext(w: Window, a: seq<Row>, b: seq<Row>, order: seq<nat>, i: nat, start: nat,
                                       it: nat, cur: seq<Length>, best: Match, better: Match)
    requires Scanned(w, a, b, order, i, start, it, cur, best) && it < |b|
    requires Common(w, a, order, better.i, better.j, better.size)
    requires best.size <= better.size && Run(w, a, order, i, b[it].tvIndex) <= better.size
    ensures Scanned(w, a, b, order, i, start, it + 1,
                    cur + [Length(b[it].tvIndex, Run(w, a, order, i, b[it].tvIndex))], better)
  {
    hide Run, Common;
    var e := Length(b[it].tvIndex, Run(w, a, order, i, b[it].tvIndex));
    assert e in cur + [e];
  }

  lemma {:induction false} ScannedSkip(w: Window, a: seq<Row>, b: seq<Row>, order: seq<nat>, i: nat, start: nat,
                                       it: nat, cur: seq<Length>, best: Match)
    requires Scanned(w, a, b, order, i, start, it, cur, best) && it < |b| && b[it].tvIndex < w.begin2
    ensures Scanned(w, a, b, order, i, start, it + 1, cur, best)
  {
    hide Common;
    assert Run(w, a, order, i, b[it].tvIndex) == 0;
  }

  // No place of a[i] in the window is left.
  lemma {:induction false} ScannedDone(w: Window, a: seq<Row>, b: seq<Row>, order: seq<nat>, i: nat, start: nat,
                                       it: nat, cur: seq<Length>, best: Match)
    requires Fits(w, a, order) && Listing(b, order) && Scanned(w, a, b, order, i, start, it, cur, best) && i < |a|
    requires forall x | 0 <= x < start :: b[x].rowIndex < a[i].rowIndex
    requires it == |b| || a[i].rowIndex < b[it].rowIndex || (b[it].rowIndex == a[i].rowIndex && w.end2 <= b[it].tvIndex)
    ensures Lengths(w, a, order, i, cur) && Best(w, a, order, i + 1, best)
  {
    hide Common;
    forall j: int | j < w.end2 && Run(w, a, order, i, j) > 0
      ensures exists x :: start <= x < it && b[x].tvIndex == j
    {
      var x :| 0 <= x < |b| && b[x] == Row(order[j], j);
    }
    forall x, y | x < i + 1 && y < w.end2
      ensures Run(w, a, order, x, y) <= best.size
    {
      if x == i && Run(w, a, order, i, y) > 0 {
        var z :| start <= z < it && b[z].tvIndex == y;
      }
    }
  }

  lemma {:induction false} InsideWindow(w: Window, a: seq<Row>, b: seq<nat>, i: nat, j: nat, size: nat)
    requires Common(w, a, b, i, j, size)
    ensures i + size - 1 < w.end1 && j + size - 1 < w.end2
  {
  }

  // ----- Which matches are found -----

  ghost predicate NoneLonger(w: Window, a: seq<Row>, b: seq<nat>, size: nat) {
    forall i: nat, j: nat, n: nat :: Common(w, a, b, i, j, n) ==> n <= size
  }

  function InFront(w: Window, m: Match): Window {
    Window(w.begin1, m.i, w.begin2, m.j)
  }

  function Behind(w: Window, m: Match): Window {
    Window(m.i + m.size, w.end1, m.j + m.size, w.end2)
  }

  // The window behind a match is searched. On the old side this compares with the
  // end of the new side.
  predicate GoesOn(w: Window, m: Match) {
    m.i + m.size < w.end2 && m.j + m.size < w.end2
  }

  // None if the windows have no row in common; else a longest common block, with
  // the matches of the windows before and behind it around it.
  ghost predicate Blocks(w: Window, a: seq<Row>, b: seq<nat>, ms: seq<Match>)
    decreases |ms|, 1
  {
    if ms == [] then NoneLonger(w, a, b, 0)
    else exists k :: 0 <= k < |ms| && BlockAt(w, a, b, ms, k)
  }

  ghost predicate BlockAt(w: Window, a: seq<Row>, b: seq<nat>, ms: seq<Match>, k: nat)
    requires k < |ms|
    decreases |ms|, 0
  {
    var m := ms[k];
    && m.size > 0 && Common(w, a, b, m.i, m.j, m.size) && NoneLonger(w, a, b, m.size)
    && Blocks(InFront(w, m), a, b, ms[..k])
    && if GoesOn(w, m) then Blocks(Behind(w, m), a, b, ms[k + 1..]) else ms[k + 1..] == []
  }

  lemma {:induction false} NarrowWindow(w: Window, a: seq<Row>, b: seq<nat>)
    requires w.end1 <= w.begin1 || w.end2 <= w.begin2
    ensures NoneLonger(w, a, b, 0)
  {
  }

  lemma {:induction false} NoBlocks(w: Window, a: seq<Row>, b: seq<nat>)
    requires NoneLonger(w, a, b, 0)
    ensures Blocks(w, a, b, [])
  {
  }

  lemma {:induction false} BlocksAround(w: Window, a: seq<Row>, b: seq<nat>, first: seq<Match>, m: Match,
                                        last: seq<Match>)
    requires m.size > 0 && Common(w, a, b, m.i, m.j, m.size) && NoneLonger(w, a, b, m.size)
    requires Blocks(InFront(w, m), a, b, first)
    requires if GoesOn(w, m) then Blocks(Behind(w, m), a, b, last) else last == []
    ensures Blocks(w, a, b, first + [m] + last)
  {
    hide Common;
    var all := first + [m] + last;
    assert all[|first|] == m && all[..|first|] == first && all[|first| + 1..] == last;
    assert BlockAt(w, a, b, all, |first|);
  }

  // If there is a common block, a match as long as the longest is among them.
  lemma {:induction false} LongestFound(w: Window, a: seq<Row>, b: seq<nat>, ms: seq<Match>)
    requires Blocks(w, a, b, ms)
    ensures forall i: nat, j: nat, n: nat | Common(w, a, b, i, j, n) && n > 0 ::
              exists k :: 0 <= k < |ms| && n <= ms[k].size
  {
    hide Common;
    if ms != [] {
      var k :| 0 <= k < |ms| && BlockAt(w, a, b, ms, k);
    }
  }

  lemma {:induction false} OneRow(w: Window, a: seq<Row>, b: seq<nat>, i: nat, j: nat)
    requires Fits(w, a, b) && w.begin1 <= i < w.end1 && w.begin2 <= j < w.end2 && a[i].rowIndex == b[j]
    ensures Common(w, a, b, i, j, 1)
  {
  }

  // No row in common is left before the first match.
  lemma {:induction false} NothingBefore(w: Window, a: seq<Row>, b: seq<nat>, ms: seq<Match>, i: nat, j: nat)
    requires Fits(w, a, b) && Blocks(w, a, b, ms) && w.begin1 <= i < w.end1 && w.begin2 <= j < w.end2
    requires ms != [] ==> i < ms[0].i && j < ms[0].j
    ensures a[i].rowIndex != b[j]
    decreases |ms|
  {
    hide Common;
    if a[i].rowIndex == b[j] {
      OneRow(w, a, b, i, j);
    }
    if ms != [] {
      var k :| 0 <= k < |ms| && BlockAt(w, a, b, ms, k);
      CommonInside(w, a, b, ms[k].i, ms[k].j, ms[k].size);
      if k > 0 {
        FirstBefore(w, a, b, ms[..k], ms[k]);
      }
      NothingBefore(InFront(w, ms[k]), a, b, ms[..k], i, j);
    }
  }

  // Matches of a window begin inside it.
  lemma {:induction false} FirstBefore(w: Window, a: seq<Row>, b: seq<nat>, ms: seq<Match>, m: Match)
    requires Blocks(InFront(w, m), a, b, ms) && ms != []
    ensures ms[0].i < m.i && ms[0].j < m.j
    decreases |ms|
  {
    hide Common;
    var v := InFront(w, m);
    var k :| 0 <= k < |ms| && BlockAt(v, a, b, ms, k);
    CommonInside(v, a, b, ms[k].i, ms[k].j, ms[k].size);
    if k > 0 {
      FirstBefore(v, a, b, ms[..k], ms[k]);
    }
  }

  // Nor behind the last, if the old side does not reach farther than the new one.
  lemma {:induction false} NothingBehind(w: Window, a: seq<Row>, b: seq<nat>, ms: seq<Match>, i: nat, j: nat)
    requires Fits(w, a, b) && Blocks(w, a, b, ms) && ms != [] && w.end1 <= w.end2
    requires var m := ms[|ms| - 1]; m.i + m.size <= i < w.end1 && m.j + m.size <= j < w.end2
    ensures a[i].rowIndex != b[j]
    decreases |ms|
  {
    hide Common;
    var k :| 0 <= k < |ms| && BlockAt(w, a, b, ms, k);
    var m, rest := ms[k], ms[k + 1..];
    CommonInside(w, a, b, m.i, m.j, m.size);
    if rest == [] {
      assert k == |ms| - 1;
      if GoesOn(w, m) && a[i].rowIndex == b[j] {
        assert NoneLonger(Behind(w, m), a, b, 0) by {
          assert Blocks(Behind(w, m), a, b, rest);
        }
        OneRow(Behind(w, m), a, b, i, j);
      }
    } else {
      assert rest[|rest| - 1] == ms[|ms| - 1];
      NothingBehind(Behind(w, m), a, b, rest, i, j);
    }
  }

  class LongestCommonSubsequenceCalculator {
    const modified: IndexSet
    const a: seq<Row>
    const b: seq<Row>
    ghost const order: seq<nat>
    var longestMatches: seq<Match>

    ghost predicate Valid()
      reads modified, modified.v
    {
      && Listing(b, order) && modified.Valid()
      && forall i | 0 <= i < |a| :: a[i].rowIndex in order
    }

    // The matches from the start on, closed by an empty one at the end.
    constructor (a: seq<Row>, b: seq<Row>, start: nat, modifications: IndexSet, ghost order: seq<nat>)
      requires Listing(b, order) && modifications.Valid() && start <= |a| == |b|
      requires forall i | 0 <= i < |a| :: a[i].rowIndex in order
      ensures Chain(Window(start, |a|, start, |b|), a, order, longestMatches)
      ensures longestMatches != [] && longestMatches[|longestMatches| - 1] == Match(|a|, |b|, 0, Some(0))
      ensures Blocks(Window(start, |a|, start, |b|), a, order, longestMatches[..|longestMatches| - 1])
    {
      this.a := a;
      this.b := b;
      this.order := order;
      modified := modifications;
      longestMatches := [];
      new;
      FindLongestMatches(Window(start, |a|, start, |b|));
      ghost var found := longestMatches;
      longestMatches := longestMatches + [Match(|a|, |b|, 0, Some(0))];
      assert longestMatches[..|found|] == found;
      Closed(Window(start, |a|, start, |b|), a, order, found);
    }

    // The longest block the two windows have in common.
    method FindLongestMatch(w: Window) returns (best: Match)
      requires Valid() && Fits(w, a, order)
      ensures Common(w, a, order, best.i, best.j, best.size)
      ensures NoneLonger(w, a, order, best.size)
    {
      hide Listing, Run, Common, Lengths;
      best := Match(w.begin1, w.begin2, 0, Some(0));
      NothingYet(w, a, order, best);
      var cur: seq<Length>, i := [], w.begin1;
      while i < w.end1
        invariant w.begin1 <= i <= w.end1
        invariant Lengths(w, a, order, i - 1, cur) && Best(w, a, order, i, best)
      {
        cur, best := ScanRow(w, i, cur, best);
        i := i + 1;
      }
      forall i: nat, j: nat, size: nat | Common(w, a, order, i, j, size)
        ensures size <= best.size
      {
        CommonRun(w, a, order, i, j, size);
        InsideWindow(w, a, order, i, j, size);
      }
    }

    // One row of the table: every place of a[i] in the window.
    method ScanRow(w: Window, i: nat, prev: seq<Length>, before: Match) returns (cur: seq<Length>, best: Match)
      requires Valid() && Fits(w, a, order) && w.begin1 <= i < w.end1
      requires Lengths(w, a, order, i - 1, prev) && Best(w, a, order, i, before)
      ensures Lengths(w, a, order, i, cur) && Best(w, a, order, i + 1, best)
    {
      hide Listing, Run, Common, Lengths, Best, Scanned;
      cur, best := [], before;
      var start := LowerBound(a[i].rowIndex);
      var it: nat := start;
      Found(b, order, a[i].rowIndex, start);
      assert start < |b| && b[start].rowIndex == a[i].rowIndex;
      ScannedNone(w, a, b, order, i, start, best);
      while it < |b| && b[it].rowIndex == a[i].rowIndex
        invariant start <= it <= |b| && Scanned(w, a, b, order, i, start, it, cur, best)
      {
        ListingAt(b, order, it);
        var j := b[it].tvIndex;
        if w.end2 <= j {
          break;
        }
        if w.begin2 <= j {
          var size := LengthAt(w, i, prev, j);
          ghost var cur0, best0 := cur, best;
          ScannedBest(w, a, b, order, i, start, it, cur, best);
          best := Better(w, i, j, size, best);
          cur := cur + [Length(j, size)];
          ScannedNext(w, a, b, order, i, start, it, cur0, best0, best);
        } else {
          ScannedSkip(w, a, b, order, i, start, it, cur, best);
        }
        it := it + 1;
      }
      ScannedDone(w, a, b, order, i, start, it, cur, best);
    }

    // The length of the block ending with a[i] and its place j: one more than that
    // of the block ending one place before.
    method LengthAt(w: Window, i: nat, prev: seq<Length>, j: nat) returns (size: nat)
      requires Fits(w, a, order) && w.begin1 <= i < w.end1 && w.begin2 <= j < w.end2 && a[i].rowIndex == order[j]
      requires Lengths(w, a, order, i - 1, prev)
      ensures size == Run(w, a, order, i, j)
    {
      var k: nat := 0;
      while k < |prev|
        invariant k <= |prev| && forall x | 0 <= x < k :: prev[x].j + 1 != j
      {
        if prev[k].j + 1 == j {
          assert prev[k] in prev;
          return prev[k].len + 1;
        }
        k := k + 1;
      }
      size := 1;
      ghost var last: nat := if j > 0 then j - 1 else 0;
      assert forall e | e in prev :: e.j + 1 != j;
      assert j > 0 && w.begin2 <= last && Run(w, a, order, i - 1, last) > 0 ==> exists e :: e in prev && e.j == last;
      assert j > 0 ==> Run(w, a, order, i - 1, last) == 0;
    }

    // A longer block is better; of equally long ones the one with fewer modified
    // rows in the two spans that are counted.
    method Better(w: Window, i: nat, j: nat, size: nat, best: Match) returns (m: Match)
      requires Valid() && Fits(w, a, order) && w.begin1 <= i < w.end1 && w.begin2 <= j < w.end2
      requires a[i].rowIndex == order[j] && size == Run(w, a, order, i, j)
      requires Common(w, a, order, best.i, best.j, best.size)
      ensures Common(w, a, order, m.i, m.j, m.size)
      ensures m.size == if size > best.size then size else best.size
    {
      hide Listing, Run, Common;
      RunCommon(w, a, order, i, j);
      m := best;
      CommonInside(w, a, order, i - size + 1, j - size + 1, size);
      if size > best.size {
        m := Match(i - size + 1, j - size + 1, size, None);
      } else if size == best.size {
        if m.modified.None? {
          var current := modified.Count(Wrapped(m.j - size + 1), m.j + 1);
          m := m.(modified := Some(current));
        }
        var count := modified.Count(Wrapped(j - size + 1), j + 1);
        if count < m.modified.value {
          m := Match(i - size + 1, j - size + 1, size, Some(count));
        }
      }
    }

    // The longest match of the window, with those of the windows before and
    // behind it around it.
    method FindLongestMatches(w: Window)
      requires Valid() && Fits(w, a, order)
      modifies this
      ensures Valid() && old(longestMatches) <= longestMatches
      ensures Chain(w, a, order, longestMatches[|old(longestMatches)|..])
      ensures Blocks(w, a, order, longestMatches[|old(longestMatches)|..])
      decreases w.end1 - w.begin1
    {
      hide Listing, Run, Common, Chain, Blocks;
      var m := FindLongestMatch(w);
      ghost var before := longestMatches;
      NoChain(w, a, order);
      if m.size == 0 {
        assert longestMatches[|before|..] == [];
        NoBlocks(w, a, order);
        return;
      }
      CommonInside(w, a, order, m.i, m.j, m.size);
      if m.i > w.begin1 && m.j > w.begin2 {
        FindLongestMatches(Window(w.begin1, m.i, w.begin2, m.j));
      } else {
        NarrowWindow(InFront(w, m), a, order);
        NoBlocks(InFront(w, m), a, order);
        assert longestMatches[|before|..] == [];
      }
      ghost var first := longestMatches[|before|..];
      longestMatches := longestMatches + [m];
      ghost var middle := longestMatches;
      if m.i + m.size < w.end2 && m.j + m.size < w.end2 {
        FindLongestMatches(Window(m.i + m.size, w.end1, m.j + m.size, w.end2));
      }
      ghost var last := longestMatches[|middle|..];
      assert longestMatches[|before|..] == first + [m] + last;
      Around(w, a, order, first, m, last);
      BlocksAround(w, a, order, first, m, last);
    }

    // The first of b that does not come before the row.
    method LowerBound(row: nat) returns (at: nat)
      requires Valid()
      ensures at <= |b| && (forall x | 0 <= x < at :: b[x].rowIndex < row)
      ensures forall x | at <= x < |b| :: row <= b[x].rowIndex
    {
      at := 0;
      var end := |b|;
      while at < end
        invariant at <= end <= |b|
        invariant forall x | 0 <= x < at :: b[x].rowIndex < row
        invariant forall x | end <= x < |b| :: row <= b[x].rowIndex
      {
        var mid := (at + end) / 2;
        if b[mid].rowIndex < row {
          at := mid + 1;
        } else {
          end := mid;
        }
      }
    }
  }
}
