// add_shifted_by: which indices are added, and in which order the ranges of the
// result are built.
module ShiftedAdd {
  import opened Ranges
  import opened RangeEdits
  import opened Chunks
  import opened ChunkedVector
  import opened IndexMerge
  import opened Builders

  // ----- The indices that are added -----

  // A value outside gaps is counted among the indices outside gaps, and that
  // count is taken among the indices outside rs.
  function Target(rs: seq<Range>, gaps: seq<Range>, x: int): int {
    Shifted(rs, Unshifted(gaps, x))
  }

  ghost function Targets(rs: seq<Range>, gaps: seq<Range>, values: seq<nat>): (xs: seq<int>)
    ensures |xs| <= |values|
  {
    if values == [] then []
    else
      var x := values[|values| - 1];
      Targets(rs, gaps, values[..|values| - 1]) + if Has(gaps, x) then [] else [Target(rs, gaps, x)]
  }

  // An index outside rs is added exactly if the value it came from is there.
  ghost predicate ShiftedInto(rs: seq<Range>, gaps: seq<Range>, values: seq<Range>, y: int) {
    y >= 0 && !Has(rs, y) && Has(values, Target(gaps, rs, y))
  }

  lemma {:induction false} TargetsIn(rs: seq<Range>, gaps: seq<Range>, values: seq<nat>, y: int)
    ensures y in Targets(rs, gaps, values) <==> exists x :: x in values && !Has(gaps, x) && Target(rs, gaps, x) == y
  {
    hide Has, Target;
    if values != [] {
      var init, x := values[..|values| - 1], values[|values| - 1];
      TargetsIn(rs, gaps, init, y);
      assert values == init + [x];
      assert forall z :: z in values <==> z in init || z == x;
    }
  }

  lemma {:induction false} TargetsMeaning(rs: seq<Range>, gaps: seq<Range>, values: seq<Range>, y: int)
    requires Sorted(rs) && Sorted(gaps) && Sorted(values)
    ensures y in Targets(rs, gaps, Indices(values)) <==> ShiftedInto(rs, gaps, values, y)
  {
    hide Has, Sorted, Shifted, CountIn, Indices;
    IndicesExact(values);
    TargetsIn(rs, gaps, Indices(values), y);
    if y in Targets(rs, gaps, Indices(values)) {
      var x :| x in Indices(values) && !Has(gaps, x) && Target(rs, gaps, x) == y;
      UnshiftMonotone(gaps, 0, x);
      ShiftExact(rs, Unshifted(gaps, x));
      ShiftInverse(gaps, x);
    }
    if ShiftedInto(rs, gaps, values, y) {
      UnshiftMonotone(rs, 0, y);
      ShiftExact(gaps, Unshifted(rs, y));
      ShiftInverse(rs, y);
      var x: nat := Target(gaps, rs, y);
      assert x in Indices(values) && !Has(gaps, x) && Target(rs, gaps, x) == y;
    }
  }

  // The ranges after adding all of xs, computed from the input alone.
  function AddAll(rs: seq<Range>, xs: seq<int>): seq<Range> {
    if xs == [] then rs
    else
      var before := AddAll(rs, xs[..|xs| - 1]);
      var x := xs[|xs| - 1];
      if x < 0 then before else Add(before, x, PlaceFor(before, x, 0)).rs
  }

  function PlaceFor(rs: seq<Range>, x: nat, from: nat): (p: nat)
    requires from <= |rs|
    ensures from <= p <= |rs|
    decreases |rs| - from
  {
    if from == |rs| || x < rs[from].second then from else PlaceFor(rs, x, from + 1)
  }

  lemma {:induction false} PlaceForFirst(rs: seq<Range>, x: nat, from: nat)
    requires from <= |rs| && forall k | 0 <= k < from :: rs[k].second <= x
    ensures FirstAfter(rs, x, PlaceFor(rs, x, from))
    decreases |rs| - from
  {
    if from < |rs| && x >= rs[from].second {
      PlaceForFirst(rs, x, from + 1);
    }
  }

  lemma {:induction false} AddAllOk(rs: seq<Range>, xs: seq<int>)
    requires Sorted(rs) && forall i | 0 <= i < |xs| :: xs[i] >= 0
    ensures Sorted(AddAll(rs, xs))
    ensures forall y: int :: Has(AddAll(rs, xs), y) <==> Has(rs, y) || y in xs
  {
    hide Has, Sorted, FirstAfter;
    if xs != [] {
      var init, x := xs[..|xs| - 1], xs[|xs| - 1];
      AddAllOk(rs, init);
      var before := AddAll(rs, init);
      PlaceForFirst(before, x, 0);
      AddSorted(before, x, PlaceFor(before, x, 0));
      assert xs == init + [x];
      forall y: int
        ensures Has(AddAll(rs, xs), y) <==> Has(rs, y) || y in xs
      {
        AddHas(before, x, PlaceFor(before, x, 0), y);
        assert y in xs <==> y in init || y == x;
      }
    }
  }

  // Adding the targets adds exactly the indices that come from a value.
  lemma {:induction false} TargetsAdded(rs: seq<Range>, gaps: seq<Range>, values: seq<Range>)
    requires Sorted(rs) && Sorted(gaps) && Sorted(values)
    ensures var out := AddAll(rs, Targets(rs, gaps, Indices(values)));
            && Sorted(out)
            && forall y: int :: Has(out, y) <==> Has(rs, y) || ShiftedInto(rs, gaps, values, y)
  {
    hide Has, Sorted, Targets, Indices, AddAll, ShiftedInto;
    var xs := Targets(rs, gaps, Indices(values));
    forall y: int
      ensures y in xs <==> ShiftedInto(rs, gaps, values, y)
      ensures y in xs ==> y >= 0
    {
      TargetsMeaning(rs, gaps, values, y);
      if ShiftedInto(rs, gaps, values, y) {
        IntoIsNat(rs, gaps, values, y);
      }
    }
    assert forall i | 0 <= i < |xs| :: xs[i] in xs;
    AddAllOk(rs, xs);
  }

  lemma {:induction false} IntoIsNat(rs: seq<Range>, gaps: seq<Range>, values: seq<Range>, y: int)
    requires ShiftedInto(rs, gaps, values, y)
    ensures y >= 0
  {
  }

  // The counts of the chunks go wrong exactly if a range that was there before,
  // longer than one and behind all added indices, comes to start a chunk beyond
  // the reserved ones.
  ghost predicate Overruns(rs: seq<Range>, out: seq<Range>, last: int) {
    exists q: nat :: StartsLate(rs, out, last, q)
  }

  ghost predicate StartsLate(rs: seq<Range>, out: seq<Range>, last: int, q: nat) {
    && |rs| / MAX_SIZE + 1 <= q && q * MAX_SIZE < |out|
    && out[q * MAX_SIZE].first > last && Length(out[q * MAX_SIZE]) != 1
  }

  // The largest index added, if any.
  function Last(xs: seq<int>): int {
    if xs == [] then -1 else xs[|xs| - 1]
  }

  // ----- The walk over the ranges of rs -----

  // The first p ranges begin at or below k shifted by the ranges before them.
  ghost predicate Below(rs: seq<Range>, p: nat, k: int)
    requires p <= |rs|
  {
    forall j | 0 <= j < p :: rs[j].first <= k + Total(rs[..j])
  }

  lemma {:induction false} BelowShift(rs: seq<Range>, p: nat, k: int)
    requires p <= |rs| && Below(rs, p, k)
    ensures Shifted(rs, k) == Shifted(rs[p..], k + Total(rs[..p]))
    decreases p
  {
    hide Total;
    if p == 0 {
      assert rs[0..] == rs;
      assert rs[..0] == [];
      TotalNone();
    } else {
      BelowShift(rs, p - 1, k);
      TotalTake(rs, p - 1, p);
      assert rs[p - 1..p] == [rs[p - 1]];
      TotalOne(rs[p - 1]);
      assert rs[p - 1..][1..] == rs[p..];
    }
  }

  lemma {:induction false} TotalNone()
    ensures Total([]) == 0
  {
  }

  lemma {:induction false} BelowNext(rs: seq<Range>, p: nat, k: int)
    requires p < |rs| && Below(rs, p, k) && rs[p].first <= k + Total(rs[..p])
    ensures Below(rs, p + 1, k)
    ensures Total(rs[..p + 1]) == Total(rs[..p]) + Length(rs[p])
  {
    hide Total;
    TotalTake(rs, p, p + 1);
    assert rs[p..p + 1] == [rs[p]];
    TotalOne(rs[p]);
  }

  // ----- The state of the walk between two values -----

  // done values have been passed, p ranges of rs and q ranges of gaps. Everything
  // built so far ends by the next index that can be pushed.
  ghost predicate Walking(rs: seq<Range>, gaps: seq<Range>, done: seq<nat>, rest: seq<nat>, p: nat, q: nat,
                          built: seq<Range>) {
    && p <= |rs| && q <= |gaps| && Sorted(built)
    && (forall i, j | 0 <= i < |done| && 0 <= j < |rest| :: done[i] < rest[j])
    && (forall j, k | 0 <= j < q && 0 <= k < |rest| :: gaps[j].first <= rest[k])
    && (forall y: int :: Has(built, y) <==> Has(rs[..p], y) || y in Targets(rs, gaps, done))
    && (built != [] ==> built[|built| - 1].second == Last(Targets(rs, gaps, done)) + 1)
    && (built != [] && p < |rs| ==> built[|built| - 1].second <= rs[p].first)
    && (built == [] ==> p == 0 && Targets(rs, gaps, done) == [])
    && (built != [] ==> exists x :: x in done && !Has(gaps, x) && Below(rs, p, Unshifted(gaps, x))
                                    && Last(Targets(rs, gaps, done)) == Unshifted(gaps, x) + Total(rs[..p]))
  }

  lemma {:induction false} WalkStart(rs: seq<Range>, gaps: seq<Range>, values: seq<nat>)
    ensures Walking(rs, gaps, [], values, 0, 0, [])
  {
    hide Total;
    forall y: int
      ensures !Has([], y)
    {
      NoneHas(y);
    }
    assert rs[..0] == [];
  }

  // All ranges of gaps that begin by the index have been passed.
  lemma {:induction false} GapsPassed(gaps: seq<Range>, index: nat, q: nat)
    requires Sorted(gaps) && q <= |gaps| && (forall j | 0 <= j < q :: gaps[j].first <= index)
    requires q < |gaps| ==> index < gaps[q].first
    ensures Has(gaps, index) <==> q > 0 && index < gaps[q - 1].second
    ensures !Has(gaps, index) ==> Unshifted(gaps, index) == index - Total(gaps[..q]) >= 0
  {
    hide Total, CountIn;
    if q > 0 && index < gaps[q - 1].second {
    } else {
      forall j | 0 <= j < q
        ensures gaps[j].second <= index
      {
        OrderedEnds(gaps, j, q - 1);
      }
      FirstAfterHas(gaps, index, q);
      UnshiftSkip(gaps, index, q);
      UnshiftMonotone(gaps, 0, index);
    }
  }

  lemma {:induction false} TargetsNext(rs: seq<Range>, gaps: seq<Range>, done: seq<nat>, x: nat)
    ensures Targets(rs, gaps, done + [x]) == Targets(rs, gaps, done) + if Has(gaps, x) then []
            else [Target(rs, gaps, x)]
  {
    hide Has, Target;
    assert (done + [x])[..|done|] == done;
  }

  // A value that lies in gaps adds nothing.
  lemma {:induction false} WalkSkip(rs: seq<Range>, gaps: seq<Range>, done: seq<nat>, rest: seq<nat>, p: nat, q: nat,
                                    q': nat, built: seq<Range>)
    requires Walking(rs, gaps, done, rest, p, q, built) && rest != [] && Has(gaps, rest[0]) && q' <= |gaps|
    requires forall i, j | 0 <= i < j < |rest| :: rest[i] < rest[j]
    requires forall j | 0 <= j < q' :: gaps[j].first <= rest[0]
    ensures Walking(rs, gaps, done + [rest[0]], rest[1..], p, q', built)
  {
    hide Has, Sorted, Total, CountIn;
    TargetsNext(rs, gaps, done, rest[0]);
    if built != [] {
      var x :| x in done && !Has(gaps, x) && Below(rs, p, Unshifted(gaps, x))
               && Last(Targets(rs, gaps, done)) == Unshifted(gaps, x) + Total(rs[..p]);
      assert x in done + [rest[0]];
    }
  }

  // While ranges of rs are passed on the way to the target of a value.
  ghost predicate Passing(rs: seq<Range>, xs: seq<int>, p: nat, k: int, built: seq<Range>) {
    && p <= |rs| && Sorted(built) && Below(rs, p, k)
    && (forall y: int :: Has(built, y) <==> Has(rs[..p], y) || y in xs)
    && (built != [] ==> built[|built| - 1].second <= k + Total(rs[..p]))
    && (built != [] && p < |rs| ==> built[|built| - 1].second <= rs[p].first)
  }

  lemma {:induction false} OldStart(rs: seq<Range>, gaps: seq<Range>, done: seq<nat>, rest: seq<nat>, p: nat, q: nat,
                                    built: seq<Range>)
    requires Sorted(gaps) && Walking(rs, gaps, done, rest, p, q, built) && rest != [] && !Has(gaps, rest[0])
    ensures Passing(rs, Targets(rs, gaps, done), p, Unshifted(gaps, rest[0]), built)
  {
    hide Has, Sorted, Total, CountIn;
    if built != [] {
      var x :| x in done && !Has(gaps, x) && Below(rs, p, Unshifted(gaps, x))
               && Last(Targets(rs, gaps, done)) == Unshifted(gaps, x) + Total(rs[..p]);
      UnshiftMonotone(gaps, x, rest[0]);
    } else {
      assert rs[..0] == [];
    }
  }

  lemma {:induction false} OldNext(rs: seq<Range>, xs: seq<int>, p: nat, k: int, built: seq<Range>, built': seq<Range>)
    requires Sorted(rs) && Passing(rs, xs, p, k, built) && p < |rs| && rs[p].first <= k + Total(rs[..p])
    requires Sorted(built') && built' != [] && built'[|built'| - 1].second == rs[p].second
    requires forall y: int :: Has(built', y) <==> Has(built, y) || rs[p].first <= y < rs[p].second
    ensures Passing(rs, xs, p + 1, k, built')
    ensures Total(rs[..p + 1]) == Total(rs[..p]) + Length(rs[p])
  {
    hide Has, Sorted, Total;
    BelowNext(rs, p, k);
    SortedFacts(rs);
    assert rs[..p + 1] == rs[..p] + [rs[p]];
    forall y: int
      ensures Has(built', y) <==> Has(rs[..p + 1], y) || y in xs
    {
      HasSplit(rs[..p], [rs[p]], y);
      HasOne(rs[p], y);
    }
  }

  // The target of the value comes before all ranges not passed yet.
  lemma {:induction false} OldPassed(rs: seq<Range>, gaps: seq<Range>, xs: seq<int>, p: nat, x: nat, built: seq<Range>)
    requires Passing(rs, xs, p, Unshifted(gaps, x), built)
    requires p < |rs| ==> Unshifted(gaps, x) + Total(rs[..p]) < rs[p].first
    requires Sorted(rs) && Unshifted(gaps, x) >= 0
    ensures Target(rs, gaps, x) == Unshifted(gaps, x) + Total(rs[..p]) >= 0
  {
    hide Has, Sorted, Total, CountIn;
    ShiftExact(rs, Unshifted(gaps, x));
    BelowShift(rs, p, Unshifted(gaps, x));
  }

  lemma {:induction false} WalkNext(rs: seq<Range>, gaps: seq<Range>, done: seq<nat>, rest: seq<nat>, p: nat, q: nat,
                                    built: seq<Range>, built': seq<Range>)
    requires Sorted(rs) && rest != [] && !Has(gaps, rest[0]) && q <= |gaps| && Unshifted(gaps, rest[0]) >= 0
    requires Passing(rs, Targets(rs, gaps, done), p, Unshifted(gaps, rest[0]), built)
    requires p < |rs| ==> Unshifted(gaps, rest[0]) + Total(rs[..p]) < rs[p].first
    requires forall i, j | 0 <= i < |done| && 0 <= j < |rest| :: done[i] < rest[j]
    requires forall i, j | 0 <= i < j < |rest| :: rest[i] < rest[j]
    requires forall j | 0 <= j < q :: gaps[j].first <= rest[0]
    requires Sorted(built') && built' != [] && built'[|built'| - 1].second == Target(rs, gaps, rest[0]) + 1
    requires forall y: int :: Has(built', y) <==> Has(built, y) || y == Target(rs, gaps, rest[0])
    ensures Walking(rs, gaps, done + [rest[0]], rest[1..], p, q, built')
  {
    hide Has, Sorted, Total, CountIn, Shifted;
    var x := rest[0];
    TargetsNext(rs, gaps, done, x);
    OldPassed(rs, gaps, Targets(rs, gaps, done), p, x, built);
    assert x in done + [x];
  }

  // ----- The ranges that are left are copied as they are -----

  ghost predicate Copying(rs: seq<Range>, xs: seq<int>, p: nat, built: seq<Range>) {
    && p <= |rs| && Sorted(built)
    && (forall y: int :: Has(built, y) <==> Has(rs[..p], y) || y in xs)
    && (p < |rs| ==> Last(xs) < rs[p].first)
    && (built != [] && p < |rs| ==>
          && built[|built| - 1].second <= rs[p].first
          && (built[|built| - 1].second == rs[p].first ==> built[|built| - 1].first <= Last(xs)))
  }

  lemma {:induction false} CopyStart(rs: seq<Range>, gaps: seq<Range>, done: seq<nat>, p: nat, q: nat,
                                     built: seq<Range>)
    requires Walking(rs, gaps, done, [], p, q, built)
    ensures Copying(rs, Targets(rs, gaps, done), p, built)
    ensures !Overruns(rs, built, Last(Targets(rs, gaps, done)))
  {
    hide Has, Total, CountIn;
    var last := Last(Targets(rs, gaps, done));
    forall q: nat
      ensures !StartsLate(rs, built, last, q)
    {
      if q * MAX_SIZE < |built| {
        OrderedEnds(built, q * MAX_SIZE, |built| - 1);
        SortedFacts(built);
      }
    }
  }

  // What copying the next range does to the ranges built, and to the places at
  // which a chunk may start.
  lemma {:induction false} CopyNext(rs: seq<Range>, xs: seq<int>, p: nat, built: seq<Range>)
    requires Sorted(rs) && Copying(rs, xs, p, built) && p < |rs|
    ensures Copying(rs, xs, p + 1, Pushed(built, rs[p]))
    ensures Overruns(rs, Pushed(built, rs[p]), Last(xs)) <==>
              || Overruns(rs, built, Last(xs))
              || (built != [] && |built| % MAX_SIZE == 0 && |rs| / MAX_SIZE + 1 <= |built| / MAX_SIZE
                  && built[|built| - 1].second != rs[p].first && Length(rs[p]) != 1)
  {
    hide Has, Sorted, Overruns;
    SortedFacts(rs);
    PushedRange(built, rs[p]);
    assert rs[..p + 1] == rs[..p] + [rs[p]];
    forall y: int
      ensures Has(Pushed(built, rs[p]), y) <==> Has(rs[..p + 1], y) || y in xs
    {
      PushedRangeHas(built, rs[p], y);
      HasSplit(rs[..p], [rs[p]], y);
      HasOne(rs[p], y);
    }
    CopyStarts(rs, Last(xs), p, built);
  }

  lemma {:induction false} PushedRange(rs: seq<Range>, r: Range)
    requires Sorted(rs) && r.first < r.second && (rs != [] ==> rs[|rs| - 1].second <= r.first)
    ensures var out := Pushed(rs, r); Sorted(out) && out != [] && out[|out| - 1].second == r.second
  {
    hide Sorted;
    SortedFacts(rs);
    if rs != [] && rs[|rs| - 1].second == r.first {
      var n := |rs| - 1;
      Cut(rs, n, n + 1, Range(rs[n].first, r.second));
      assert Pushed(rs, r) == rs[..n] + [Range(rs[n].first, r.second)] + rs[n + 1..];
    } else {
      Cut(rs, |rs|, |rs|, r);
      assert Pushed(rs, r) == rs[..|rs|] + [r] + rs[|rs|..];
    }
  }

  lemma {:induction false} PushedRangeHas(rs: seq<Range>, r: Range, y: int)
    requires Sorted(rs) && r.first < r.second && (rs != [] ==> rs[|rs| - 1].second <= r.first)
    ensures Has(Pushed(rs, r), y) <==> Has(rs, y) || r.first <= y < r.second
  {
    hide Has, Sorted;
    SortedFacts(rs);
    if rs != [] && rs[|rs| - 1].second == r.first {
      var n := |rs| - 1;
      Replaced(rs, n, Range(rs[n].first, r.second), y);
      assert rs[n + 1..] == [];
      NoneHas(y);
    } else {
      HasSplit(rs, [r], y);
      HasOne(r, y);
    }
  }

  lemma {:induction false} CopyStarts(rs: seq<Range>, last: int, p: nat, built: seq<Range>)
    requires p < |rs| && last < rs[p].first
    requires built != [] && built[|built| - 1].second == rs[p].first ==> built[|built| - 1].first <= last
    ensures Overruns(rs, Pushed(built, rs[p]), last) <==>
              || Overruns(rs, built, last)
              || (built != [] && |built| % MAX_SIZE == 0 && |rs| / MAX_SIZE + 1 <= |built| / MAX_SIZE
                  && built[|built| - 1].second != rs[p].first && Length(rs[p]) != 1)
  {
    var out := Pushed(built, rs[p]);
    var here := |built| / MAX_SIZE;
    assert |built| % MAX_SIZE == 0 ==> here * MAX_SIZE == |built|;
    if built != [] && built[|built| - 1].second == rs[p].first {
      forall q: nat
        ensures StartsLate(rs, out, last, q) <==> StartsLate(rs, built, last, q)
      {
      }
    } else {
      forall q: nat
        ensures StartsLate(rs, out, last, q) <==>
                  StartsLate(rs, built, last, q) || (q * MAX_SIZE == |built| && |rs| / MAX_SIZE + 1 <= q
                      && Length(rs[p]) != 1)
      {
      }
      if |built| % MAX_SIZE == 0 && |rs| / MAX_SIZE + 1 <= here && Length(rs[p]) != 1 {
        assert StartsLate(rs, out, last, here);
      }
    }
  }

  lemma {:induction false} CopyDone(rs: seq<Range>, gaps: seq<Range>, values: seq<Range>, built: seq<Range>)
    requires Sorted(rs) && Sorted(gaps) && Sorted(values)
             && Copying(rs, Targets(rs, gaps, Indices(values)), |rs|, built)
    ensures built == AddAll(rs, Targets(rs, gaps, Indices(values)))
  {
    hide Has, Sorted, Targets, Indices;
    var xs := Targets(rs, gaps, Indices(values));
    forall i | 0 <= i < |xs|
      ensures xs[i] >= 0
    {
      TargetsMeaning(rs, gaps, values, xs[i]);
    }
    AddAllOk(rs, xs);
    assert rs[..|rs|] == rs;
    SortedUnique(built, AddAll(rs, xs));
  }

  lemma {:induction false} NothingOverruns(rs: seq<Range>, last: int)
    ensures !Overruns(rs, rs, last)
  {
  }

  lemma {:induction false} NothingAdded(rs: seq<Range>, gaps: seq<Range>)
    ensures Targets(rs, gaps, Indices([])) == [] && AddAll(rs, []) == rs
  {
  }

  // ----- A set on which the counts go wrong -----

  // n single indices, two apart.
  ghost function Spread(n: nat): seq<Range> {
    seq(n, i requires 0 <= i < n => Range(2 * i, 2 * i + 1))
  }

  ghost function Evens(n: nat): seq<nat> {
    seq(n, i requires 0 <= i < n => 2 * i)
  }

  const LONG: Range := Range(1000, 1010)

  lemma {:induction false} SpreadIndices(n: nat)
    ensures Indices(Spread(n)) == Evens(n)
  {
    if n > 0 {
      SpreadIndices(n - 1);
      var last := Range(2 * (n - 1), 2 * (n - 1) + 1);
      assert Spread(n) == Spread(n - 1) + [last];
      IndicesConcat(Spread(n - 1), [last]);
      assert Indices([last][1..]) == [];
      assert Run(last.first, last.second) == [last.first];
      assert Indices([last]) == [last.first];
    }
  }

  lemma {:induction false} SpreadTargets(n: nat)
    requires n <= 500
    ensures Targets([LONG], [], Evens(n)) == Evens(n)
  {
    if n > 0 {
      SpreadTargets(n - 1);
      var x := 2 * (n - 1);
      assert Evens(n)[..n - 1] == Evens(n - 1);
      assert Evens(n) == Evens(n - 1) + [x];
      NoneHas(x);
      assert Shifted([LONG], Unshifted([], x)) == x;
    }
  }

  lemma {:induction false} SpreadHas(n: nat, y: int)
    ensures Has(Spread(n), y) <==> y >= 0 && y in Evens(n)
  {
    if 0 <= y < 2 * n && y % 2 == 0 {
      assert Spread(n)[y / 2].first <= y < Spread(n)[y / 2].second;
      assert Evens(n)[y / 2] == y;
    }
  }

  lemma {:induction false} SpreadSorted(out: seq<Range>)
    requires out == Spread(256) + [LONG]
    ensures Sorted(out) && Sorted(Spread(256)) && Sorted([LONG]) && out[256] == LONG && |out| == 257
  {
  }

  // A set of one long range, to which 256 separate indices below it are added:
  // the long range opens the second chunk, whose count is 1 instead of 10.
  lemma {:induction false} OverrunExample()
    ensures Sorted([LONG]) && Sorted(Spread(256))
    ensures var xs := Targets([LONG], [], Indices(Spread(256)));
            && AddAll([LONG], xs) == Spread(256) + [LONG]
            && Overruns([LONG], AddAll([LONG], xs), Last(xs))
  {
    hide Has, Sorted, AddAll, Spread, Targets;
    var xs := Evens(256);
    SpreadIndices(256);
    SpreadTargets(256);
    var out := Spread(256) + [LONG];
    SpreadSorted(out);
    AddAllOk([LONG], xs);
    forall y: int
      ensures Has(AddAll([LONG], xs), y) <==> Has(out, y)
    {
      HasSplit(Spread(256), [LONG], y);
      SpreadHas(256, y);
    }
    SortedUnique(AddAll([LONG], xs), out);
    assert out[256] == LONG;
    assert StartsLate([LONG], out, Last(xs), 1);
  }
}
