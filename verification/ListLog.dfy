// Which writes List::assign makes in place: one for each shared position that
// differs, one for each element added or removed, and no other.
module ListLog {
  import opened Wrappers
  import opened Store
  import opened Upsert
  import opened FlatCreate

  // The list when the first i elements are in place.
  function Midway(was: seq<Item>, items: seq<Item>, i: nat): seq<Item>
    requires i <= |items|
  {
    items[..i] + if i < |was| then was[i..] else []
  }

  // The writes from position i on, each with what it overwrites: a shared
  // position is written only if it differs, further elements are appended, and
  // what is left over is taken off the end.
  function Edits(s: Slot, was: seq<Item>, items: seq<Item>, i: nat): seq<Event>
    requires i <= |items|
    decreases |items| - i
  {
    if i == |items| then
      Removals(s, Midway(was, items, i), i)
    else if i < |was| && was[i] == items[i] then
      Edits(s, was, items, i + 1)
    else
      [Wrote(s, List(Midway(was, items, i)), List(Midway(was, items, i + 1)))] + Edits(s, was, items, i + 1)
  }

  function Removals(s: Slot, items: seq<Item>, keep: nat): seq<Event>
    decreases |items|
  {
    if |items| <= keep then []
    else [Wrote(s, List(items), List(items[..|items| - 1]))] + Removals(s, items[..|items| - 1], keep)
  }

  // ----- How many -----

  // The shared positions from i on that differ.
  ghost function Differing(was: seq<Item>, items: seq<Item>, i: nat): set<int> {
    set k: int | i <= k < |was| && k < |items| && was[k] != items[k]
  }

  lemma {:induction false} RemovalsCount(s: Slot, items: seq<Item>, keep: nat)
    ensures |Removals(s, items, keep)| == if |items| <= keep then 0 else |items| - keep
    decreases |items|
  {
    if keep < |items| {
      RemovalsCount(s, items[..|items| - 1], keep);
    }
  }

  lemma {:induction false} EditsCount(s: Slot, was: seq<Item>, items: seq<Item>, i: nat)
    requires i <= |items|
    ensures |Edits(s, was, items, i)| ==
            |Differing(was, items, i)|
            + (if |was| <= |items| then |items| - (if i < |was| then |was| else i) else |was| - |items|)
    decreases |items| - i
  {
    if i == |items| {
      assert Differing(was, items, i) == {};
      RemovalsCount(s, Midway(was, items, i), i);
    } else {
      EditsCount(s, was, items, i + 1);
      if i < |was| && was[i] != items[i] {
        assert Differing(was, items, i) == Differing(was, items, i + 1) + {i};
      } else {
        assert Differing(was, items, i) == Differing(was, items, i + 1);
      }
    }
  }

  // ----- The log of assign -----

  lemma {:induction false} TrimLog(sch: Schema, st: State, s: Slot, keep: nat, sz: nat)
    requires s.t < |sch| && ListHere(sch, st.db, s) && s in st.db.cells && st.db.cells[s].List?
    requires |Items(st, s)| == if keep < sz then sz else keep
    ensures Trim(sch, st, s, keep, sz).st.log == st.log + Removals(s, Items(st, s), keep)
    decreases sz
  {
    hide Valid, KeysDistinct, Evolves;
    if keep < sz {
      var items := Items(st, s);
      assert items[..sz - 1] + items[sz..] == items[..sz - 1];
      RemoveAtExact(sch, st, s, sz - 1);
      RemoveAtLog(sch, st, s, sz - 1);
      var step := RemoveAt(sch, st, s, sz - 1);
      assert Items(step.st, s) == items[..sz - 1];
      TrimLog(sch, step.st, s, keep, sz - 1);
      assert Removals(s, items, keep) ==
             [Wrote(s, List(items), List(items[..sz - 1]))] + Removals(s, items[..sz - 1], keep);
    }
  }

  lemma {:induction false} RemoveAtLog(sch: Schema, st: State, s: Slot, i: nat)
    requires ListHere(sch, st.db, s) && s in st.db.cells && st.db.cells[s].List? && i < |Items(st, s)|
    ensures RemoveAt(sch, st, s, i).st.log ==
            st.log + [Wrote(s, List(Items(st, s)), List(Items(st, s)[..i] + Items(st, s)[i + 1..]))]
  {
  }

  lemma {:induction false} InPlaceLog(sch: Schema, depth: nat, st: State, s: Slot, z: Value, was: seq<Item>, i: nat)
    requires s.t < |sch| && ListHere(sch, st.db, s) && sch[s.t].props[s.c].kind.ScalarListKind? && z.Many?
             && i <= |z.elems|
    requires s in st.db.cells && st.db.cells[s] == List(Midway(was, Unboxed(z.elems), i))
    requires AssignInPlace(sch, depth, st, s, z, |was|, i).out.Done?
    ensures AssignInPlace(sch, depth, st, s, z, |was|, i).st.log == st.log + Edits(s, was, Unboxed(z.elems), i)
    decreases |z.elems| - i
  {
    hide Valid, KeysDistinct, Evolves, Trim;
    var items := Unboxed(z.elems);
    if i == |z.elems| {
      TrimLog(sch, st, s, i, |was|);
    } else {
      CellOk(sch, st.db, s);
      if i < |was| {
        assert ItemFits(sch[s.t].props[s.c].kind, st.db.rows, Items(st, s)[i]);
        SetExact(sch, depth, st, s, z.elems[i], i);
      } else {
        AppendExact(sch, depth, st, s, z.elems[i], UpdateModified);
      }
      var step := if i < |was| then SetIfDifferent(sch, depth, st, s, z.elems[i], i)
                  else Append(sch, depth, st, s, z.elems[i], UpdateModified);
      MidwayNext(was, items, i);
      assert Items(step.st, s) == Midway(was, items, i + 1);
      InPlaceLog(sch, depth, step.st, s, z, was, i + 1);
    }
  }

  lemma {:induction false} MidwayNext(was: seq<Item>, items: seq<Item>, i: nat)
    requires i < |items|
    ensures i < |was| ==> Midway(was, items, i)[i] == was[i] && Midway(was, items, i + 1) == Midway(was, items,
            i)[i := items[i]]
    ensures |was| <= i ==> Midway(was, items, i + 1) == Midway(was, items, i) + [items[i]]
  {
  }

  // Assigning a list of primitives under UpdateModified adds exactly these
  // writes to the log, in this order: one for every shared position that
  // differs, and one for every element added or removed.
  lemma {:induction false} AssignWritesWhatDiffers(sch: Schema, depth: nat, st: State, s: Slot, z: Value)
    requires s.t < |sch| && ListHere(sch, st.db, s) && sch[s.t].props[s.c].kind.ScalarListKind? && z.Many?
    requires s in st.db.cells && st.db.cells[s].List?
    requires Assign(sch, depth, st, s.t, s.r, s.c, z, UpdateModified).out.Done?
    ensures var was, items := Items(st, s), Unboxed(z.elems);
            var log := Assign(sch, depth, st, s.t, s.r, s.c, z, UpdateModified).st.log;
            && log == st.log + Edits(s, was, items, 0)
            && |log| - |st.log| ==
               |Differing(was, items, 0)| + (if |was| <= |items| then |items| - |was| else |was| - |items|)
  {
    hide Valid, KeysDistinct, AssignInPlace;
    var was := Items(st, s);
    assert Midway(was, Unboxed(z.elems), 0) == was;
    InPlaceLog(sch, depth, st, s, z, was, 0);
    EditsCount(s, was, Unboxed(z.elems), 0);
  }
}
