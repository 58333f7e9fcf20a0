// What create writes for a type without links, stated column by column and
// without the loops and policies that write it.
module FlatCreate {
  import opened Wrappers
  import opened Store
  import opened Upsert

  ghost predicate FlatType(os: ObjectSchema) {
    forall c | 0 <= c < |os.props| :: os.props[c].kind.ScalarKind? || os.props[c].kind.ScalarListKind?
  }

  // The items a list of boxed primitives becomes.
  function Unboxed(elems: seq<Value>): (items: seq<Item>)
    ensures |items| == |elems|
    ensures forall i | 0 <= i < |elems| && elems[i].Plain? :: items[i] == Val(elems[i].s)
  {
    seq(|elems|, i requires 0 <= i < |elems| => if elems[i].Plain? then Val(elems[i].s) else Row(0))
  }

  // A cell once z has been written over it.
  function Written(p: Property, z: Value, was: Cell): Cell {
    match z
    case Null => if p.kind.ScalarListKind? then List([]) else One(None)
    case Plain(s) => One(Some(s))
    case Many(elems) => List(Unboxed(elems))
    case _ => was
  }

  // The final content of a column: the value given; else, in a new row, the
  // default; else what was there.
  function FinalCell(p: Property, v: Value, c: nat, created: bool, was: Cell): Cell
    requires v.Object?
  {
    if v.Field(c).Some? then Written(p, v.Field(c).value, was)
    else if created && p.dflt.Some? then Written(p, p.dflt.value, was)
    else was
  }

  // b is a, but for the cell of slot s.
  ghost predicate OnlyCell(a: Db, b: Db, s: Slot, cell: Cell) {
    s in a.cells && b == Db(a.rows, a.cells[s := cell])
  }

  lemma {:induction false} AppendFlat(sch: Schema, depth: nat, st: State, s: Slot, z: Value, policy: Policy, i: nat)
    requires s.t < |sch| && ListHere(sch, st.db, s) && sch[s.t].props[s.c].kind.ScalarListKind? && z.Many?
             && i <= |z.elems|
    requires s in st.db.cells && st.db.cells[s] == List(Unboxed(z.elems)[..i])
    requires AppendFrom(sch, depth, st, s, z, policy, i).out.Done?
    ensures OnlyCell(st.db, AppendFrom(sch, depth, st, s, z, policy, i).st.db, s, List(Unboxed(z.elems)))
    decreases |z.elems| - i
  {
    hide Valid, KeysDistinct, Evolves;
    if i == |z.elems| {
      assert Unboxed(z.elems)[..i] == Unboxed(z.elems);
      assert st.db.cells[s := st.db.cells[s]] == st.db.cells;
    } else {
      AppendExact(sch, depth, st, s, z.elems[i], policy);
      var step := Append(sch, depth, st, s, z.elems[i], policy);
      assert Unboxed(z.elems)[..i] + [Val(z.elems[i].s)] == Unboxed(z.elems)[..i + 1];
      AppendFlat(sch, depth, step.st, s, z, policy, i + 1);
      assert st.db.cells[s := step.st.db.cells[s]][s := List(Unboxed(z.elems))]
          == st.db.cells[s := List(Unboxed(z.elems))];
    }
  }

  // The list while UpdateModified works through it: the new items so far, then
  // what is left of the old ones.
  lemma {:induction false} InPlaceFlat(sch: Schema, depth: nat, st: State, s: Slot, z: Value, was: seq<Item>, i: nat)
    requires s.t < |sch| && ListHere(sch, st.db, s) && sch[s.t].props[s.c].kind.ScalarListKind? && z.Many?
             && i <= |z.elems|
    requires s in st.db.cells && st.db.cells[s] == List(Unboxed(z.elems)[..i] + (if i < |was| then was[i..] else []))
    requires AssignInPlace(sch, depth, st, s, z, |was|, i).out.Done?
    ensures OnlyCell(st.db, AssignInPlace(sch, depth, st, s, z, |was|, i).st.db, s, List(Unboxed(z.elems)))
    decreases |z.elems| - i
  {
    hide Valid, KeysDistinct, Evolves, Trim;
    var items := Unboxed(z.elems);
    if i == |z.elems| {
      TrimExact(sch, st, s, i, |was|);
      assert Items(st, s)[..i] == items;
    } else {
      CellOk(sch, st.db, s);
      if i < |was| {
        assert ItemFits(sch[s.t].props[s.c].kind, st.db.rows, Items(st, s)[i]);
        SetExact(sch, depth, st, s, z.elems[i], i);
      } else {
        AppendExact(sch, depth, st, s, z.elems[i], UpdateModified);
      }
      var step := if i < |was| then SetIfDifferent(sch, depth, st, s, z.elems[i], i)
                  else Append(sch, depth, st, s, z.elems[i], UpdateModified);
      assert Items(step.st, s) == items[..i + 1] + if i + 1 < |was| then was[i + 1..] else [];
      assert step.st.db == Db(st.db.rows, st.db.cells[s := step.st.db.cells[s]]);
      InPlaceFlat(sch, depth, step.st, s, z, was, i + 1);
      assert st.db.cells[s := step.st.db.cells[s]][s := List(items)] == st.db.cells[s := List(items)];
    }
  }

  // Both branches of List::assign leave exactly the new sequence.
  lemma {:induction false} AssignFlat(sch: Schema, depth: nat, st: State, s: Slot, z: Value, policy: Policy)
    requires s.t < |sch| && ListHere(sch, st.db, s) && sch[s.t].props[s.c].kind.ScalarListKind? && s in st.db.cells
    requires Assign(sch, depth, st, s.t, s.r, s.c, z, policy).out.Done?
    ensures z.Null? || z.SameList? || z.Many?
    ensures OnlyCell(st.db, Assign(sch, depth, st, s.t, s.r, s.c, z, policy).st.db, s,
            Written(sch[s.t].props[s.c], z, st.db.cells[s]))
  {
    hide Valid, KeysDistinct, AppendFrom, AssignInPlace;
    CellOk(sch, st.db, s);
    assert st.db.cells[s := st.db.cells[s]] == st.db.cells;
    if z.Many? {
      if policy == UpdateModified {
        assert Unboxed(z.elems)[..0] + Items(st, s)[0..] == Items(st, s);
        InPlaceFlat(sch, depth, st, s, z, Items(st, s), 0);
      } else {
        var st' := RemoveAll(sch, st, s);
        var none: seq<Item> := [];
        assert Unboxed(z.elems)[..0] == none;
        assert st'.db.cells[s].items == none;
        AppendFlat(sch, depth, st', s, z, policy, 0);
        assert st.db.cells[s := List([])][s := List(Unboxed(z.elems))] == st.db.cells[s := List(Unboxed(z.elems))];
      }
    }
  }

  lemma {:induction false} SetFlat(sch: Schema, depth: nat, st: State, s: Slot, z: Value, policy: Policy,
                                   isDefault: bool)
    requires s.t < |sch| && Here(sch, st.db, s.t, s.r, s.c) && s in st.db.cells
    requires sch[s.t].props[s.c].kind.ScalarKind? || sch[s.t].props[s.c].kind.ScalarListKind?
    requires SetProperty(sch, depth, st, s.t, s.r, s.c, z, policy, isDefault).out.Done?
    ensures OnlyCell(st.db, SetProperty(sch, depth, st, s.t, s.r, s.c, z, policy, isDefault).st.db, s,
                     Written(sch[s.t].props[s.c], z, st.db.cells[s]))
  {
    hide Valid, KeysDistinct, Evolves, Assign;
    SchemaValid(sch, st.db);
    assert st.db.cells[s := st.db.cells[s]] == st.db.cells;
    if sch[s.t].props[s.c].kind.ScalarListKind? {
      AssignFlat(sch, depth, st, s, z, policy);
    }
  }

  lemma {:induction false} SchemaValid(sch: Schema, db: Db)
    requires Valid(sch, db)
    ensures ValidSchema(sch) && |db.rows| == |sch|
  {
  }

  // b is a, but for the columns of row r from i on, which hold their final cells.
  ghost predicate RowWritten(sch: Schema, a: Db, b: Db, t: nat, r: nat, v: Value, created: bool, i: nat)
    requires t < |sch| && v.Object?
  {
    && b.rows == a.rows && b.cells.Keys == a.cells.Keys
    && forall s | s in a.cells ::
         b.cells[s] ==
         if s.t == t && s.r == r && i <= s.c < |sch[t].props| && sch[t].primary != Some(s.c)
         then FinalCell(sch[t].props[s.c], v, s.c, created, a.cells[s])
         else a.cells[s]
  }

  lemma {:induction false} PopulateFlat(sch: Schema, depth: nat, st: State, t: nat, r: nat, v: Value, created: bool,
                                        policy: Policy, i: nat)
    requires Valid(sch, st.db) && t < |sch| && FlatType(sch[t]) && HasRow(st.db, t, r) && v.Object?
             && i <= |sch[t].props|
    requires Populate(sch, depth, st, t, r, v, created, policy, i).out.Done?
    ensures RowWritten(sch, st.db, Populate(sch, depth, st, t, r, v, created, policy, i).st.db, t, r, v, created, i)
    decreases |sch[t].props| - i
  {
    hide Valid, KeysDistinct, FinalCell, PopulateOne, RowWritten, OnlyCell;
    if i == |sch[t].props| {
      NothingWritten(sch, st.db, t, r, v, created);
    } else {
      OneFlat(sch, depth, st, t, r, v, created, policy, i);
      var step := PopulateOne(sch, depth, st, t, r, v, created, policy, i);
      PopulateFlat(sch, depth, step.st, t, r, v, created, policy, i + 1);
      OneMore(sch, st.db, step.st.db, Populate(sch, depth, step.st, t, r, v, created, policy, i + 1).st.db, t, r, v,
          created, i);
    }
  }

  lemma {:induction false} NothingWritten(sch: Schema, db: Db, t: nat, r: nat, v: Value, created: bool)
    requires t < |sch| && v.Object?
    ensures RowWritten(sch, db, db, t, r, v, created, |sch[t].props|)
  {
  }

  lemma {:induction false} OneMore(sch: Schema, a: Db, b: Db, c: Db, t: nat, r: nat, v: Value, created: bool, i: nat)
    requires t < |sch| && v.Object? && i < |sch[t].props| && Slot(t, r, i) in a.cells
    requires OnlyCell(a, b, Slot(t, r, i), if sch[t].primary == Some(i) then a.cells[Slot(t, r, i)]
                                           else FinalCell(sch[t].props[i], v, i, created, a.cells[Slot(t, r, i)]))
    requires RowWritten(sch, b, c, t, r, v, created, i + 1)
    ensures RowWritten(sch, a, c, t, r, v, created, i)
  {
    hide FinalCell;
  }

  lemma {:induction false} OneFlat(sch: Schema, depth: nat, st: State, t: nat, r: nat, v: Value, created: bool,
                                   policy: Policy, i: nat)
    requires Valid(sch, st.db) && t < |sch| && FlatType(sch[t]) && HasRow(st.db, t, r) && v.Object?
             && i < |sch[t].props|
    requires PopulateOne(sch, depth, st, t, r, v, created, policy, i).out.Done?
    ensures var s := Slot(t, r, i);
            s in st.db.cells &&
            OnlyCell(st.db, PopulateOne(sch, depth, st, t, r, v, created, policy, i).st.db, s,
                     if sch[t].primary == Some(i) then st.db.cells[s]
                     else FinalCell(sch[t].props[i], v, i, created, st.db.cells[s]))
  {
    hide Valid, KeysDistinct, Evolves, SetProperty, Written;
    var s := Slot(t, r, i);
    CellOk(sch, st.db, s);
    assert st.db.cells[s := st.db.cells[s]] == st.db.cells;
    var p, given := sch[t].props[i], v.Field(i);
    if sch[t].primary != Some(i) {
      if given.Some? {
        SetFlat(sch, depth, st, s, given.value, policy, false);
      } else if created && p.dflt.Some? {
        SetFlat(sch, depth - 1, st, s, p.dflt.value, policy, true);
      }
    }
  }

  // create on a flat type, under any policy: which row, and every cell of
  // every table afterwards.
  lemma {:induction false} CreateFlat(sch: Schema, depth: nat, st: State, t: nat, v: Value, policy: Policy,
                                      current: Option<nat>)
    requires Valid(sch, st.db) && t < |sch| && FlatType(sch[t]) && (current.Some? ==> HasRow(st.db, t, current.value))
    requires Create(sch, depth, st, t, v, policy, current).out.Done?
    ensures v.Object? && (Keyed(sch, t) ==> KeyOf(sch[t], v).Done?)
    ensures var res := Create(sch, depth, st, t, v, policy, current);
            var found := if Keyed(sch, t) then FindFirst(sch, st.db, t, KeyOf(sch[t], v).value)
                         else if policy == UpdateModified then current else None;
            var key := if Keyed(sch, t) then KeyOf(sch[t], v).value else None;
            if found.Some? then
              && res.out.value == found.value
              && RowWritten(sch, st.db, res.st.db, t, found.value, v, false, 0)
            else
              && res.out.value == st.db.rows[t]
              && RowWritten(sch, WithRow(sch, st.db, t, key), res.st.db, t, st.db.rows[t], v, true, 0)
  {
    hide Valid, KeysDistinct, Populate, RowWritten;
    SchemaValid(sch, st.db);
    var got := GetOrCreateRow(sch, st, t, v, policy, current);
    PopulateFlat(sch, depth, got.st, t, got.out.value.row, v, got.out.value.created, policy, 0);
  }

  // ----- When create succeeds -----

  // A boxed primitive of the right type.
  predicate Fits(ty: ScalarType, z: Value) {
    z.Plain? && z.s.Type() == ty
  }

  // The property can be set to z.
  predicate FlatFits(p: Property, z: Value) {
    match p.kind
    case ScalarKind(ty) => if z.Null? then p.nullable else Fits(ty, z)
    case ScalarListKind(ty) =>
      z.Null? || z.SameList? || (z.Many? && forall i | 0 <= i < |z.elems| :: Fits(ty, z.elems[i]))
    case _ => false
  }

  // What v, or else the default in a new row, gives the column fits; a required
  // column of a new row may be left out only by an array of values.
  predicate ColumnFits(p: Property, v: Value, c: nat, created: bool)
    requires v.Object?
  {
    if v.Field(c).Some? then FlatFits(p, v.Field(c).value)
    else if !created then true
    else if p.dflt.Some? then FlatFits(p, p.dflt.value)
    else p.nullable || p.kind.ScalarListKind? || v.positional
  }

  lemma {:induction false} AppendSucceeds(sch: Schema, depth: nat, st: State, s: Slot, z: Value, policy: Policy, i: nat)
    requires s.t < |sch| && ListHere(sch, st.db, s) && sch[s.t].props[s.c].kind.ScalarListKind? && z.Many?
             && i <= |z.elems|
    ensures AppendFrom(sch, depth, st, s, z, policy, i).out.Done? <==>
              forall k | i <= k < |z.elems| :: Fits(sch[s.t].props[s.c].kind.ty, z.elems[k])
    decreases |z.elems| - i
  {
    hide Valid, KeysDistinct, Evolves;
    if i < |z.elems| {
      AppendExact(sch, depth, st, s, z.elems[i], policy);
      var step := Append(sch, depth, st, s, z.elems[i], policy);
      if step.out.Done? {
        AppendSucceeds(sch, depth, step.st, s, z, policy, i + 1);
      }
    }
  }

  lemma {:induction false} InPlaceSucceeds(sch: Schema, depth: nat, st: State, s: Slot, z: Value, sz: nat, i: nat)
    requires s.t < |sch| && ListHere(sch, st.db, s) && sch[s.t].props[s.c].kind.ScalarListKind? && z.Many?
             && i <= |z.elems|
    requires s in st.db.cells && st.db.cells[s].List? && |Items(st, s)| == if i < sz then sz else i
    ensures AssignInPlace(sch, depth, st, s, z, sz, i).out.Done? <==>
              forall k | i <= k < |z.elems| :: Fits(sch[s.t].props[s.c].kind.ty, z.elems[k])
    decreases |z.elems| - i
  {
    hide Valid, KeysDistinct, Evolves, Trim;
    CellOk(sch, st.db, s);
    if i == |z.elems| {
      TrimExact(sch, st, s, i, sz);
    } else {
      if i < sz {
        assert ItemFits(sch[s.t].props[s.c].kind, st.db.rows, Items(st, s)[i]);
        SetExact(sch, depth, st, s, z.elems[i], i);
      } else {
        AppendExact(sch, depth, st, s, z.elems[i], UpdateModified);
      }
      var step := if i < sz then SetIfDifferent(sch, depth, st, s, z.elems[i], i)
                  else Append(sch, depth, st, s, z.elems[i], UpdateModified);
      if step.out.Done? {
        InPlaceSucceeds(sch, depth, step.st, s, z, sz, i + 1);
      }
    }
  }

  lemma {:induction false} SetFlatSucceeds(sch: Schema, depth: nat, st: State, s: Slot, z: Value, policy: Policy,
                                           isDefault: bool)
    requires s.t < |sch| && Here(sch, st.db, s.t, s.r, s.c) && s in st.db.cells
    requires sch[s.t].props[s.c].kind.ScalarKind? || sch[s.t].props[s.c].kind.ScalarListKind?
    ensures SetProperty(sch, depth, st, s.t, s.r, s.c, z, policy, isDefault).out.Done? <==>
            FlatFits(sch[s.t].props[s.c], z)
  {
    hide KeysDistinct, Evolves, Assign;
    SchemaValid(sch, st.db);
    if sch[s.t].props[s.c].kind.ScalarListKind? {
      AssignSucceeds(sch, depth, st, s, z, policy);
    }
  }

  lemma {:induction false} AssignSucceeds(sch: Schema, depth: nat, st: State, s: Slot, z: Value, policy: Policy)
    requires s.t < |sch| && ListHere(sch, st.db, s) && sch[s.t].props[s.c].kind.ScalarListKind? && s in st.db.cells
    ensures Assign(sch, depth, st, s.t, s.r, s.c, z, policy).out.Done? <==> FlatFits(sch[s.t].props[s.c], z)
  {
    hide Valid, KeysDistinct, AppendFrom, AssignInPlace;
    CellOk(sch, st.db, s);
    if z.Many? {
      if policy == UpdateModified {
        InPlaceSucceeds(sch, depth, st, s, z, |Items(st, s)|, 0);
      } else {
        AppendSucceeds(sch, depth, RemoveAll(sch, st, s), s, z, policy, 0);
      }
    }
  }

  lemma {:induction false} PopulateSucceeds(sch: Schema, depth: nat, st: State, t: nat, r: nat, v: Value, created: bool,
                                            policy: Policy, i: nat)
    requires Valid(sch, st.db) && t < |sch| && FlatType(sch[t]) && HasRow(st.db, t, r) && v.Object?
             && i <= |sch[t].props| && depth > 0
    ensures Populate(sch, depth, st, t, r, v, created, policy, i).out.Done? <==>
              forall c | i <= c < |sch[t].props| && sch[t].primary != Some(c) ::
                  ColumnFits(sch[t].props[c], v, c, created)
    decreases |sch[t].props| - i
  {
    hide Valid, KeysDistinct, Evolves, PopulateOne, ColumnFits;
    if i < |sch[t].props| {
      OneSucceeds(sch, depth, st, t, r, v, created, policy, i);
      var step := PopulateOne(sch, depth, st, t, r, v, created, policy, i);
      if step.out.Done? {
        PopulateSucceeds(sch, depth, step.st, t, r, v, created, policy, i + 1);
      }
    }
  }

  lemma {:induction false} OneSucceeds(sch: Schema, depth: nat, st: State, t: nat, r: nat, v: Value, created: bool,
                                       policy: Policy, i: nat)
    requires Valid(sch, st.db) && t < |sch| && FlatType(sch[t]) && HasRow(st.db, t, r) && v.Object?
             && i < |sch[t].props| && depth > 0
    ensures PopulateOne(sch, depth, st, t, r, v, created, policy, i).out.Done? <==>
              sch[t].primary == Some(i) || ColumnFits(sch[t].props[i], v, i, created)
  {
    hide Valid, KeysDistinct, Evolves, SetProperty;
    var s := Slot(t, r, i);
    CellOk(sch, st.db, s);
    SchemaValid(sch, st.db);
    var p, given := sch[t].props[i], v.Field(i);
    if sch[t].primary != Some(i) {
      if given.Some? {
        SetFlatSucceeds(sch, depth, st, s, given.value, policy, false);
      } else if created && p.dflt.Some? {
        SetFlatSucceeds(sch, depth - 1, st, s, p.dflt.value, policy, true);
      }
    }
  }

  // create on a flat type succeeds exactly if the value is an object, its key is
  // well formed and, for ForceCreate, still free, and every column fits.
  lemma {:induction false} CreateFlatSucceeds(sch: Schema, depth: nat, st: State, t: nat, v: Value, policy: Policy,
                                              current: Option<nat>)
    requires Valid(sch, st.db) && t < |sch| && FlatType(sch[t]) && (current.Some? ==> HasRow(st.db, t, current.value))
             && depth > 0
    ensures Create(sch, depth, st, t, v, policy, current).out.Done? <==>
              && v.Object?
              && (Keyed(sch, t) ==> KeyOf(sch[t], v).Done?)
              && var found := if Keyed(sch, t) then FindFirst(sch, st.db, t, KeyOf(sch[t], v).value)
                              else if policy == UpdateModified then current else None;
                 && (Keyed(sch, t) && policy == ForceCreate ==> found.None?)
                 && forall c | 0 <= c < |sch[t].props| && sch[t].primary != Some(c) ::
                      ColumnFits(sch[t].props[c], v, c, found.None?)
  {
    hide Valid, KeysDistinct, Populate, ColumnFits;
    SchemaValid(sch, st.db);
    if v.Object? {
      var got := GetOrCreateRow(sch, st, t, v, policy, current);
      if got.out.Done? {
        PopulateSucceeds(sch, depth, got.st, t, got.out.value.row, v, got.out.value.created, policy, 0);
      }
    }
  }
}
