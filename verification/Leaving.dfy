// Which rows create leaves alone: a row is not touched if no object that the value
// supplies, or a default it draws in, can land on it.
module Leaving {
  import opened Wrappers
  import opened Store
  import opened Upsert
  import opened Occurrences

  // A row, named by its table and, in a keyed table, its key.
  datatype Owner = Owner(t: nat, key: Option<Scalar>)

  // An object of the owner's table that has another key.
  ghost predicate Elsewhere(sch: Schema, own: Owner, w: Value) {
    && own.t < |sch| && Keyed(sch, own.t) && ValidSchema(sch) && w.Object?
    && KeyOf(sch[own.t], w) != Done(own.key)
  }

  ghost predicate Clear(sch: Schema, d: nat, own: Owner, t: nat, v: Value) {
    forall w :: v.Object? && Occurs(sch, d, t, v, own.t, w) ==> Elsewhere(sch, own, w)
  }

  ghost predicate ClearIn(sch: Schema, d: nat, own: Owner, kind: Kind, z: Value) {
    forall w :: OccursIn(sch, d, kind, z, own.t, w) ==> Elsewhere(sch, own, w)
  }

  lemma {:induction false} ClearColumn(sch: Schema, d: nat, own: Owner, t: nat, v: Value, c: nat)
    requires Clear(sch, d, own, t, v) && t < |sch| && v.Object? && c < |sch[t].props| && sch[t].primary != Some(c)
    ensures v.Field(c).Some? ==> ClearIn(sch, d, own, sch[t].props[c].kind, v.Field(c).value)
    ensures v.Field(c).None? && sch[t].props[c].dflt.Some? && d > 0 ==>
              ClearIn(sch, d - 1, own, sch[t].props[c].kind, sch[t].props[c].dflt.value)
  {
    hide Elsewhere, OccursIn;
    forall w
      ensures OccursAt(sch, d, t, v, c, own.t, w) ==> Elsewhere(sch, own, w)
    {
      assert OccursAt(sch, d, t, v, c, own.t, w) ==> Occurs(sch, d, t, v, own.t, w);
    }
    var p := sch[t].props[c];
    if v.Field(c).Some? {
      forall w | OccursIn(sch, d, p.kind, v.Field(c).value, own.t, w)
        ensures Elsewhere(sch, own, w)
      {
        assert OccursAt(sch, d, t, v, c, own.t, w);
      }
    } else if p.dflt.Some? && d > 0 {
      forall w | OccursIn(sch, d - 1, p.kind, p.dflt.value, own.t, w)
        ensures Elsewhere(sch, own, w)
      {
        assert OccursAt(sch, d, t, v, c, own.t, w);
      }
    }
  }

  lemma {:induction false} ClearTarget(sch: Schema, d: nat, own: Owner, kind: Kind, z: Value)
    requires ClearIn(sch, d, own, kind, z)
    ensures kind.LinkKind? ==> Clear(sch, d, own, kind.target, z)
    ensures kind.LinkListKind? && z.Many? ==>
              forall i | 0 <= i < |z.elems| :: Clear(sch, d, own, kind.target, z.elems[i])
  {
    hide Elsewhere, Occurs;
    if kind.LinkKind? {
      forall w | z.Object? && Occurs(sch, d, kind.target, z, own.t, w)
        ensures Elsewhere(sch, own, w)
      {
        assert OccursIn(sch, d, kind, z, own.t, w);
      }
    } else if kind.LinkListKind? && z.Many? {
      forall i, w | 0 <= i < |z.elems| && z.elems[i].Object? && Occurs(sch, d, kind.target, z.elems[i], own.t, w)
        ensures Elsewhere(sch, own, w)
      {
        assert OccursElem(sch, d, kind.target, z.elems[i], own.t, w);
        assert OccursIn(sch, d, kind, z, own.t, w);
      }
    }
  }

  // ----- The row is kept -----

  ghost predicate RowKept(a: Db, b: Db, x: RowId) {
    forall s | s in a.cells && s.t == x.t && s.r == x.r :: s in b.cells && b.cells[s] == a.cells[s]
  }

  // Row x is the owner.
  ghost predicate Owns(sch: Schema, db: Db, x: RowId, own: Owner)
    requires Valid(sch, db)
  {
    && own.t == x.t && HasRow(db, x.t, x.r)
    && (Keyed(sch, x.t) ==> KeyAt(sch, db, x.t, x.r) == own.key)
  }

  lemma {:induction false} OwnsLater(sch: Schema, a: Db, b: Db, x: RowId, own: Owner)
    requires Valid(sch, a) && Owns(sch, a, x, own) && Evolves(sch, a, b)
    ensures Owns(sch, b, x, own)
  {
    if Keyed(sch, x.t) {
      KeyOk(sch, a, x.t, x.r);
      KeyOk(sch, b, x.t, x.r);
    }
  }

  // A create that is clear of the owner takes place in another row.
  lemma {:induction false} LandsElsewhere(sch: Schema, d: nat, st: State, t: nat, v: Value, policy: Policy,
                                          current: Option<nat>, x: RowId, own: Owner)
    requires Valid(sch, st.db) && t < |sch| && v.Object? && (current.Some? ==> HasRow(st.db, t, current.value))
    requires Owns(sch, st.db, x, own) && Clear(sch, d, own, t, v)
    ensures var got := GetOrCreateRow(sch, st, t, v, policy, current);
            && RowKept(st.db, got.st.db, x)
            && (got.out.Done? ==> RowId(t, got.out.value.row) != x)
  {
    hide Valid, KeysDistinct, Elsewhere, FindFirst, Clear;
    ItselfElsewhere(sch, d, own, t, v);
    if Keyed(sch, t) {
      FoundElsewhere(sch, st.db, t, v, x, own);
      var key := KeyOf(sch[t], v);
      if key.Done? && FindFirst(sch, st.db, t, key.value).None? {
        AddedElsewhere(sch, st, t, key.value, x);
      }
    } else {
      UnkeyedElsewhere(sch, own, v);
      if !(policy == UpdateModified && current.Some?) {
        AddedElsewhere(sch, st, t, None, x);
      }
    }
  }

  lemma {:induction false} ItselfElsewhere(sch: Schema, d: nat, own: Owner, t: nat, v: Value)
    requires Clear(sch, d, own, t, v) && v.Object?
    ensures t == own.t ==> Elsewhere(sch, own, v)
  {
    hide Elsewhere;
    assert t == own.t ==> Occurs(sch, d, t, v, own.t, v);
  }

  lemma {:induction false} UnkeyedElsewhere(sch: Schema, own: Owner, v: Value)
    ensures Elsewhere(sch, own, v) ==> own.t < |sch| && Keyed(sch, own.t)
  {
  }

  lemma {:induction false} FoundElsewhere(sch: Schema, db: Db, t: nat, v: Value, x: RowId, own: Owner)
    requires Valid(sch, db) && t < |sch| && Keyed(sch, t) && v.Object? && Owns(sch, db, x, own)
    requires t == own.t ==> Elsewhere(sch, own, v)
    ensures var c := sch[t].primary.value;
            && c < |sch[t].props| && sch[t].props[c].kind.ScalarKind?
            && (KeyOf(sch[t], v).Done? && FindFirst(sch, db, t, KeyOf(sch[t], v).value).Some? ==>
                  RowId(t, FindFirst(sch, db, t, KeyOf(sch[t], v).value).value) != x)
  {
    hide KeysDistinct;
  }

  lemma {:induction false} AddedElsewhere(sch: Schema, st: State, t: nat, key: Option<Scalar>, x: RowId)
    requires Valid(sch, st.db) && t < |sch| && KeyFits(sch[t], key) && HasRow(st.db, x.t, x.r)
    requires Keyed(sch, t) ==> forall r | 0 <= r < st.db.rows[t] :: KeyAt(sch, st.db, t, r) != key
    ensures RowKept(st.db, AddRow(sch, st, t, key).db, x) && RowId(t, st.db.rows[t]) != x
  {
    hide Valid, KeysDistinct, NewCells;
    forall s | s in st.db.cells
      ensures s in AddRow(sch, st, t, key).db.cells && AddRow(sch, st, t, key).db.cells[s] == st.db.cells[s]
    {
      AddRowAt(sch, st, t, key, s);
    }
  }

  lemma {:induction false} CreateLeaves(sch: Schema, depth: nat, st: State, t: nat, v: Value, policy: Policy,
                                        current: Option<nat>, x: RowId, own: Owner)
    requires Valid(sch, st.db) && t < |sch| && (current.Some? ==> HasRow(st.db, t, current.value))
    requires Owns(sch, st.db, x, own) && Clear(sch, depth, own, t, v)
    ensures RowKept(st.db, Create(sch, depth, st, t, v, policy, current).st.db, x)
    decreases depth, v, 3, 0
  {
    hide Valid, KeysDistinct, Clear, Owns, Populate;
    if v.Object? {
      LandsElsewhere(sch, depth, st, t, v, policy, current, x, own);
      var got := GetOrCreateRow(sch, st, t, v, policy, current);
      if got.out.Done? {
        OwnsLater(sch, st.db, got.st.db, x, own);
        PopulateLeaves(sch, depth, got.st, t, got.out.value.row, v, got.out.value.created, policy, 0, x, own);
      }
    }
  }

  lemma {:induction false} PopulateLeaves(sch: Schema, depth: nat, st: State, t: nat, r: nat, v: Value, created: bool,
                                          policy: Policy, i: nat, x: RowId, own: Owner)
    requires Valid(sch, st.db) && t < |sch| && HasRow(st.db, t, r) && v.Object? && i <= |sch[t].props|
    requires Owns(sch, st.db, x, own) && Clear(sch, depth, own, t, v) && RowId(t, r) != x
    ensures RowKept(st.db, Populate(sch, depth, st, t, r, v, created, policy, i).st.db, x)
    decreases depth, v, 2, |sch[t].props| - i
  {
    hide Valid, KeysDistinct, Evolves, Clear, Owns, PopulateOne;
    if i < |sch[t].props| {
      OneLeaves(sch, depth, st, t, r, v, created, policy, i, x, own);
      var step := PopulateOne(sch, depth, st, t, r, v, created, policy, i);
      if step.out.Done? {
        OwnsLater(sch, st.db, step.st.db, x, own);
        PopulateLeaves(sch, depth, step.st, t, r, v, created, policy, i + 1, x, own);
      }
    }
  }

  lemma {:induction false} OneLeaves(sch: Schema, depth: nat, st: State, t: nat, r: nat, v: Value, created: bool,
                                     policy: Policy, i: nat, x: RowId, own: Owner)
    requires Valid(sch, st.db) && t < |sch| && HasRow(st.db, t, r) && v.Object? && i < |sch[t].props|
    requires Owns(sch, st.db, x, own) && Clear(sch, depth, own, t, v) && RowId(t, r) != x
    ensures RowKept(st.db, PopulateOne(sch, depth, st, t, r, v, created, policy, i).st.db, x)
    decreases depth, v, 1, 0
  {
    hide Valid, KeysDistinct, Evolves, Clear, ClearIn, Owns, SetProperty;
    var p, given := sch[t].props[i], v.Field(i);
    if sch[t].primary != Some(i) {
      ClearColumn(sch, depth, own, t, v, i);
      if given.Some? {
        SetLeaves(sch, depth, st, Slot(t, r, i), given.value, policy, false, x, own);
      } else if p.dflt.Some? && depth > 0 {
        SetLeaves(sch, depth - 1, st, Slot(t, r, i), p.dflt.value, policy, true, x, own);
      }
    }
  }

  lemma {:induction false} SetLeaves(sch: Schema, depth: nat, st: State, s: Slot, z: Value, policy: Policy,
                                     isDefault: bool, x: RowId, own: Owner)
    requires s.t < |sch| && Here(sch, st.db, s.t, s.r, s.c) && RowId(s.t, s.r) != x
    requires Owns(sch, st.db, x, own) && ClearIn(sch, depth, own, sch[s.t].props[s.c].kind, z)
    ensures RowKept(st.db, SetProperty(sch, depth, st, s.t, s.r, s.c, z, policy, isDefault).st.db, x)
    decreases depth, z, 5, 0
  {
    hide Valid, KeysDistinct, ClearIn, Clear, Owns, Unbox, Assign;
    CellOk(sch, st.db, s);
    var p := sch[s.t].props[s.c];
    if p.nullable && z.Null? {
    } else if p.kind.LinkKind? {
      ClearTarget(sch, depth, own, p.kind, z);
      UnboxLeaves(sch, depth, st, p.kind, z, policy, st.db.cells[s].to, x, own);
    } else if p.kind.ScalarListKind? || p.kind.LinkListKind? {
      AssignLeaves(sch, depth, st, s, z, policy, x, own);
    }
  }

  lemma {:induction false} AssignLeaves(sch: Schema, depth: nat, st: State, s: Slot, z: Value, policy: Policy, x: RowId,
                                        own: Owner)
    requires s.t < |sch| && ListHere(sch, st.db, s) && RowId(s.t, s.r) != x
    requires Owns(sch, st.db, x, own) && ClearIn(sch, depth, own, sch[s.t].props[s.c].kind, z)
    ensures RowKept(st.db, Assign(sch, depth, st, s.t, s.r, s.c, z, policy).st.db, x)
    decreases depth, z, 4, 1
  {
    hide Valid, KeysDistinct, ClearIn, Clear, Owns, Unbox, AppendFrom, AssignInPlace;
    CellOk(sch, st.db, s);
    if z.Many? {
      if policy == UpdateModified {
        InPlaceLeaves(sch, depth, st, s, z, |st.db.cells[s].items|, 0, x, own);
      } else {
        OwnsLater(sch, st.db, RemoveAll(sch, st, s).db, x, own);
        AppendLeaves(sch, depth, RemoveAll(sch, st, s), s, z, policy, 0, x, own);
      }
    }
  }

  lemma {:induction false} UnboxLeaves(sch: Schema, depth: nat, st: State, kind: Kind, z: Value, policy: Policy,
                                       current: Option<nat>, x: RowId, own: Owner)
    requires Valid(sch, st.db) && (kind.HasTarget() ==> kind.target < |sch|)
    requires kind.HasTarget() || kind.ScalarListKind?
    requires kind.HasTarget() && current.Some? ==> HasRow(st.db, kind.target, current.value)
    requires Owns(sch, st.db, x, own) && (kind.HasTarget() ==> Clear(sch, depth, own, kind.target, z))
    ensures RowKept(st.db, Unbox(sch, depth, st, kind, z, policy, current).st.db, x)
    decreases depth, z, 4, 0
  {
    hide Valid, KeysDistinct, Evolves, Create, ClearIn, Clear, Owns;
    if kind.HasTarget() && !z.Managed? {
      CreateLeaves(sch, depth, st, kind.target, z, policy, current, x, own);
    }
  }

  lemma {:induction false} AppendLeaves(sch: Schema, depth: nat, st: State, s: Slot, z: Value, policy: Policy, i: nat,
                                        x: RowId, own: Owner)
    requires s.t < |sch| && ListHere(sch, st.db, s) && RowId(s.t, s.r) != x && z.Many? && i <= |z.elems|
    requires Owns(sch, st.db, x, own) && ClearIn(sch, depth, own, sch[s.t].props[s.c].kind, z)
    ensures RowKept(st.db, AppendFrom(sch, depth, st, s, z, policy, i).st.db, x)
    decreases depth, z, 2, |z.elems| - i
  {
    hide Valid, KeysDistinct, Evolves, Append, Unbox, ClearIn, Clear, Owns;
    if i < |z.elems| {
      var kind := sch[s.t].props[s.c].kind;
      CellOk(sch, st.db, s);
      ClearTarget(sch, depth, own, kind, z);
      UnboxLeaves(sch, depth, st, kind, z.elems[i], policy, None, x, own);
      AppendExact(sch, depth, st, s, z.elems[i], policy);
      var step := Append(sch, depth, st, s, z.elems[i], policy);
      if step.out.Done? {
        OwnsLater(sch, st.db, step.st.db, x, own);
        AppendLeaves(sch, depth, step.st, s, z, policy, i + 1, x, own);
      }
    }
  }

  lemma {:induction false} InPlaceLeaves(sch: Schema, depth: nat, st: State, s: Slot, z: Value, sz: nat, i: nat,
                                         x: RowId, own: Owner)
    requires s.t < |sch| && ListHere(sch, st.db, s) && RowId(s.t, s.r) != x && z.Many? && i <= |z.elems|
    requires Owns(sch, st.db, x, own) && ClearIn(sch, depth, own, sch[s.t].props[s.c].kind, z)
    ensures RowKept(st.db, AssignInPlace(sch, depth, st, s, z, sz, i).st.db, x)
    decreases depth, z, 2, |z.elems| - i
  {
    hide Valid, KeysDistinct, Evolves, Append, SetIfDifferent, Trim, Unbox, ClearIn, Clear, Owns;
    if i == |z.elems| {
      TrimLeaves(sch, st, s, i, sz, x);
    } else {
      ClearTarget(sch, depth, own, sch[s.t].props[s.c].kind, z);
      ElementLeaves(sch, depth, st, s, z.elems[i], sz, i, x, own);
      var step := if i < sz then SetIfDifferent(sch, depth, st, s, z.elems[i], i)
                  else Append(sch, depth, st, s, z.elems[i], UpdateModified);
      if step.out.Done? {
        OwnsLater(sch, st.db, step.st.db, x, own);
        InPlaceLeaves(sch, depth, step.st, s, z, sz, i + 1, x, own);
      }
    }
  }

  lemma {:induction false} ElementLeaves(sch: Schema, depth: nat, st: State, s: Slot, e: Value, sz: nat, i: nat,
                                         x: RowId, own: Owner)
    requires s.t < |sch| && ListHere(sch, st.db, s) && RowId(s.t, s.r) != x && Owns(sch, st.db, x, own)
    requires sch[s.t].props[s.c].kind.HasTarget() ==> Clear(sch, depth, own, sch[s.t].props[s.c].kind.target, e)
    ensures var step := if i < sz then SetIfDifferent(sch, depth, st, s, e, i)
                        else Append(sch, depth, st, s, e, UpdateModified);
            RowKept(st.db, step.st.db, x)
    decreases depth, e, 6, 0
  {
    hide Valid, KeysDistinct, Evolves, Unbox, Clear, ClearIn, Owns;
    var kind := sch[s.t].props[s.c].kind;
    CellOk(sch, st.db, s);
    var items := st.db.cells[s].items;
    if i >= sz {
      UnboxLeaves(sch, depth, st, kind, e, UpdateModified, None, x, own);
      AppendExact(sch, depth, st, s, e, UpdateModified);
    } else if i < |items| {
      assert ItemFits(kind, st.db.rows, items[i]);
      UnboxLeaves(sch, depth, st, kind, e, UpdateModified, CurrentRow(items[i]), x, own);
    }
  }

  lemma {:induction false} TrimLeaves(sch: Schema, st: State, s: Slot, keep: nat, sz: nat, x: RowId)
    requires s.t < |sch| && ListHere(sch, st.db, s) && RowId(s.t, s.r) != x
    ensures RowKept(st.db, Trim(sch, st, s, keep, sz).st.db, x)
    decreases sz
  {
    hide Valid, KeysDistinct, Evolves;
    if keep < sz {
      var step := RemoveAt(sch, st, s, sz - 1);
      if step.out.Done? {
        TrimLeaves(sch, step.st, s, keep, sz - 1, x);
      }
    }
  }
}
