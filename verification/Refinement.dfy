// UpdateModified refines UpdateAll: run side by side on the same tables, both
// policies end with the same tables and the same outcome, and every write that
// UpdateModified makes changes what it overwrites. This holds when every
// linked type has a primary key and no object's key recurs inside the
// object's own subtree; SelfNestingDiffers shows that the last condition is needed.
module Refinement {
  import opened Wrappers
  import opened Store
  import opened Upsert

  type Key = (nat, Option<Scalar>)

  ghost predicate LinkedTypesKeyed(sch: Schema) {
    && ValidSchema(sch)
    && forall t, c | 0 <= t < |sch| && 0 <= c < |sch[t].props| && sch[t].props[c].kind.HasTarget() ::
      sch[t].props[c].kind.target < |sch| && Keyed(sch, sch[t].props[c].kind.target)
  }

  // The keys of the objects around a value, extended by the value's own key.
  ghost function Within(sch: Schema, t: nat, v: Value, ks: set<Key>): set<Key>
    requires ValidSchema(sch) && t < |sch| && v.Object?
  {
    if Keyed(sch, t) && KeyOf(sch[t], v).Done? then ks + {(t, KeyOf(sch[t], v).value)} else ks
  }

  // No object in the subtree of v, default values included, has one of the
  // keys ks or the key of an object that encloses it.
  ghost predicate Unnested(sch: Schema, depth: nat, t: nat, v: Value, ks: set<Key>)
    requires ValidSchema(sch) && t < |sch|
    decreases depth, v, 1
  {
    v.Object? ==>
      && (Keyed(sch, t) && KeyOf(sch[t], v).Done? ==> (t, KeyOf(sch[t], v).value) !in ks)
      && forall c | 0 <= c < |sch[t].props| && sch[t].primary != Some(c) ::
           UnnestedAt(sch, depth, t, v, c, Within(sch, t, v, ks))
  }

  ghost predicate UnnestedAt(sch: Schema, depth: nat, t: nat, v: Value, c: nat, ks: set<Key>)
    requires ValidSchema(sch) && t < |sch| && v.Object? && c < |sch[t].props|
    decreases depth, v, 0
  {
    var p := sch[t].props[c];
    if v.Field(c).Some? then UnnestedIn(sch, depth, p.kind, v.Field(c).value, ks)
    else p.dflt.Some? && depth > 0 ==> UnnestedIn(sch, depth - 1, p.kind, p.dflt.value, ks)
  }

  ghost predicate UnnestedIn(sch: Schema, depth: nat, kind: Kind, v: Value, ks: set<Key>)
    requires ValidSchema(sch) && (kind.HasTarget() ==> kind.target < |sch|)
    decreases depth, v, 2
  {
    match kind
    case LinkKind(u) => Unnested(sch, depth, u, v, ks)
    case LinkListKind(u) => v.Many? ==> forall i | 0 <= i < |v.elems| :: Unnested(sch, depth, u, v.elems[i], ks)
    case _ => true
  }

  // ----- The relation between the two runs -----

  function RowOf(s: Slot): RowId {
    RowId(s.t, s.r)
  }

  // Equal tables, except that the cells of rows in `open` and the slot `hole`
  // may differ; primary keys agree everywhere.
  ghost predicate Agree(sch: Schema, a: Db, b: Db, open: set<RowId>, hole: Option<Slot>) {
    && a.cells.Keys == b.cells.Keys
    && forall s | s in a.cells && (IsKeySlot(sch, s) || (RowOf(s) !in open && hole != Some(s))) ::
         a.cells[s] == b.cells[s]
  }

  ghost predicate Keeps(a: Db, b: Db, open: set<RowId>) {
    forall s | s in a.cells && RowOf(s) in open :: s in b.cells && b.cells[s] == a.cells[s]
  }

  // Open rows exist, and the keyed ones among them have keys in ks.
  ghost predicate Shielded(sch: Schema, db: Db, open: set<RowId>, ks: set<Key>)
    requires Valid(sch, db)
  {
    forall x | x in open ::
      && HasRow(db, x.t, x.r)
      && (Keyed(sch, x.t) ==> (x.t, KeyAt(sch, db, x.t, x.r)) in ks)
  }

  ghost predicate NoIdleWrite(log: seq<Event>) {
    forall i | 0 <= i < |log| && log[i].Wrote? :: log[i].before != log[i].after
  }

  ghost predicate Paired(sch: Schema, a: State, b: State, open: set<RowId>, hole: Option<Slot>) {
    && Valid(sch, a.db) && Valid(sch, b.db) && a.db.rows == b.db.rows && |a.db.rows| == |sch|
    && Agree(sch, a.db, b.db, open, hole)
    && NoIdleWrite(b.log)
  }

  ghost predicate PairedResults<T>(sch: Schema, a: State, b: State, ra: Res<T>, rb: Res<T>, open: set<RowId>) {
    && ra.out == rb.out
    && (ra.out.Done? ==>
          && Paired(sch, ra.st, rb.st, open, None)
          && Keeps(a.db, ra.st.db, open)
          && Keeps(b.db, rb.st.db, open))
  }

  lemma {:induction false} Compose<T, S>(sch: Schema, a: State, b: State, midA: Res<T>, midB: Res<T>, endA: Res<S>,
                                         endB: Res<S>, open: set<RowId>)
    requires Valid(sch, a.db) && Evolves(sch, a.db, midA.st.db)
    requires Valid(sch, b.db) && Evolves(sch, b.db, midB.st.db)
    requires PairedResults(sch, a, b, midA, midB, open) && midA.out.Done?
    requires PairedResults(sch, midA.st, midB.st, endA, endB, open)
    ensures PairedResults(sch, a, b, endA, endB, open)
  {
    hide Store.Valid, Store.KeysDistinct, Agree, NoIdleWrite;
  }

  lemma {:induction false} Idle<T>(sch: Schema, a: State, b: State, out: Outcome<T, Error>, open: set<RowId>)
    requires Paired(sch, a, b, open, None)
    ensures PairedResults(sch, a, b, Res(a, out), Res(b, out), open)
  {
    hide Store.Valid, Agree, NoIdleWrite;
  }

  lemma {:induction false} SameCell(sch: Schema, a: State, b: State, open: set<RowId>, s: Slot)
    requires Paired(sch, a, b, open, None) && s in a.db.cells && RowOf(s) !in open
    ensures s in b.db.cells && a.db.cells[s] == b.db.cells[s]
  {
    hide Store.Valid, NoIdleWrite;
  }

  lemma {:induction false} KeptCell(a: Db, b: Db, open: set<RowId>, s: Slot)
    requires Keeps(a, b, open) && s in a.cells && RowOf(s) in open
    ensures s in b.cells && b.cells[s] == a.cells[s]
  {
    hide Store.Valid, NoIdleWrite;
  }

  lemma {:induction false} Widen(sch: Schema, a: State, b: State, open: set<RowId>, s: Slot)
    requires Paired(sch, a, b, open, None)
    ensures Paired(sch, a, b, open, Some(s))
  {
    hide Store.Valid, NoIdleWrite;
  }

  lemma {:induction false} PutBoth(sch: Schema, a: State, b: State, open: set<RowId>, s: Slot, cell: Cell)
    requires Paired(sch, a, b, open, Some(s)) && s in a.db.cells && !IsKeySlot(sch, s) && RowOf(s) !in open
    requires CellFits(sch[s.t].props[s.c], a.db.rows, cell)
    ensures var b' := if b.db.cells[s] == cell then b else Put(sch, b, s, cell);
            && Paired(sch, Put(sch, a, s, cell), b', open, None)
            && Keeps(a.db, Put(sch, a, s, cell).db, open)
            && Keeps(b.db, b'.db, open)
  {
    hide Store.Valid, Store.KeysDistinct, NoIdleWrite;
    var a' := Put(sch, a, s, cell);
    assert a'.db == Db(a.db.rows, a.db.cells[s := cell]);
    PutWrites(sch, b, s, cell);
  }

  // A write that is skipped when it changes nothing is never idle.
  lemma {:induction false} PutWrites(sch: Schema, b: State, s: Slot, cell: Cell)
    requires Valid(sch, b.db) && s in b.db.cells && !IsKeySlot(sch, s)
    requires CellFits(sch[s.t].props[s.c], b.db.rows, cell)
    ensures b.db.cells[s] != cell && NoIdleWrite(b.log) ==> NoIdleWrite(Put(sch, b, s, cell).log)
  {
    hide Store.Valid, Store.KeysDistinct;
  }

  lemma {:induction false} Opened(sch: Schema, a: State, b: State, open: set<RowId>, row: RowId, hole: Option<Slot>)
    requires Paired(sch, a, b, open, hole) && (hole.Some? ==> RowOf(hole.value) == row)
    requires hole.Some? ==> hole.value in a.db.cells && !IsKeySlot(sch, hole.value)
    ensures Paired(sch, a, b, open + {row}, None)
  {
    hide Store.Valid, NoIdleWrite;
  }

  // Opening one more row for the time of a nested run, and closing it again.
  lemma {:induction false} Reframe(sch: Schema, a: State, b: State, a': State, b': State, open: set<RowId>, row: RowId,
                                   hole: Option<Slot>)
    requires Paired(sch, a, b, open, hole)
    requires hole.Some? ==> RowOf(hole.value) == row
    requires Paired(sch, a', b', open + {row}, None)
    requires Keeps(a.db, a'.db, open + {row}) && Keeps(b.db, b'.db, open + {row})
    requires HasRow(a.db, row.t, row.r) && row !in open
    ensures Paired(sch, a', b', open, hole)
    ensures Keeps(a.db, a'.db, open) && Keeps(b.db, b'.db, open)
  {
    forall s | s in a'.db.cells && RowOf(s) == row && hole != Some(s)
      ensures a'.db.cells[s] == b'.db.cells[s]
    {
      assert s in a.db.cells by {
        assert HasSlot(sch, a'.db.rows, s);
        assert HasSlot(sch, a.db.rows, s);
      }
      assert a.db.cells[s] == b.db.cells[s];
      assert a'.db.cells[s] == a.db.cells[s];
    }
  }

  lemma {:induction false} ShieldedLater(sch: Schema, a: Db, b: Db, open: set<RowId>, ks: set<Key>)
    requires Valid(sch, a) && Evolves(sch, a, b) && Shielded(sch, a, open, ks)
    ensures Shielded(sch, b, open, ks)
  {
    forall x | x in open && Keyed(sch, x.t)
      ensures (x.t, KeyAt(sch, b, x.t, x.r)) in ks
    {
      var s := Slot(x.t, x.r, sch[x.t].primary.value);
      assert s in a.cells && IsKeySlot(sch, s);
      assert CellFits(sch[s.t].props[s.c], b.rows, b.cells[s]);
    }
  }

  lemma {:induction false} SameFind(sch: Schema, a: Db, b: Db, open: set<RowId>, hole: Option<Slot>, t: nat,
                                    key: Option<Scalar>, from: nat)
    requires Valid(sch, a) && Valid(sch, b) && a.rows == b.rows && Agree(sch, a, b, open, hole)
    requires t < |sch| && Keyed(sch, t) && from <= a.rows[t]
    ensures FindFrom(sch, a, t, key, from) == FindFrom(sch, b, t, key, from)
    decreases a.rows[t] - from
  {
    if from < a.rows[t] {
      var s := Slot(t, from, sch[t].primary.value);
      assert s in a.cells && IsKeySlot(sch, s);
      SameFind(sch, a, b, open, hole, t, key, from + 1);
    }
  }

  // ----- The two runs, step by step -----

  lemma {:induction false} SameRow(sch: Schema, a: State, b: State, t: nat, v: Value, curA: Option<nat>,
                                   curB: Option<nat>, open: set<RowId>, ks: set<Key>)
    requires Paired(sch, a, b, open, None) && Shielded(sch, a.db, open, ks)
    requires t < |sch| && v.Object?
    requires Keyed(sch, t) && KeyOf(sch[t], v).Done? ==> (t, KeyOf(sch[t], v).value) !in ks
    requires curA.Some? ==> HasRow(a.db, t, curA.value)
    requires curB.Some? ==> HasRow(b.db, t, curB.value)
    requires Keyed(sch, t) || (curA.None? && curB.None?)
    ensures PairedResults(sch, a, b, GetOrCreateRow(sch, a, t, v, UpdateAll, curA),
            GetOrCreateRow(sch, b, t, v, UpdateModified, curB), open)
    ensures var res := GetOrCreateRow(sch, a, t, v, UpdateAll, curA);
            res.out.Done? ==>
              && RowId(t, res.out.value.row) !in open
              && Shielded(sch, res.st.db, open + {RowId(t, res.out.value.row)}, Within(sch, t, v, ks))
  {
    if Keyed(sch, t) {
      SameKeyedRow(sch, a, b, t, v, curA, curB, open, ks);
    } else {
      AddBoth(sch, a, b, t, None, open);
      ShieldedLater(sch, a.db, GetOrCreateRow(sch, a, t, v, UpdateAll, curA).st.db, open, ks);
    }
  }

  lemma {:induction false} SameKeyedRow(sch: Schema, a: State, b: State, t: nat, v: Value, curA: Option<nat>,
                                        curB: Option<nat>, open: set<RowId>, ks: set<Key>)
    requires Paired(sch, a, b, open, None) && Shielded(sch, a.db, open, ks)
    requires t < |sch| && v.Object? && Keyed(sch, t)
    requires KeyOf(sch[t], v).Done? ==> (t, KeyOf(sch[t], v).value) !in ks
    requires curA.Some? ==> HasRow(a.db, t, curA.value)
    requires curB.Some? ==> HasRow(b.db, t, curB.value)
    ensures PairedResults(sch, a, b, GetOrCreateRow(sch, a, t, v, UpdateAll, curA),
            GetOrCreateRow(sch, b, t, v, UpdateModified, curB), open)
    ensures var res := GetOrCreateRow(sch, a, t, v, UpdateAll, curA);
            res.out.Done? ==>
              && RowId(t, res.out.value.row) !in open
              && Shielded(sch, res.st.db, open + {RowId(t, res.out.value.row)}, Within(sch, t, v, ks))
  {
    var key := KeyOf(sch[t], v);
    if key.Done? {
      SameFind(sch, a.db, b.db, open, None, t, key.value, 0);
      if FindFirst(sch, a.db, t, key.value).None? {
        AddBothKeyed(sch, a, b, t, key.value, open);
      }
      ShieldedLater(sch, a.db, GetOrCreateRow(sch, a, t, v, UpdateAll, curA).st.db, open, ks);
    }
  }

  lemma {:induction false} SameKeys(sch: Schema, a: State, b: State, t: nat, open: set<RowId>, r: nat)
    requires Paired(sch, a, b, open, None) && t < |sch| && Keyed(sch, t) && HasRow(a.db, t, r)
    ensures KeyAt(sch, a.db, t, r) == KeyAt(sch, b.db, t, r)
  {
    KeyOk(sch, a.db, t, r);
    KeyOk(sch, b.db, t, r);
  }

  lemma {:induction false} AddBoth(sch: Schema, a: State, b: State, t: nat, key: Option<Scalar>, open: set<RowId>)
    requires Paired(sch, a, b, open, None) && t < |sch| && KeyFits(sch[t], key)
    requires Keyed(sch, t) ==> forall r | 0 <= r < a.db.rows[t] :: KeyAt(sch, a.db, t, r) != key
    requires Keyed(sch, t) ==> forall r | 0 <= r < b.db.rows[t] :: KeyAt(sch, b.db, t, r) != key
    ensures Paired(sch, AddRow(sch, a, t, key), AddRow(sch, b, t, key), open, None)
    ensures Keeps(a.db, AddRow(sch, a, t, key).db, open) && Keeps(b.db, AddRow(sch, b, t, key).db, open)
    ensures HasRow(AddRow(sch, a, t, key).db, t, a.db.rows[t])
    ensures Keyed(sch, t) ==> KeyAt(sch, AddRow(sch, a, t, key).db, t, a.db.rows[t]) == key
  {
    hide Store.Valid, Store.KeysDistinct, NoIdleWrite, NewCells;
    var a', b' := AddRow(sch, a, t, key).db, AddRow(sch, b, t, key).db;
    forall s
      ensures s in a.db.cells ==> s in a'.cells && a'.cells[s] == a.db.cells[s]
      ensures s in b.db.cells ==> s in b'.cells && b'.cells[s] == b.db.cells[s]
      ensures s in a'.cells <==> s in b'.cells
      ensures s in a'.cells && s !in a.db.cells ==> a'.cells[s] == b'.cells[s]
    {
      AddRowAt(sch, a, t, key, s);
      AddRowAt(sch, b, t, key, s);
    }
    assert AddRow(sch, a, t, key).db.cells.Keys == AddRow(sch, b, t, key).db.cells.Keys;
    AddRowLog(sch, b, t, key);
    AddRowKey(sch, a, t, key);
  }

  // No row holds the key on either side.
  lemma {:induction false} AddBothKeyed(sch: Schema, a: State, b: State, t: nat, key: Option<Scalar>, open: set<RowId>)
    requires Paired(sch, a, b, open, None) && t < |sch| && KeyFits(sch[t], key) && Keyed(sch, t)
    requires FindFirst(sch, a.db, t, key).None?
    ensures forall r | 0 <= r < a.db.rows[t] :: KeyAt(sch, a.db, t, r) != key
    ensures forall r | 0 <= r < b.db.rows[t] :: KeyAt(sch, b.db, t, r) != key
    ensures Paired(sch, AddRow(sch, a, t, key), AddRow(sch, b, t, key), open, None)
    ensures Keeps(a.db, AddRow(sch, a, t, key).db, open) && Keeps(b.db, AddRow(sch, b, t, key).db, open)
    ensures HasRow(AddRow(sch, a, t, key).db, t, a.db.rows[t])
    ensures KeyAt(sch, AddRow(sch, a, t, key).db, t, a.db.rows[t]) == key
  {
    hide AddRow, Keeps, NoIdleWrite;
    forall r | 0 <= r < a.db.rows[t] {
      SameKeys(sch, a, b, t, open, r);
    }
    AddBoth(sch, a, b, t, key, open);
  }

  lemma {:induction false} AddRowLog(sch: Schema, b: State, t: nat, key: Option<Scalar>)
    requires Valid(sch, b.db) && t < |sch| && KeyFits(sch[t], key)
    requires Keyed(sch, t) ==> forall r | 0 <= r < b.db.rows[t] :: KeyAt(sch, b.db, t, r) != key
    ensures NoIdleWrite(b.log) ==> NoIdleWrite(AddRow(sch, b, t, key).log)
  {
  }

  lemma {:induction false} SameCreate(sch: Schema, depth: nat, a: State, b: State, t: nat, v: Value, curA: Option<nat>,
                                      curB: Option<nat>, open: set<RowId>, ks: set<Key>)
    requires LinkedTypesKeyed(sch) && t < |sch|
    requires Paired(sch, a, b, open, None) && Shielded(sch, a.db, open, ks)
    requires Unnested(sch, depth, t, v, ks)
    requires curA.Some? ==> HasRow(a.db, t, curA.value)
    requires curB.Some? ==> HasRow(b.db, t, curB.value)
    requires Keyed(sch, t) || (curA.None? && curB.None?)
    ensures PairedResults(sch, a, b, Create(sch, depth, a, t, v, UpdateAll, curA),
            Create(sch, depth, b, t, v, UpdateModified, curB), open)
    decreases depth, v, 3, 0
  {
    hide Store.Valid, Store.KeysDistinct, Agree, Keeps, NoIdleWrite, Shielded;
    if v.Object? {
      SameRow(sch, a, b, t, v, curA, curB, open, ks);
      var gotA := GetOrCreateRow(sch, a, t, v, UpdateAll, curA);
      var gotB := GetOrCreateRow(sch, b, t, v, UpdateModified, curB);
      if gotA.out.Done? {
        var r, created := gotA.out.value.row, gotA.out.value.created;
        SamePopulate(sch, depth, gotA.st, gotB.st, t, r, v, created, 0, open, Within(sch, t, v, ks));
        Compose(sch, a, b, gotA, gotB, Populate(sch, depth, gotA.st, t, r, v, created, UpdateAll, 0),
                Populate(sch, depth, gotB.st, t, r, v, created, UpdateModified, 0), open);
      }
    }
  }

  lemma {:induction false} SamePopulate(sch: Schema, depth: nat, a: State, b: State, t: nat, r: nat, v: Value,
                                        created: bool, i: nat, open: set<RowId>, ks: set<Key>)
    requires LinkedTypesKeyed(sch) && t < |sch| && HasRow(a.db, t, r) && v.Object? && i <= |sch[t].props|
    requires Paired(sch, a, b, open, None) && RowId(t, r) !in open
    requires Shielded(sch, a.db, open + {RowId(t, r)}, ks)
    requires forall c | i <= c < |sch[t].props| && sch[t].primary != Some(c) :: UnnestedAt(sch, depth, t, v, c, ks)
    ensures PairedResults(sch, a, b, Populate(sch, depth, a, t, r, v, created, UpdateAll, i),
            Populate(sch, depth, b, t, r, v, created, UpdateModified, i), open)
    decreases depth, v, 2, |sch[t].props| - i
  {
    hide Store.Valid, Store.KeysDistinct, Agree, Keeps, NoIdleWrite, Shielded;
    if i == |sch[t].props| {
      Idle(sch, a, b, Done(r), open);
    } else {
      SamePopulateOne(sch, depth, a, b, t, r, v, created, i, open, ks);
      var stepA := PopulateOne(sch, depth, a, t, r, v, created, UpdateAll, i);
      var stepB := PopulateOne(sch, depth, b, t, r, v, created, UpdateModified, i);
      if stepA.out.Done? {
        ShieldedLater(sch, a.db, stepA.st.db, open + {RowId(t, r)}, ks);
        SamePopulate(sch, depth, stepA.st, stepB.st, t, r, v, created, i + 1, open, ks);
        Compose(sch, a, b, stepA, stepB, Populate(sch, depth, stepA.st, t, r, v, created, UpdateAll, i + 1),
                Populate(sch, depth, stepB.st, t, r, v, created, UpdateModified, i + 1), open);
      }
    }
  }

  lemma {:induction false} SamePopulateOne(sch: Schema, depth: nat, a: State, b: State, t: nat, r: nat, v: Value,
                                           created: bool, i: nat, open: set<RowId>, ks: set<Key>)
    requires LinkedTypesKeyed(sch) && t < |sch| && HasRow(a.db, t, r) && v.Object? && i < |sch[t].props|
    requires Paired(sch, a, b, open, None) && RowId(t, r) !in open
    requires Shielded(sch, a.db, open + {RowId(t, r)}, ks)
    requires sch[t].primary != Some(i) ==> UnnestedAt(sch, depth, t, v, i, ks)
    ensures PairedResults(sch, a, b, PopulateOne(sch, depth, a, t, r, v, created, UpdateAll, i),
            PopulateOne(sch, depth, b, t, r, v, created, UpdateModified, i), open)
    decreases depth, v, 1, 0
  {
    hide Store.Valid, Store.KeysDistinct, Agree, Keeps, NoIdleWrite, Shielded;
    var p := sch[t].props[i];
    var given := v.Field(i);
    Idle(sch, a, b, Done(r), open);
    if sch[t].primary != Some(i) {
      if given.Some? {
        SameSetProperty(sch, depth, a, b, t, r, i, given.value, false, open, ks);
      } else if created && p.dflt.Some? && depth > 0 {
        SameSetProperty(sch, depth - 1, a, b, t, r, i, p.dflt.value, true, open, ks);
      }
    }
  }

  lemma {:induction false} SameSetProperty(sch: Schema, depth: nat, a: State, b: State, t: nat, r: nat, c: nat,
                                           v: Value, isDefault: bool, open: set<RowId>, ks: set<Key>)
    requires LinkedTypesKeyed(sch) && t < |sch| && Here(sch, a.db, t, r, c)
    requires Paired(sch, a, b, open, None) && RowId(t, r) !in open
    requires Shielded(sch, a.db, open + {RowId(t, r)}, ks)
    requires UnnestedIn(sch, depth, sch[t].props[c].kind, v, ks)
    ensures PairedResults(sch, a, b, SetProperty(sch, depth, a, t, r, c, v, UpdateAll, isDefault),
            SetProperty(sch, depth, b, t, r, c, v, UpdateModified, isDefault), open)
    decreases depth, v, 5, 0
  {
    hide Store.Valid, Store.KeysDistinct, Agree, Keeps, NoIdleWrite, Shielded;
    var p := sch[t].props[c];
    var s := Slot(t, r, c);
    CellOk(sch, a.db, s);
    Idle(sch, a, b, Done(r), open);
    Widen(sch, a, b, open, s);
    if p.nullable && v.Null? {
      if !p.kind.LinkKind? || !isDefault {
        PutBoth(sch, a, b, open, s, if p.kind.LinkKind? then Link(None) else One(None));
      }
    } else {
      match p.kind
      case BacklinksKind =>
      case ScalarListKind(_) => SameAssign(sch, depth, a, b, s, v, open, ks);
      case LinkListKind(_) => SameAssign(sch, depth, a, b, s, v, open, ks);
      case LinkKind(_) => SameLink(sch, depth, a, b, s, v, open, ks);
      case ScalarKind(ty) =>
        if v.Plain? && v.s.Type() == ty {
          PutBoth(sch, a, b, open, s, One(Some(v.s)));
        }
    }
  }

  lemma {:induction false} SameLink(sch: Schema, depth: nat, a: State, b: State, s: Slot, v: Value, open: set<RowId>,
                                    ks: set<Key>)
    requires LinkedTypesKeyed(sch) && Here(sch, a.db, s.t, s.r, s.c) && sch[s.t].props[s.c].kind.LinkKind?
    requires Paired(sch, a, b, open, None) && RowOf(s) !in open
    requires Shielded(sch, a.db, open + {RowOf(s)}, ks)
    requires Unnested(sch, depth, sch[s.t].props[s.c].kind.target, v, ks)
    ensures PairedResults(sch, a, b, UpdateLink(sch, depth, a, s.t, s.r, s.c, v, UpdateAll),
            UpdateLink(sch, depth, b, s.t, s.r, s.c, v, UpdateModified), open)
    decreases depth, v, 4, 1
  {
    hide Store.Valid, Store.KeysDistinct, Agree, Keeps, NoIdleWrite, Shielded;
    var kind, r := sch[s.t].props[s.c].kind, s.r;
    CellOk(sch, a.db, s);
    SameCell(sch, a, b, open, s);
    var current := a.db.cells[s].to;
    Opened(sch, a, b, open, RowOf(s), None);
    SameUnbox(sch, depth, a, b, kind, v, current, current, open + {RowOf(s)}, ks);
    var madeA := Unbox(sch, depth, a, kind, v, UpdateAll, current);
    var madeB := Unbox(sch, depth, b, kind, v, UpdateModified, current);
    if madeA.out.Done? {
      var cell := Link(Some(madeA.out.value.r));
      Reframe(sch, a, b, madeA.st, madeB.st, open, RowOf(s), None);
      KeptCell(b.db, madeB.st.db, open + {RowOf(s)}, s);
      CellOk(sch, madeA.st.db, s);
      Widen(sch, madeA.st, madeB.st, open, s);
      PutBoth(sch, madeA.st, madeB.st, open, s, cell);
      var endB := if madeB.st.db.cells[s] == cell then madeB.st else Put(sch, madeB.st, s, cell);
      Compose(sch, a, b, madeA, madeB, Res(Put(sch, madeA.st, s, cell), Done(r)), Res(endB, Done(r)), open);
    }
  }

  lemma {:induction false} SameUnbox(sch: Schema, depth: nat, a: State, b: State, kind: Kind, v: Value,
                                     curA: Option<nat>, curB: Option<nat>, open: set<RowId>, ks: set<Key>)
    requires LinkedTypesKeyed(sch)
    requires Paired(sch, a, b, open, None) && Shielded(sch, a.db, open, ks)
    requires kind.ScalarListKind? || kind.HasTarget()
    requires kind.HasTarget() ==> kind.target < |sch| && Keyed(sch, kind.target) && Unnested(sch, depth, kind.target, v,
             ks)
    requires kind.HasTarget() && curA.Some? ==> HasRow(a.db, kind.target, curA.value)
    requires kind.HasTarget() && curB.Some? ==> HasRow(b.db, kind.target, curB.value)
    ensures PairedResults(sch, a, b, Unbox(sch, depth, a, kind, v, UpdateAll, curA),
            Unbox(sch, depth, b, kind, v, UpdateModified, curB), open)
    decreases depth, v, 4, 0
  {
    hide Store.Valid, Store.KeysDistinct, Agree, Keeps, NoIdleWrite, Shielded;
    if kind.ScalarListKind? {
      Idle<Item>(sch, a, b, if v.Plain? && v.s.Type() == kind.ty then Done(Val(v.s)) else Fail(BadValue), open);
    } else if v.Managed? {
      Idle<Item>(sch, a, b, if v.row < a.db.rows[kind.target] then Done(Row(v.row)) else Fail(BadValue), open);
    } else {
      SameCreate(sch, depth, a, b, kind.target, v, curA, curB, open, ks);
    }
  }

  // ----- Lists: clear and append against set, add and trim in place -----

  lemma {:induction false} SameAssign(sch: Schema, depth: nat, a: State, b: State, s: Slot, v: Value, open: set<RowId>,
                                      ks: set<Key>)
    requires LinkedTypesKeyed(sch) && ListHere(sch, a.db, s)
    requires Paired(sch, a, b, open, None) && RowOf(s) !in open
    requires Shielded(sch, a.db, open + {RowOf(s)}, ks)
    requires UnnestedIn(sch, depth, sch[s.t].props[s.c].kind, v, ks)
    ensures PairedResults(sch, a, b, Assign(sch, depth, a, s.t, s.r, s.c, v, UpdateAll),
            Assign(sch, depth, b, s.t, s.r, s.c, v, UpdateModified), open)
    decreases depth, v, 4, 1
  {
    hide Store.Valid, Store.KeysDistinct, Agree, Keeps, NoIdleWrite, Shielded;
    CellOk(sch, a.db, s);
    SameCell(sch, a, b, open, s);
    Idle(sch, a, b, Done(s.r), open);
    Widen(sch, a, b, open, s);
    if v.Null? {
      PutBoth(sch, a, b, open, s, List([]));
      assert Items(a, s) != [] ==> b.db.cells[s] != List([]);
    } else if v.Many? {
      var a' := RemoveAll(sch, a, s);
      ClearOne(sch, a, b, s, open);
      ShieldedLater(sch, a.db, a'.db, open + {RowOf(s)}, ks);
      SameElements(sch, depth, a', b, s, v, |Items(b, s)|, 0, open, ks);
      KeepsTransitive(a.db, a'.db, AppendFrom(sch, depth, a', s, v, UpdateAll, 0).st.db, open);
    }
  }

  lemma {:induction false} KeepsTransitive(a: Db, b: Db, c: Db, open: set<RowId>)
    requires Keeps(a, b, open)
    ensures Keeps(b, c, open) ==> Keeps(a, c, open)
  {
  }

  lemma {:induction false} ClearOne(sch: Schema, a: State, b: State, s: Slot, open: set<RowId>)
    requires Paired(sch, a, b, open, Some(s)) && ListHere(sch, a.db, s) && RowOf(s) !in open
    ensures Paired(sch, RemoveAll(sch, a, s), b, open, Some(s))
    ensures Keeps(a.db, RemoveAll(sch, a, s).db, open)
    ensures s in RemoveAll(sch, a, s).db.cells && RemoveAll(sch, a, s).db.cells[s] == List([])
  {
    hide Store.KeysDistinct;
  }

  lemma {:induction false} SameElements(sch: Schema, depth: nat, a: State, b: State, s: Slot, v: Value, sz: nat, i: nat,
                                        open: set<RowId>, ks: set<Key>)
    requires LinkedTypesKeyed(sch) && ListHere(sch, a.db, s) && v.Many? && i <= |v.elems|
    requires Paired(sch, a, b, open, Some(s)) && RowOf(s) !in open
    requires Shielded(sch, a.db, open + {RowOf(s)}, ks)
    requires UnnestedIn(sch, depth, sch[s.t].props[s.c].kind, v, ks)
    requires s in a.db.cells && a.db.cells[s].List? && s in b.db.cells && b.db.cells[s].List?
    requires |Items(b, s)| == (if i < sz then sz else i) && Items(a, s) == Items(b, s)[..i]
    ensures PairedResults(sch, a, b, AppendFrom(sch, depth, a, s, v, UpdateAll, i),
            AssignInPlace(sch, depth, b, s, v, sz, i), open)
    decreases depth, v, 2, |v.elems| - i
  {
    hide Store.Valid, Store.KeysDistinct, Agree, Keeps, NoIdleWrite, Shielded;
    if i == |v.elems| {
      TrimExact(sch, b, s, i, sz);
      TrimWrites(sch, b, s, i, sz);
      FillHole(sch, a, b, Trim(sch, b, s, i, sz).st, s, open);
    } else {
      SameElement(sch, depth, a, b, s, v.elems[i], sz, i, open, ks);
      var stepA := Append(sch, depth, a, s, v.elems[i], UpdateAll);
      var stepB := if i < sz then SetIfDifferent(sch, depth, b, s, v.elems[i], i)
                   else Append(sch, depth, b, s, v.elems[i], UpdateModified);
      if stepA.out.Done? {
        ShieldedLater(sch, a.db, stepA.st.db, open + {RowOf(s)}, ks);
        SameElements(sch, depth, stepA.st, stepB.st, s, v, sz, i + 1, open, ks);
        KeepsTransitive(a.db, stepA.st.db, AppendFrom(sch, depth, stepA.st, s, v, UpdateAll, i + 1).st.db, open);
        KeepsTransitive(b.db, stepB.st.db, AssignInPlace(sch, depth, stepB.st, s, v, sz, i + 1).st.db, open);
      }
    }
  }

  // Once the slot that differed holds the same cell, no hole is left.
  lemma {:induction false} FillHole(sch: Schema, a: State, b: State, b': State, s: Slot, open: set<RowId>)
    requires Paired(sch, a, b, open, Some(s)) && Valid(sch, b'.db) && RowOf(s) !in open
    requires s in a.db.cells && !IsKeySlot(sch, s)
    requires b'.db == Db(b.db.rows, b.db.cells[s := a.db.cells[s]]) && NoIdleWrite(b'.log)
    ensures Paired(sch, a, b', open, None) && Keeps(a.db, a.db, open) && Keeps(b.db, b'.db, open)
  {
    hide Store.Valid, NoIdleWrite;
  }

  lemma {:induction false} SameElement(sch: Schema, depth: nat, a: State, b: State, s: Slot, e: Value, sz: nat, i: nat,
                                       open: set<RowId>, ks: set<Key>)
    requires LinkedTypesKeyed(sch) && ListHere(sch, a.db, s)
    requires Paired(sch, a, b, open, Some(s)) && RowOf(s) !in open
    requires Shielded(sch, a.db, open + {RowOf(s)}, ks)
    requires sch[s.t].props[s.c].kind.HasTarget() ==> Unnested(sch, depth, sch[s.t].props[s.c].kind.target, e, ks)
    requires s in a.db.cells && a.db.cells[s].List? && s in b.db.cells && b.db.cells[s].List?
    requires |Items(b, s)| == (if i < sz then sz else i) && Items(a, s) == Items(b, s)[..i]
    ensures var ra := Append(sch, depth, a, s, e, UpdateAll);
            var rb := if i < sz then SetIfDifferent(sch, depth, b, s, e, i)
                else Append(sch, depth, b, s, e, UpdateModified);
            && ra.out == rb.out
            && (ra.out.Done? ==>
                  && Paired(sch, ra.st, rb.st, open, Some(s))
                  && Keeps(a.db, ra.st.db, open) && Keeps(b.db, rb.st.db, open)
                  && s in ra.st.db.cells && ra.st.db.cells[s].List?
                  && s in rb.st.db.cells && rb.st.db.cells[s].List?
                  && |Items(rb.st, s)| == (if i + 1 < sz then sz else i + 1)
                  && Items(ra.st, s) == Items(rb.st, s)[..i + 1])
    decreases depth, e, 6, 0
  {
    hide Store.Valid, Store.KeysDistinct, Agree, Keeps, NoIdleWrite, Shielded, Append, SetIfDifferent, Unbox, Evolves;
    var kind := sch[s.t].props[s.c].kind;
    CellOk(sch, b.db, s);
    assert i < sz ==> ItemFits(kind, b.db.rows, Items(b, s)[i]);
    var curB := if i < sz then CurrentRow(Items(b, s)[i]) else None;
    Opened(sch, a, b, open, RowOf(s), Some(s));
    SameUnbox(sch, depth, a, b, kind, e, None, curB, open + {RowOf(s)}, ks);
    var madeA := Unbox(sch, depth, a, kind, e, UpdateAll, None);
    var madeB := Unbox(sch, depth, b, kind, e, UpdateModified, curB);
    AppendExact(sch, depth, a, s, e, UpdateAll);
    if i < sz {
      SetExact(sch, depth, b, s, e, i);
    } else {
      AppendExact(sch, depth, b, s, e, UpdateModified);
    }
    if madeA.out.Done? {
      Reframe(sch, a, b, madeA.st, madeB.st, open, RowOf(s), Some(s));
      KeptCell(a.db, madeA.st.db, open + {RowOf(s)}, s);
      KeptCell(b.db, madeB.st.db, open + {RowOf(s)}, s);
      var endA := Append(sch, depth, a, s, e, UpdateAll).st;
      var endB := (if i < sz then SetIfDifferent(sch, depth, b, s, e, i)
          else Append(sch, depth, b, s, e, UpdateModified)).st;
      SameItem(sch, madeA.st, madeB.st, endA, endB, s, madeA.out.value, sz, i, open);
      KeepsTransitive(a.db, madeA.st.db, endA.db, open);
      KeepsTransitive(b.db, madeB.st.db, endB.db, open);
    }
  }

  lemma {:induction false} SameItem(sch: Schema, a: State, b: State, a': State, b': State, s: Slot, item: Item, sz: nat,
                                    i: nat, open: set<RowId>)
    requires Paired(sch, a, b, open, Some(s)) && RowOf(s) !in open && !IsKeySlot(sch, s)
    requires s in a.db.cells && a.db.cells[s].List? && s in b.db.cells && b.db.cells[s].List?
    requires |Items(b, s)| == (if i < sz then sz else i) && Items(a, s) == Items(b, s)[..i]
    requires Valid(sch, a'.db) && Valid(sch, b'.db) && a' == AfterPut(a, s, List(Items(a, s) + [item]))
    requires b' == if i < sz && Items(b, s)[i] == item then b
                   else AfterPut(b, s, List(if i < sz then Items(b, s)[i := item] else Items(b, s) + [item]))
    ensures Paired(sch, a', b', open, Some(s)) && Keeps(a.db, a'.db, open) && Keeps(b.db, b'.db, open)
    ensures s in a'.db.cells && a'.db.cells[s].List? && s in b'.db.cells && b'.db.cells[s].List?
    ensures |Items(b', s)| == (if i + 1 < sz then sz else i + 1) && Items(a', s) == Items(b', s)[..i + 1]
  {
    hide Store.Valid, NoIdleWrite, Agree, Keeps;
    var cellB := List(if i < sz then Items(b, s)[i := item] else Items(b, s) + [item]);
    assert i < sz && Items(b, s)[i] == item ==> cellB == List(Items(b, s));
    PutLists(sch, a, b, a', b', s, List(Items(a, s) + [item]), cellB, open);
  }

  // Both runs write the slot that may differ; the second one only if it changes.
  lemma {:induction false} PutLists(sch: Schema, a: State, b: State, a': State, b': State, s: Slot, cellA: Cell,
                                    cellB: Cell, open: set<RowId>)
    requires Paired(sch, a, b, open, Some(s)) && RowOf(s) !in open
    requires s in a.db.cells && !IsKeySlot(sch, s) && s in b.db.cells && Valid(sch, a'.db) && Valid(sch, b'.db)
    requires a'.db == Db(a.db.rows, a.db.cells[s := cellA])
    requires if b.db.cells[s] == cellB then b' == b
             else b' == AfterPut(b, s, cellB)
    ensures Paired(sch, a', b', open, Some(s)) && Keeps(a.db, a'.db, open) && Keeps(b.db, b'.db, open)
  {
    hide Store.Valid;
  }

  // Every element the remove loop takes off changes the list.
  lemma {:induction false} TrimWrites(sch: Schema, st: State, s: Slot, keep: nat, sz: nat)
    requires ListHere(sch, st.db, s) && s in st.db.cells && st.db.cells[s].List?
    requires |Items(st, s)| == if keep < sz then sz else keep
    ensures NoIdleWrite(st.log) ==> NoIdleWrite(Trim(sch, st, s, keep, sz).st.log)
    decreases sz
  {
    hide Store.Valid, Store.Evolves, NoIdleWrite, RemoveAt;
    if keep < sz {
      RemoveAtExact(sch, st, s, sz - 1);
      RemoveAtWrites(sch, st, s, sz - 1);
      TrimWrites(sch, RemoveAt(sch, st, s, sz - 1).st, s, keep, sz - 1);
    }
  }

  lemma {:induction false} RemoveAtWrites(sch: Schema, st: State, s: Slot, i: nat)
    requires ListHere(sch, st.db, s) && s in st.db.cells && st.db.cells[s].List? && i < |Items(st, s)|
    ensures NoIdleWrite(st.log) ==> NoIdleWrite(RemoveAt(sch, st, s, i).st.log)
  {
  }

  // ----- Main results -----

  lemma {:induction false} NothingOpen<T>(sch: Schema, a: State, b: State, ra: Res<T>, rb: Res<T>)
    requires PairedResults(sch, a, b, ra, rb, {})
    ensures ra.out == rb.out && (ra.out.Done? ==> ra.st.db == rb.st.db && NoIdleWrite(rb.st.log))
  {
    hide Store.Valid, Keeps, NoIdleWrite;
  }

  lemma {:induction false} UpdateModifiedRefinesUpdateAll(sch: Schema, depth: nat, db: Db, t: nat, v: Value)
    requires Valid(sch, db) && LinkedTypesKeyed(sch) && t < |sch|
    requires Unnested(sch, depth, t, v, {})
    ensures var all := Create(sch, depth, State(db, []), t, v, UpdateAll, None);
            var modified := Create(sch, depth, State(db, []), t, v, UpdateModified, None);
            && modified.out == all.out
            && (all.out.Done? ==> modified.st.db == all.st.db && NoIdleWrite(modified.st.log))
  {
    hide KeysDistinct, Create, Unnested;
    var st := State(db, []);
    SameCreate(sch, depth, st, st, t, v, None, None, {}, {});
    NothingOpen(sch, st, st, Create(sch, depth, st, t, v, UpdateAll, None), Create(sch, depth, st, t, v, UpdateModified,
        None));
  }

  // The same for one property of an existing row; the nested values must not
  // reach the row itself.
  lemma {:induction false} SetPropertyRefines(sch: Schema, depth: nat, db: Db, t: nat, r: nat, c: nat, v: Value)
    requires LinkedTypesKeyed(sch) && t < |sch| && Here(sch, db, t, r, c)
    requires UnnestedIn(sch, depth, sch[t].props[c].kind, v, if Keyed(sch, t) then {(t, KeyAt(sch, db, t, r))} else {})
    ensures var all := SetProperty(sch, depth, State(db, []), t, r, c, v, UpdateAll, false);
            var modified := SetProperty(sch, depth, State(db, []), t, r, c, v, UpdateModified, false);
            && modified.out == all.out
            && (all.out.Done? ==> modified.st.db == all.st.db && NoIdleWrite(modified.st.log))
  {
    hide KeysDistinct, SetProperty, UnnestedIn;
    var st := State(db, []);
    SameSetProperty(sch, depth, st, st, t, r, c, v, false, {}, if Keyed(sch, t) then {(t, KeyAt(sch, db, t, r))}
        else {});
    NothingOpen(sch, st, st, SetProperty(sch, depth, st, t, r, c, v, UpdateAll, false),
        SetProperty(sch, depth, st, t, r, c, v, UpdateModified, false));
  }

  // ----- Why nesting under the same key is excluded -----

  const PERSON: Schema := [ObjectSchema([Property(ScalarKind(IntType), false, None), Property(LinkKind(0), true, None)],
      Some(0))]

  // One person, with key 1, who is linked to themselves.
  const SELF_LINKED: Db := Db([1], map[Slot(0, 0, 0) := One(Some(IntValue(1))), Slot(0, 0, 1) := Link(Some(0))])

  function Person(key: int, link: Option<Value>): Value {
    Object([Some(Plain(IntValue(key))), link], false)
  }

  lemma {:induction false} PersonSchema()
    ensures ValidSchema(PERSON) && LinkedTypesKeyed(PERSON)
  {
  }

  lemma {:induction false} SelfLinkedValid()
    ensures Valid(PERSON, SELF_LINKED) && LinkedTypesKeyed(PERSON)
  {
    hide ValidSchema, LinkedTypesKeyed;
    PersonSchema();
    forall s
      ensures s in SELF_LINKED.cells <==> HasSlot(PERSON, SELF_LINKED.rows, s)
      ensures s in SELF_LINKED.cells ==> CellFits(PERSON[s.t].props[s.c], SELF_LINKED.rows, SELF_LINKED.cells[s])
    {
    }
  }

  // Under key 1 lies another value with key 1, which links to key 2. Both
  // policies set the link to the new row first; then UpdateAll sets it back,
  // but UpdateModified compares the new link with the one it read at the start.
  lemma {:induction false} SelfNestingDiffers()
    ensures Valid(PERSON, SELF_LINKED) && LinkedTypesKeyed(PERSON)
    ensures var v := Person(1, Some(Person(1, Some(Person(2, None)))));
            var all := Create(PERSON, 0, State(SELF_LINKED, []), 0, v, UpdateAll, None);
            var modified := Create(PERSON, 0, State(SELF_LINKED, []), 0, v, UpdateModified, None);
            && all.out == modified.out == Done(0)
            && Slot(0, 0, 1) in all.st.db.cells && all.st.db.cells[Slot(0, 0, 1)] == Link(Some(0))
            && Slot(0, 0, 1) in modified.st.db.cells && modified.st.db.cells[Slot(0, 0, 1)] == Link(Some(1))
  {
    hide Create, Store.Valid;
    SelfLinkedValid();
    var st := State(SELF_LINKED, []);
    var v := Person(1, Some(Person(1, Some(Person(2, None)))));
    SelfNestingRun(st, v, UpdateAll);
    SelfNestingRun(st, v, UpdateModified);
  }

  lemma {:induction false} PersonLoop(st: State, r: nat, key: int, link: Option<Value>, created: bool, policy: Policy)
    requires Valid(PERSON, st.db) && HasRow(st.db, 0, r) && (link.Some? ==> link.value.Object?)
    ensures Here(PERSON, st.db, 0, r, 1)
    ensures Populate(PERSON, 0, st, 0, r, Person(key, link), created, policy, 0) ==
            if link.None? then Res(st, Done(r)) else UpdateLink(PERSON, 0, st, 0, r, 1, link.value, policy)
  {
    hide Store.Valid, Store.Evolves, UpdateLink;
    var v := Person(key, link);
    assert PopulateOne(PERSON, 0, st, 0, r, v, created, policy, 0) == Res(st, Done(r));
    var step := PopulateOne(PERSON, 0, st, 0, r, v, created, policy, 1);
    if link.Some? {
      assert v.Field(1) == link;
      assert SetProperty(PERSON, 0, st, 0, r, 1, link.value, policy, false) == UpdateLink(PERSON, 0, st, 0, r, 1,
          link.value, policy);
    }
    assert step == if link.None? then Res(st, Done(r)) else UpdateLink(PERSON, 0, st, 0, r, 1, link.value, policy);
    assert Populate(PERSON, 0, step.st, 0, r, v, created, policy, 2) == Res(step.st, Done(r));
    assert Populate(PERSON, 0, st, 0, r, v, created, policy, 1) == step;
  }

  lemma {:induction false} PersonFound(st: State, r: nat, key: int, link: Value, policy: Policy, current: Option<nat>)
    requires Valid(PERSON, st.db) && |st.db.rows| == 1 && policy != ForceCreate && link.Object?
    requires current.Some? ==> HasRow(st.db, 0, current.value)
    requires FindFirst(PERSON, st.db, 0, Some(IntValue(key))) == Some(r)
    ensures Here(PERSON, st.db, 0, r, 1)
    ensures Create(PERSON, 0, st, 0, Person(key, Some(link)), policy, current) ==
            UpdateLink(PERSON, 0, st, 0, r, 1, link, policy)
  {
    hide Store.Valid, UpdateLink, Populate;
    PersonLoop(st, r, key, Some(link), false, policy);
  }

  lemma {:induction false} PersonNew(st: State, key: int, policy: Policy, current: Option<nat>)
    requires Valid(PERSON, st.db) && |st.db.rows| == 1 && (current.Some? ==> HasRow(st.db, 0, current.value))
    requires FindFirst(PERSON, st.db, 0, Some(IntValue(key))) == None
    ensures Create(PERSON, 0, st, 0, Person(key, None), policy, current) ==
            Res(AddRow(PERSON, st, 0, Some(IntValue(key))), Done(st.db.rows[0]))
  {
    hide Store.Valid, UpdateLink, Populate;
    var st' := AddRow(PERSON, st, 0, Some(IntValue(key)));
    AddRowKey(PERSON, st, 0, Some(IntValue(key)));
    PersonLoop(st', st.db.rows[0], key, None, true, policy);
  }

  lemma {:induction false} SelfLinkedFind()
    requires Valid(PERSON, SELF_LINKED)
    ensures FindFirst(PERSON, SELF_LINKED, 0, Some(IntValue(1))) == Some(0)
    ensures FindFirst(PERSON, SELF_LINKED, 0, Some(IntValue(2))) == None
  {
  }

  lemma {:induction false} SelfNestingRun(st: State, v: Value, policy: Policy)
    requires Valid(PERSON, SELF_LINKED) && policy != ForceCreate
    requires st == State(SELF_LINKED, []) && v == Person(1, Some(Person(1, Some(Person(2, None)))))
    ensures var res := Create(PERSON, 0, st, 0, v, policy, None);
            && res.out == Done(0)
            && Slot(0, 0, 1) in res.st.db.cells
            && res.st.db.cells[Slot(0, 0, 1)] == Link(Some(if policy == UpdateModified then 1 else 0))
  {
    hide Create, Populate, FindFirst, Store.Valid;
    var s := Slot(0, 0, 1);
    SelfLinkedFind();
    PersonNew(st, 2, policy, Some(0));
    PersonFound(st, 0, 1, Person(2, None), policy, Some(0));
    PersonFound(st, 0, 1, Person(1, Some(Person(2, None))), policy, None);
    AddRowAt(PERSON, st, 0, Some(IntValue(2)), s);
    var inner := Create(PERSON, 0, st, 0, Person(1, Some(Person(2, None))), policy, Some(0));
    assert inner.out == Done(0) && inner.st.db.cells[s] == Link(Some(1));
  }
}
