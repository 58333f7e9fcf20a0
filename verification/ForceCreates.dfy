// Under ForceCreate nothing that exists is touched but the slot being set:
// objects are only ever added. So what has been put in can be read back, at
// every depth, and every object of the value has a row of its own that is new.
module ForceCreates {
  import opened Wrappers
  import opened Store
  import opened Upsert
  import opened ReadBack

  // ----- What is left alone -----

  // The cells of a are kept, except for those of row (t, r) from column i on.
  ghost predicate KeptBefore(a: Db, b: Db, t: nat, r: nat, i: nat) {
    forall s | s in a.cells && !(s.t == t && s.r == r && i <= s.c) :: s in b.cells && b.cells[s] == a.cells[s]
  }

  ghost predicate AllKept(a: Db, b: Db) {
    forall s | s in a.cells :: s in b.cells && b.cells[s] == a.cells[s]
  }

  ghost predicate KeptBut(a: Db, b: Db, hole: Slot) {
    forall s | s in a.cells && s != hole :: s in b.cells && b.cells[s] == a.cells[s]
  }

  lemma {:induction false} ForceRow(sch: Schema, st: State, t: nat, v: Value, current: Option<nat>)
    requires Valid(sch, st.db) && t < |sch| && v.Object? && (current.Some? ==> HasRow(st.db, t, current.value))
    ensures var got := GetOrCreateRow(sch, st, t, v, ForceCreate, current);
            && AllKept(st.db, got.st.db)
            && (got.out.Done? ==>
                  && got.out.value == Target(st.db.rows[t], true)
                  && |st.db.rows| == |sch| && |got.st.db.rows| == |sch|
                     && got.st.db.rows == st.db.rows[t := st.db.rows[t] + 1])
  {
    hide KeysDistinct;
    if Keyed(sch, t) {
      var key := KeyOf(sch[t], v);
      if key.Done? && FindFirst(sch, st.db, t, key.value).None? {
        RowAdded(sch, st, t, key.value);
      }
    } else {
      RowAdded(sch, st, t, None);
    }
  }

  lemma {:induction false} RowAdded(sch: Schema, st: State, t: nat, key: Option<Scalar>)
    requires Valid(sch, st.db) && t < |sch| && KeyFits(sch[t], key)
    requires Keyed(sch, t) ==> forall r | 0 <= r < st.db.rows[t] :: KeyAt(sch, st.db, t, r) != key
    ensures AllKept(st.db, AddRow(sch, st, t, key).db)
  {
    hide Valid, KeysDistinct, NewCells;
    forall s | s in st.db.cells
      ensures s in AddRow(sch, st, t, key).db.cells && AddRow(sch, st, t, key).db.cells[s] == st.db.cells[s]
    {
      AddRowAt(sch, st, t, key, s);
    }
  }

  lemma {:induction false} ForceKeepsAll(sch: Schema, depth: nat, st: State, t: nat, v: Value, current: Option<nat>)
    requires Valid(sch, st.db) && t < |sch| && (current.Some? ==> HasRow(st.db, t, current.value))
    ensures AllKept(st.db, Create(sch, depth, st, t, v, ForceCreate, current).st.db)
    decreases depth, v, 3, 0
  {
    hide Valid, KeysDistinct, Populate;
    if v.Object? {
      ForceRow(sch, st, t, v, current);
      var got := GetOrCreateRow(sch, st, t, v, ForceCreate, current);
      if got.out.Done? {
        NoCells(sch, st.db, t);
        ForcePopulateKeeps(sch, depth, got.st, t, got.out.value.row, v, true, 0);
      }
    }
  }

  // A row that is still to be added has no cells.
  lemma {:induction false} NoCells(sch: Schema, db: Db, t: nat)
    requires Valid(sch, db) && t < |sch|
    ensures forall s | s in db.cells && s.t == t :: s.r < db.rows[t]
  {
  }

  lemma {:induction false} ForcePopulateKeeps(sch: Schema, depth: nat, st: State, t: nat, r: nat, v: Value,
                                              created: bool, i: nat)
    requires Valid(sch, st.db) && t < |sch| && HasRow(st.db, t, r) && v.Object? && i <= |sch[t].props|
    ensures KeptBefore(st.db, Populate(sch, depth, st, t, r, v, created, ForceCreate, i).st.db, t, r, i)
    decreases depth, v, 2, |sch[t].props| - i
  {
    hide Valid, KeysDistinct, Evolves, PopulateOne;
    if i < |sch[t].props| {
      ForceOneKeeps(sch, depth, st, t, r, v, created, i);
      var step := PopulateOne(sch, depth, st, t, r, v, created, ForceCreate, i);
      if step.out.Done? {
        ForcePopulateKeeps(sch, depth, step.st, t, r, v, created, i + 1);
      }
    }
  }

  lemma {:induction false} ForceOneKeeps(sch: Schema, depth: nat, st: State, t: nat, r: nat, v: Value, created: bool,
                                         i: nat)
    requires Valid(sch, st.db) && t < |sch| && HasRow(st.db, t, r) && v.Object? && i < |sch[t].props|
    ensures KeptBut(st.db, PopulateOne(sch, depth, st, t, r, v, created, ForceCreate, i).st.db, Slot(t, r, i))
    decreases depth, v, 1, 0
  {
    hide Valid, KeysDistinct, Evolves, SetProperty;
    var p, given := sch[t].props[i], v.Field(i);
    if sch[t].primary != Some(i) {
      if given.Some? {
        ForceSetKeeps(sch, depth, st, Slot(t, r, i), given.value, false);
      } else if p.dflt.Some? && depth > 0 {
        ForceSetKeeps(sch, depth - 1, st, Slot(t, r, i), p.dflt.value, true);
      }
    }
  }

  lemma {:induction false} ForceSetKeeps(sch: Schema, depth: nat, st: State, s: Slot, z: Value, isDefault: bool)
    requires s.t < |sch| && Here(sch, st.db, s.t, s.r, s.c)
    ensures KeptBut(st.db, SetProperty(sch, depth, st, s.t, s.r, s.c, z, ForceCreate, isDefault).st.db, s)
    decreases depth, z, 5, 0
  {
    hide Valid, KeysDistinct, Unbox, AppendFrom;
    CellOk(sch, st.db, s);
    var p := sch[s.t].props[s.c];
    if p.nullable && z.Null? {
    } else if p.kind.LinkKind? {
      ForceUnboxKeeps(sch, depth, st, p.kind, z, st.db.cells[s].to);
    } else if (p.kind.ScalarListKind? || p.kind.LinkListKind?) && z.Many? {
      ForceAppendKeeps(sch, depth, RemoveAll(sch, st, s), s, z, 0);
    }
  }

  lemma {:induction false} ForceUnboxKeeps(sch: Schema, depth: nat, st: State, kind: Kind, z: Value,
                                           current: Option<nat>)
    requires Valid(sch, st.db) && (kind.HasTarget() ==> kind.target < |sch|)
             && (kind.HasTarget() || kind.ScalarListKind?)
    requires kind.HasTarget() && current.Some? ==> HasRow(st.db, kind.target, current.value)
    ensures AllKept(st.db, Unbox(sch, depth, st, kind, z, ForceCreate, current).st.db)
    decreases depth, z, 4, 0
  {
    hide Valid, KeysDistinct, Evolves, Create;
    if kind.HasTarget() && !z.Managed? {
      ForceKeepsAll(sch, depth, st, kind.target, z, current);
    }
  }

  lemma {:induction false} ForceAppendKeeps(sch: Schema, depth: nat, st: State, s: Slot, z: Value, i: nat)
    requires s.t < |sch| && ListHere(sch, st.db, s) && z.Many? && i <= |z.elems|
    ensures KeptBut(st.db, AppendFrom(sch, depth, st, s, z, ForceCreate, i).st.db, s)
    decreases depth, z, 2, |z.elems| - i
  {
    hide Valid, KeysDistinct, Evolves, Append, Unbox;
    if i < |z.elems| {
      var kind := sch[s.t].props[s.c].kind;
      CellOk(sch, st.db, s);
      ForceUnboxKeeps(sch, depth, st, kind, z.elems[i], None);
      AppendExact(sch, depth, st, s, z.elems[i], ForceCreate);
      var step := Append(sch, depth, st, s, z.elems[i], ForceCreate);
      if step.out.Done? {
        ForceAppendKeeps(sch, depth, step.st, s, z, i + 1);
      }
    }
  }

  // ----- New rows -----

  // Every object of v, from row r on down, lies in a row that base did not have.
  ghost predicate FreshObject(sch: Schema, db: Db, base: seq<nat>, t: nat, r: nat, v: Value)
    decreases v, 1
  {
    && t < |sch| && t < |base| && base[t] <= r && v.Object?
    && forall c | 0 <= c < |sch[t].props| && v.Field(c).Some? && Slot(t, r, c) in db.cells ::
         FreshCell(sch, db, base, sch[t].props[c].kind, v.Field(c).value, db.cells[Slot(t, r, c)])
  }

  ghost predicate FreshCell(sch: Schema, db: Db, base: seq<nat>, kind: Kind, z: Value, cell: Cell)
    decreases z, 3
  {
    match kind
    case LinkKind(u) => z.Object? ==> cell.Link? && cell.to.Some? && FreshObject(sch, db, base, u, cell.to.value, z)
    case LinkListKind(u) =>
      z.Many? ==>
        && cell.List? && |cell.items| == |z.elems|
        && forall i | 0 <= i < |z.elems| :: FreshItem(sch, db, base, u, z.elems[i], cell.items[i])
    case _ => true
  }

  ghost predicate FreshItem(sch: Schema, db: Db, base: seq<nat>, u: nat, z: Value, x: Item)
    decreases z, 2
  {
    z.Object? ==> x.Row? && FreshObject(sch, db, base, u, x.r, z)
  }

  // The rows from base on are kept.
  ghost predicate KeptAbove(a: Db, b: Db, base: seq<nat>) {
    forall s | s in a.cells && s.t < |base| && base[s.t] <= s.r :: s in b.cells && b.cells[s] == a.cells[s]
  }

  ghost predicate AtMost(a: seq<nat>, b: seq<nat>) {
    |a| == |b| && forall i | 0 <= i < |a| :: a[i] <= b[i]
  }

  // Objects in new rows stay stored while those rows are kept.
  lemma {:induction false} CarryObject(sch: Schema, a: Db, b: Db, base: seq<nat>, t: nat, r: nat, v: Value)
    requires Valid(sch, a) && Evolves(sch, a, b) && KeptAbove(a, b, base)
    requires Stored(sch, a, t, r, v) && FreshObject(sch, a, base, t, r, v)
    ensures Stored(sch, b, t, r, v) && FreshObject(sch, b, base, t, r, v)
    decreases v, 1
  {
    hide KeysDistinct;
    if Keyed(sch, t) {
      KeyOk(sch, a, t, r);
      KeyOk(sch, b, t, r);
    }
    forall c | 0 <= c < |sch[t].props| && v.Field(c).Some?
      ensures Slot(t, r, c) in b.cells && b.cells[Slot(t, r, c)] == a.cells[Slot(t, r, c)]
      ensures sch[t].primary != Some(c) ==> StoredColumn(sch, b, t, r, c, v.Field(c).value)
      ensures FreshCell(sch, b, base, sch[t].props[c].kind, v.Field(c).value, b.cells[Slot(t, r, c)])
    {
      CellOk(sch, a, Slot(t, r, c));
      if sch[t].primary != Some(c) {
        assert StoredColumn(sch, a, t, r, c, v.Field(c).value);
        CarryCell(sch, a, b, base, sch[t].props[c], v.Field(c).value, a.cells[Slot(t, r, c)]);
      }
    }
  }

  lemma {:induction false} CarryCell(sch: Schema, a: Db, b: Db, base: seq<nat>, p: Property, z: Value, cell: Cell)
    requires Valid(sch, a) && Evolves(sch, a, b) && KeptAbove(a, b, base)
    requires StoredCell(sch, a, p, z, cell) && FreshCell(sch, a, base, p.kind, z, cell)
    ensures StoredCell(sch, b, p, z, cell) && FreshCell(sch, b, base, p.kind, z, cell)
    decreases z, 3
  {
    hide KeysDistinct, Valid, KeptAbove;
    match p.kind
    case LinkKind(u) =>
      if !z.Null? {
        CarryItem(sch, a, b, base, p.kind, z, Row(cell.to.value));
      }
    case LinkListKind(u) =>
      if z.Many? {
        forall i | 0 <= i < |z.elems|
          ensures StoredItem(sch, b, p.kind, z.elems[i], cell.items[i])
                  && FreshItem(sch, b, base, u, z.elems[i], cell.items[i])
        {
          assert StoredItem(sch, a, p.kind, z.elems[i], cell.items[i]);
          CarryItem(sch, a, b, base, p.kind, z.elems[i], cell.items[i]);
        }
      }
    case ScalarListKind(_) =>
      if z.Many? {
        forall i | 0 <= i < |z.elems|
          ensures StoredItem(sch, b, p.kind, z.elems[i], cell.items[i])
        {
          assert StoredItem(sch, a, p.kind, z.elems[i], cell.items[i]);
        }
      }
    case _ =>
  }

  lemma {:induction false} CarryItem(sch: Schema, a: Db, b: Db, base: seq<nat>, kind: Kind, z: Value, x: Item)
    requires Valid(sch, a) && Evolves(sch, a, b) && KeptAbove(a, b, base)
    requires StoredItem(sch, a, kind, z, x) && (kind.HasTarget() ==> FreshItem(sch, a, base, kind.target, z, x))
    ensures StoredItem(sch, b, kind, z, x) && (kind.HasTarget() ==> FreshItem(sch, b, base, kind.target, z, x))
    decreases z, 2
  {
    hide KeysDistinct, Valid;
    if kind.HasTarget() && z.Object? {
      CarryObject(sch, a, b, base, kind.target, x.r, z);
    }
  }

  // What is new to more rows is new to fewer.
  lemma {:induction false} LowerObject(sch: Schema, db: Db, base: seq<nat>, low: seq<nat>, t: nat, r: nat, v: Value)
    requires AtMost(low, base) && FreshObject(sch, db, base, t, r, v)
    ensures FreshObject(sch, db, low, t, r, v)
    decreases v, 1
  {
    forall c | 0 <= c < |sch[t].props| && v.Field(c).Some? && Slot(t, r, c) in db.cells
      ensures FreshCell(sch, db, low, sch[t].props[c].kind, v.Field(c).value, db.cells[Slot(t, r, c)])
    {
      LowerCell(sch, db, base, low, sch[t].props[c].kind, v.Field(c).value, db.cells[Slot(t, r, c)]);
    }
  }

  lemma {:induction false} LowerCell(sch: Schema, db: Db, base: seq<nat>, low: seq<nat>, kind: Kind, z: Value,
                                     cell: Cell)
    requires AtMost(low, base) && FreshCell(sch, db, base, kind, z, cell)
    ensures FreshCell(sch, db, low, kind, z, cell)
    decreases z, 3
  {
    if kind.LinkKind? && z.Object? {
      LowerObject(sch, db, base, low, kind.target, cell.to.value, z);
    } else if kind.LinkListKind? && z.Many? {
      forall i | 0 <= i < |z.elems|
        ensures FreshItem(sch, db, low, kind.target, z.elems[i], cell.items[i])
      {
        assert FreshItem(sch, db, base, kind.target, z.elems[i], cell.items[i]);
        if z.elems[i].Object? {
          LowerObject(sch, db, base, low, kind.target, cell.items[i].r, z.elems[i]);
        }
      }
    }
  }

  // ----- What was put in can be read back -----

  lemma {:induction false} ForceStores(sch: Schema, depth: nat, st: State, t: nat, v: Value, current: Option<nat>)
    requires Valid(sch, st.db) && t < |sch| && (current.Some? ==> HasRow(st.db, t, current.value))
    requires Create(sch, depth, st, t, v, ForceCreate, current).out.Done?
    ensures var res := Create(sch, depth, st, t, v, ForceCreate, current);
            Stored(sch, res.st.db, t, res.out.value, v) && FreshObject(sch, res.st.db, st.db.rows, t, res.out.value, v)
    decreases depth, v, 3, 0
  {
    hide KeysDistinct, Valid, Populate, StoredColumn, FreshCell;
    ForceRow(sch, st, t, v, current);
    var got := GetOrCreateRow(sch, st, t, v, ForceCreate, current);
    var r := got.out.value.row;
    var res := Populate(sch, depth, got.st, t, r, v, true, ForceCreate, 0);
    ForcePopulateStores(sch, depth, got.st, t, r, v, true, 0);
    ForceKey(sch, st, t, v, current, res.st.db);
    forall c | 0 <= c < |sch[t].props| && v.Field(c).Some? && Slot(t, r, c) in res.st.db.cells
      ensures FreshCell(sch, res.st.db, st.db.rows, sch[t].props[c].kind, v.Field(c).value,
              res.st.db.cells[Slot(t, r, c)])
    {
      if sch[t].primary == Some(c) {
        KeyColumn(sch, res.st.db, st.db.rows, t, c, v.Field(c).value, res.st.db.cells[Slot(t, r, c)]);
      } else {
        LowerCell(sch, res.st.db, got.st.db.rows, st.db.rows, sch[t].props[c].kind, v.Field(c).value,
            res.st.db.cells[Slot(t, r, c)]);
      }
    }
  }

  lemma {:induction false} KeyColumn(sch: Schema, db: Db, base: seq<nat>, t: nat, c: nat, z: Value, cell: Cell)
    requires Valid(sch, db) && t < |sch| && sch[t].primary == Some(c)
    ensures c < |sch[t].props| && FreshCell(sch, db, base, sch[t].props[c].kind, z, cell)
  {
  }

  // The new row has the key of the value and keeps it.
  lemma {:induction false} ForceKey(sch: Schema, st: State, t: nat, v: Value, current: Option<nat>, db: Db)
    requires Valid(sch, st.db) && t < |sch| && v.Object? && (current.Some? ==> HasRow(st.db, t, current.value))
    requires GetOrCreateRow(sch, st, t, v, ForceCreate, current).out.Done?
    requires Evolves(sch, GetOrCreateRow(sch, st, t, v, ForceCreate, current).st.db, db)
    ensures var r := GetOrCreateRow(sch, st, t, v, ForceCreate, current).out.value.row;
            HasRow(db, t, r) && KeyHolds(sch, db, t, r, v)
  {
    hide KeysDistinct;
    var got := GetOrCreateRow(sch, st, t, v, ForceCreate, current);
    if Keyed(sch, t) {
      AddRowKey(sch, st, t, KeyOf(sch[t], v).value);
      KeyOk(sch, got.st.db, t, got.out.value.row);
    }
  }

  // Every column from i on holds its part of v; row r itself is not among the
  // new rows below it.
  lemma {:induction false} ForcePopulateStores(sch: Schema, depth: nat, st: State, t: nat, r: nat, v: Value,
                                               created: bool, i: nat)
    requires Valid(sch, st.db) && t < |sch| && HasRow(st.db, t, r) && v.Object? && i <= |sch[t].props|
    requires Populate(sch, depth, st, t, r, v, created, ForceCreate, i).out.Done?
    ensures var db := Populate(sch, depth, st, t, r, v, created, ForceCreate, i).st.db;
            forall c | i <= c < |sch[t].props| && sch[t].primary != Some(c) && v.Field(c).Some? ::
              && StoredColumn(sch, db, t, r, c, v.Field(c).value)
              && FreshCell(sch, db, st.db.rows, sch[t].props[c].kind, v.Field(c).value, db.cells[Slot(t, r, c)])
    decreases depth, v, 2, |sch[t].props| - i
  {
    hide Valid, KeysDistinct, PopulateOne, StoredCell, FreshCell;
    if i < |sch[t].props| {
      var step := PopulateOne(sch, depth, st, t, r, v, created, ForceCreate, i);
      var db := Populate(sch, depth, step.st, t, r, v, created, ForceCreate, i + 1).st.db;
      ForcePopulateStores(sch, depth, step.st, t, r, v, created, i + 1);
      ForcePopulateKeeps(sch, depth, step.st, t, r, v, created, i + 1);
      Grown(sch, st.db, step.st.db);
      forall c | i <= c < |sch[t].props| && sch[t].primary != Some(c) && v.Field(c).Some?
        ensures StoredColumn(sch, db, t, r, c, v.Field(c).value)
        ensures FreshCell(sch, db, st.db.rows, sch[t].props[c].kind, v.Field(c).value, db.cells[Slot(t, r, c)])
      {
        if c == i {
          ForceOneStores(sch, depth, st, t, r, v, created, i);
          CarryCell(sch, step.st.db, db, st.db.rows, sch[t].props[c], v.Field(c).value,
              step.st.db.cells[Slot(t, r, c)]);
        } else {
          LowerCell(sch, db, step.st.db.rows, st.db.rows, sch[t].props[c].kind, v.Field(c).value,
              db.cells[Slot(t, r, c)]);
        }
      }
    }
  }

  lemma {:induction false} Grown(sch: Schema, a: Db, b: Db)
    requires Valid(sch, a) && Evolves(sch, a, b)
    ensures |a.rows| == |sch| && AtMost(a.rows, b.rows)
  {
  }

  lemma {:induction false} ForceOneStores(sch: Schema, depth: nat, st: State, t: nat, r: nat, v: Value, created: bool,
                                          i: nat)
    requires Valid(sch, st.db) && t < |sch| && HasRow(st.db, t, r) && v.Object? && i < |sch[t].props|
    requires sch[t].primary != Some(i) && v.Field(i).Some?
    requires PopulateOne(sch, depth, st, t, r, v, created, ForceCreate, i).out.Done?
    ensures var db := PopulateOne(sch, depth, st, t, r, v, created, ForceCreate, i).st.db;
            && StoredColumn(sch, db, t, r, i, v.Field(i).value)
            && FreshCell(sch, db, st.db.rows, sch[t].props[i].kind, v.Field(i).value, db.cells[Slot(t, r, i)])
    decreases depth, v, 1, 0
  {
    hide KeysDistinct, Evolves, SetProperty, StoredCell, FreshCell;
    ForceSetStores(sch, depth, st, Slot(t, r, i), v.Field(i).value);
  }

  lemma {:induction false} ForceSetStores(sch: Schema, depth: nat, st: State, s: Slot, z: Value)
    requires s.t < |sch| && Here(sch, st.db, s.t, s.r, s.c)
    requires SetProperty(sch, depth, st, s.t, s.r, s.c, z, ForceCreate, false).out.Done?
    ensures var db := SetProperty(sch, depth, st, s.t, s.r, s.c, z, ForceCreate, false).st.db;
            && StoredColumn(sch, db, s.t, s.r, s.c, z)
            && FreshCell(sch, db, st.db.rows, sch[s.t].props[s.c].kind, z, db.cells[s])
    decreases depth, z, 5, 0
  {
    hide KeysDistinct, UpdateLink, Assign;
    CellOk(sch, st.db, s);
    var p := sch[s.t].props[s.c];
    if p.nullable && z.Null? {
    } else if p.kind.LinkKind? {
      ForceLinkStores(sch, depth, st, s, z);
    } else if p.kind.IsArray() && z.Many? {
      ForceListStores(sch, depth, st, s, z);
    } else if p.kind.IsArray() {
      ForceNoElements(sch, depth, st, s, z);
    }
  }

  // Null clears the list, and the list itself leaves it alone.
  lemma {:induction false} ForceNoElements(sch: Schema, depth: nat, st: State, s: Slot, z: Value)
    requires s.t < |sch| && ListHere(sch, st.db, s) && !z.Many?
    requires Assign(sch, depth, st, s.t, s.r, s.c, z, ForceCreate).out.Done?
    ensures var db := Assign(sch, depth, st, s.t, s.r, s.c, z, ForceCreate).st.db;
            && StoredColumn(sch, db, s.t, s.r, s.c, z)
            && FreshCell(sch, db, st.db.rows, sch[s.t].props[s.c].kind, z, db.cells[s])
  {
    hide KeysDistinct, AppendFrom;
    CellOk(sch, st.db, s);
  }

  lemma {:induction false} ForceListStores(sch: Schema, depth: nat, st: State, s: Slot, z: Value)
    requires s.t < |sch| && ListHere(sch, st.db, s) && z.Many?
    requires Assign(sch, depth, st, s.t, s.r, s.c, z, ForceCreate).out.Done?
    ensures var db := Assign(sch, depth, st, s.t, s.r, s.c, z, ForceCreate).st.db;
            && StoredColumn(sch, db, s.t, s.r, s.c, z)
            && FreshCell(sch, db, st.db.rows, sch[s.t].props[s.c].kind, z, db.cells[s])
    decreases depth, z, 4, 1
  {
    hide KeysDistinct, AppendFrom, Valid;
    CellOk(sch, st.db, s);
    var st' := RemoveAll(sch, st, s);
    ForceAppendStores(sch, depth, st', s, z, 0);
    var res := AppendFrom(sch, depth, st', s, z, ForceCreate, 0);
    assert forall k | 0 <= k < |z.elems| ::
        ElementStored(sch, res.st.db, st.db.rows, sch[s.t].props[s.c].kind, z.elems[k], Items(res.st, s)[k]);
  }

  lemma {:induction false} ForceLinkStores(sch: Schema, depth: nat, st: State, s: Slot, z: Value)
    requires s.t < |sch| && Here(sch, st.db, s.t, s.r, s.c) && sch[s.t].props[s.c].kind.LinkKind?
    requires UpdateLink(sch, depth, st, s.t, s.r, s.c, z, ForceCreate).out.Done?
    ensures var db := UpdateLink(sch, depth, st, s.t, s.r, s.c, z, ForceCreate).st.db;
            && StoredColumn(sch, db, s.t, s.r, s.c, z)
            && FreshCell(sch, db, st.db.rows, sch[s.t].props[s.c].kind, z, db.cells[s])
    decreases depth, z, 4, 1
  {
    hide KeysDistinct, Unbox, Valid;
    CellOk(sch, st.db, s);
    var kind := sch[s.t].props[s.c].kind;
    var made := Unbox(sch, depth, st, kind, z, ForceCreate, st.db.cells[s].to);
    ForceUnboxStores(sch, depth, st, kind, z, st.db.cells[s].to);
    ForceUnboxKeeps(sch, depth, st, kind, z, st.db.cells[s].to);
    var db := UpdateLink(sch, depth, st, s.t, s.r, s.c, z, ForceCreate).st.db;
    assert KeptAbove(made.st.db, db, st.db.rows);
    CarryItem(sch, made.st.db, db, st.db.rows, kind, z, made.out.value);
  }

  lemma {:induction false} ForceUnboxStores(sch: Schema, depth: nat, st: State, kind: Kind, z: Value,
                                            current: Option<nat>)
    requires Valid(sch, st.db) && (kind.HasTarget() ==> kind.target < |sch|)
             && (kind.HasTarget() || kind.ScalarListKind?)
    requires kind.HasTarget() && current.Some? ==> HasRow(st.db, kind.target, current.value)
    requires Unbox(sch, depth, st, kind, z, ForceCreate, current).out.Done?
    ensures var made := Unbox(sch, depth, st, kind, z, ForceCreate, current);
            && StoredItem(sch, made.st.db, kind, z, made.out.value)
            && (kind.HasTarget() ==> z.Managed? || z.Object?)
            && (kind.HasTarget() ==> FreshItem(sch, made.st.db, st.db.rows, kind.target, z, made.out.value))
    decreases depth, z, 4, 0
  {
    hide Valid, KeysDistinct, Evolves;
    if kind.HasTarget() && !z.Managed? {
      ForceStores(sch, depth, st, kind.target, z, current);
    }
  }

  // The first i elements are in the list; the rest is appended.
  lemma {:induction false} ForceAppendStores(sch: Schema, depth: nat, st: State, s: Slot, z: Value, i: nat)
    requires s.t < |sch| && ListHere(sch, st.db, s) && z.Many? && i <= |z.elems|
    requires s in st.db.cells && st.db.cells[s].List? && |Items(st, s)| == i
    requires AppendFrom(sch, depth, st, s, z, ForceCreate, i).out.Done?
    ensures var res := AppendFrom(sch, depth, st, s, z, ForceCreate, i);
            && s in res.st.db.cells && res.st.db.cells[s].List? && |Items(res.st, s)| == |z.elems|
            && Items(res.st, s)[..i] == Items(st, s)
            && forall k | i <= k < |z.elems| :: ElementStored(sch, res.st.db, st.db.rows, sch[s.t].props[s.c].kind,
               z.elems[k], Items(res.st, s)[k])
    decreases depth, z, 2, |z.elems| - i
  {
    hide Valid, KeysDistinct, Append, Unbox, ElementStored;
    if i < |z.elems| {
      var kind := sch[s.t].props[s.c].kind;
      ForceElementStores(sch, depth, st, s, z.elems[i]);
      var step := Append(sch, depth, st, s, z.elems[i], ForceCreate);
      var res := AppendFrom(sch, depth, step.st, s, z, ForceCreate, i + 1);
      ForceAppendStores(sch, depth, step.st, s, z, i + 1);
      ForceAppendKeeps(sch, depth, step.st, s, z, i + 1);
      Grown(sch, st.db, step.st.db);
      assert Items(res.st, s)[i] == Items(step.st, s)[i];
      ElementCarried(sch, step.st.db, res.st.db, st.db.rows, kind, z.elems[i], Items(res.st, s)[i], s);
      forall k | i + 1 <= k < |z.elems|
        ensures ElementStored(sch, res.st.db, st.db.rows, kind, z.elems[k], Items(res.st, s)[k])
      {
        ElementLowered(sch, res.st.db, step.st.db.rows, st.db.rows, kind, z.elems[k], Items(res.st, s)[k]);
      }
    }
  }

  ghost predicate ElementStored(sch: Schema, db: Db, base: seq<nat>, kind: Kind, z: Value, x: Item) {
    && Valid(sch, db) && StoredItem(sch, db, kind, z, x)
    && (kind.HasTarget() ==> FreshItem(sch, db, base, kind.target, z, x))
  }

  lemma {:induction false} ElementCarried(sch: Schema, a: Db, b: Db, base: seq<nat>, kind: Kind, z: Value, x: Item,
                                          s: Slot)
    requires Valid(sch, a) && Evolves(sch, a, b) && KeptBut(a, b, s) && s.t < |base| && s.r < base[s.t]
    requires ElementStored(sch, a, base, kind, z, x)
    ensures ElementStored(sch, b, base, kind, z, x)
  {
    hide Valid, KeysDistinct;
    CarryItem(sch, a, b, base, kind, z, x);
  }

  lemma {:induction false} ElementLowered(sch: Schema, db: Db, base: seq<nat>, low: seq<nat>, kind: Kind, z: Value,
                                          x: Item)
    requires ElementStored(sch, db, base, kind, z, x) && AtMost(low, base)
    ensures ElementStored(sch, db, low, kind, z, x)
  {
    hide Valid;
    if kind.HasTarget() && z.Object? {
      LowerObject(sch, db, base, low, kind.target, x.r, z);
    }
  }

  lemma {:induction false} ForceElementStores(sch: Schema, depth: nat, st: State, s: Slot, e: Value)
    requires s.t < |sch| && ListHere(sch, st.db, s) && s in st.db.cells && st.db.cells[s].List?
    requires Append(sch, depth, st, s, e, ForceCreate).out.Done?
    ensures var step := Append(sch, depth, st, s, e, ForceCreate);
            && s in step.st.db.cells && step.st.db.cells[s].List?
            && |Items(step.st, s)| == |Items(st, s)| + 1 && Items(step.st, s)[..|Items(st, s)|] == Items(st, s)
            && ElementStored(sch, step.st.db, st.db.rows, sch[s.t].props[s.c].kind, e,
               Items(step.st, s)[|Items(st, s)|])
    decreases depth, e, 6, 0
  {
    hide Valid, KeysDistinct, Append, Unbox;
    var kind := sch[s.t].props[s.c].kind;
    CellOk(sch, st.db, s);
    ForceUnboxKeeps(sch, depth, st, kind, e, None);
    AppendExact(sch, depth, st, s, e, ForceCreate);
    ForceUnboxStores(sch, depth, st, kind, e, None);
    var made := Unbox(sch, depth, st, kind, e, ForceCreate, None);
    Grown(sch, st.db, made.st.db);
    var cell := List(Items(made.st, s) + [made.out.value]);
    PutEvolves(sch, made.st, s, cell);
    ElementCarried(sch, made.st.db, AfterPut(made.st, s, cell).db, st.db.rows, kind, e, made.out.value, s);
  }

  lemma {:induction false} PutEvolves(sch: Schema, st: State, s: Slot, cell: Cell)
    requires Valid(sch, st.db) && s in st.db.cells && !IsKeySlot(sch, s) && Valid(sch, AfterPut(st, s, cell).db)
    ensures Evolves(sch, st.db, AfterPut(st, s, cell).db)
  {
    hide KeysDistinct;
    assert AfterPut(st, s, cell).db.cells[s] == cell;
    assert AfterPut(st, s, cell) == Put(sch, st, s, cell);
  }
}
