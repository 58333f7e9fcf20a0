// Reading a value back. UpdateModified writes nothing exactly when the tables
// already hold the value, column by column and through every link.
module ReadBack {
  import opened Wrappers
  import opened Store
  import opened Upsert

  ghost predicate KeyHolds(sch: Schema, db: Db, t: nat, r: nat, v: Value)
    requires Valid(sch, db) && t < |sch| && HasRow(db, t, r) && v.Object?
  {
    Keyed(sch, t) ==> KeyOf(sch[t], v) == Done(KeyAt(sch, db, t, r))
  }

  // Row r of table t holds v: its key, and every column that v supplies.
  ghost predicate Stored(sch: Schema, db: Db, t: nat, r: nat, v: Value)
    requires Valid(sch, db)
    decreases v, 1
  {
    && t < |sch| && HasRow(db, t, r) && v.Object?
    && KeyHolds(sch, db, t, r, v)
    && forall c | 0 <= c < |sch[t].props| && sch[t].primary != Some(c) && v.Field(c).Some? ::
         StoredColumn(sch, db, t, r, c, v.Field(c).value)
  }

  ghost predicate StoredColumn(sch: Schema, db: Db, t: nat, r: nat, c: nat, z: Value)
    requires Valid(sch, db) && t < |sch| && c < |sch[t].props|
    decreases z, 4
  {
    Slot(t, r, c) in db.cells && StoredCell(sch, db, sch[t].props[c], z, db.cells[Slot(t, r, c)])
  }

  ghost predicate StoredCell(sch: Schema, db: Db, p: Property, z: Value, cell: Cell)
    requires Valid(sch, db)
    decreases z, 3
  {
    match p.kind
    case ScalarKind(ty) =>
      if z.Null? then p.nullable && cell == One(None)
      else z.Plain? && z.s.Type() == ty && cell == One(Some(z.s))
    case LinkKind(u) =>
      if z.Null? then p.nullable && cell == Link(None)
      else cell.Link? && cell.to.Some? && StoredItem(sch, db, p.kind, z, Row(cell.to.value))
    case BacklinksKind => false
    case _ =>
      && cell.List?
      && (z.Null? || z.SameList? || z.Many?)
      && (z.Null? ==> cell.items == [])
      && (z.Many? ==>
            && |cell.items| == |z.elems|
            && forall i | 0 <= i < |z.elems| :: StoredItem(sch, db, p.kind, z.elems[i], cell.items[i]))
  }

  ghost predicate StoredItem(sch: Schema, db: Db, kind: Kind, z: Value, x: Item)
    requires Valid(sch, db)
    decreases z, 2
  {
    match kind
    case ScalarListKind(ty) => z.Plain? && z.s.Type() == ty && x == Val(z.s)
    case LinkListKind(u) => x.Row? && if z.Managed? then x.r == z.row else Stored(sch, db, u, x.r, z)
    case LinkKind(u) => x.Row? && if z.Managed? then x.r == z.row else Stored(sch, db, u, x.r, z)
    case _ => false
  }

  lemma {:induction false} UniqueKey(sch: Schema, db: Db, t: nat, r: nat)
    requires Valid(sch, db) && KeysDistinct(sch, db) && t < |sch| && Keyed(sch, t) && HasRow(db, t, r)
    ensures FindFirst(sch, db, t, KeyAt(sch, db, t, r)) == Some(r)
  {
    KeyOk(sch, db, t, r);
  }

  // ----- A value that is stored is not written again -----

  lemma {:induction false} StillCreate(sch: Schema, depth: nat, st: State, t: nat, r: nat, v: Value,
                                       current: Option<nat>)
    requires Valid(sch, st.db) && KeysDistinct(sch, st.db) && Stored(sch, st.db, t, r, v)
    requires current.Some? ==> HasRow(st.db, t, current.value)
    requires !Keyed(sch, t) ==> current == Some(r)
    ensures Create(sch, depth, st, t, v, UpdateModified, current) == Res(st, Done(r))
    decreases v, 3, 0
  {
    hide KeysDistinct, Populate, Evolves;
    if Keyed(sch, t) {
      UniqueKey(sch, st.db, t, r);
    }
    StillPopulate(sch, depth, st, t, r, v, 0);
  }

  lemma {:induction false} StillPopulate(sch: Schema, depth: nat, st: State, t: nat, r: nat, v: Value, i: nat)
    requires Valid(sch, st.db) && KeysDistinct(sch, st.db) && Stored(sch, st.db, t, r, v)
    requires t < |sch| && i <= |sch[t].props|
    ensures Populate(sch, depth, st, t, r, v, false, UpdateModified, i) == Res(st, Done(r))
    decreases v, 2, |sch[t].props| - i
  {
    hide KeysDistinct, Valid, Evolves;
    if i < |sch[t].props| {
      StillOne(sch, depth, st, t, r, v, i);
      StillPopulate(sch, depth, st, t, r, v, i + 1);
    }
  }

  lemma {:induction false} StillOne(sch: Schema, depth: nat, st: State, t: nat, r: nat, v: Value, i: nat)
    requires Valid(sch, st.db) && KeysDistinct(sch, st.db) && Stored(sch, st.db, t, r, v)
    requires t < |sch| && i < |sch[t].props|
    ensures PopulateOne(sch, depth, st, t, r, v, false, UpdateModified, i) == Res(st, Done(r))
    decreases v, 1, 0
  {
    hide KeysDistinct;
    var z := v.Field(i);
    if sch[t].primary != Some(i) && z.Some? {
      assert StoredColumn(sch, st.db, t, r, i, z.value);
      StillSet(sch, depth, st, Slot(t, r, i), z.value, false);
    }
  }

  lemma {:induction false} StillSet(sch: Schema, depth: nat, st: State, s: Slot, z: Value, isDefault: bool)
    requires Here(sch, st.db, s.t, s.r, s.c) && KeysDistinct(sch, st.db) && s in st.db.cells
    requires StoredCell(sch, st.db, sch[s.t].props[s.c], z, st.db.cells[s])
    ensures SetProperty(sch, depth, st, s.t, s.r, s.c, z, UpdateModified, isDefault) == Res(st, Done(s.r))
    decreases z, 5, 0
  {
    hide KeysDistinct;
    CellOk(sch, st.db, s);
    var p := sch[s.t].props[s.c];
    if p.kind.LinkKind? && !z.Null? {
      StillUnbox(sch, depth, st, p.kind, z, Row(st.db.cells[s].to.value));
    } else if p.kind.IsArray() && z.Many? {
      StillElements(sch, depth, st, s, z, 0);
    }
  }

  lemma {:induction false} StillUnbox(sch: Schema, depth: nat, st: State, kind: Kind, z: Value, x: Item)
    requires Valid(sch, st.db) && KeysDistinct(sch, st.db) && (kind.HasTarget() ==> kind.target < |sch|)
    requires StoredItem(sch, st.db, kind, z, x)
    requires kind.HasTarget() ==> HasRow(st.db, kind.target, x.r)
    ensures Unbox(sch, depth, st, kind, z, UpdateModified, CurrentRow(x)) == Res(st, Done(x))
    decreases z, 4, 0
  {
    hide KeysDistinct;
    if kind.HasTarget() && !z.Managed? {
      StillCreate(sch, depth, st, kind.target, x.r, z, Some(x.r));
    }
  }

  lemma {:induction false} StillElements(sch: Schema, depth: nat, st: State, s: Slot, z: Value, i: nat)
    requires Valid(sch, st.db) && KeysDistinct(sch, st.db) && s.t < |sch| && ListHere(sch, st.db, s) && s in st.db.cells
             && z.Many?
    requires StoredCell(sch, st.db, sch[s.t].props[s.c], z, st.db.cells[s]) && i <= |z.elems|
    ensures AssignInPlace(sch, depth, st, s, z, |z.elems|, i) == Res(st, Done(s.r))
    decreases z, 2, |z.elems| - i
  {
    hide KeysDistinct, Valid, Evolves;
    CellOk(sch, st.db, s);
    if i < |z.elems| {
      var x := Items(st, s)[i];
      assert ItemFits(sch[s.t].props[s.c].kind, st.db.rows, x);
      assert StoredItem(sch, st.db, sch[s.t].props[s.c].kind, z.elems[i], x);
      StillUnbox(sch, depth, st, sch[s.t].props[s.c].kind, z.elems[i], x);
      SetExact(sch, depth, st, s, z.elems[i], i);
      assert SetIfDifferent(sch, depth, st, s, z.elems[i], i) == Res(st, Done(s.r));
      StillElements(sch, depth, st, s, z, i + 1);
    }
  }

  // ----- A run that writes nothing found the value stored -----

  lemma {:induction false} QuietCreate(sch: Schema, depth: nat, st: State, t: nat, r: nat, v: Value,
                                       current: Option<nat>)
    requires Valid(sch, st.db) && t < |sch| && (current.Some? ==> HasRow(st.db, t, current.value))
    requires Create(sch, depth, st, t, v, UpdateModified, current) == Res(st, Done(r))
    ensures Stored(sch, st.db, t, r, v)
    decreases depth, v, 3, 0
  {
    hide Valid, KeysDistinct, Evolves, StoredColumn, Populate;
    SchemaHere(sch, st.db);
    var got := GetOrCreateRow(sch, st, t, v, UpdateModified, current);
    assert got.st == st && !got.out.value.created;
    if Keyed(sch, t) {
      KeyOk(sch, st.db, t, r);
    }
    QuietPopulate(sch, depth, st, t, r, v, 0);
  }

  lemma {:induction false} SchemaHere(sch: Schema, db: Db)
    requires Valid(sch, db)
    ensures ValidSchema(sch) && |db.rows| == |sch|
  {
  }

  lemma {:induction false} QuietPopulate(sch: Schema, depth: nat, st: State, t: nat, r: nat, v: Value, i: nat)
    requires Valid(sch, st.db) && t < |sch| && HasRow(st.db, t, r) && v.Object? && i <= |sch[t].props|
    requires Populate(sch, depth, st, t, r, v, false, UpdateModified, i) == Res(st, Done(r))
    ensures forall c | i <= c < |sch[t].props| && sch[t].primary != Some(c) && v.Field(c).Some? ::
              StoredColumn(sch, st.db, t, r, c, v.Field(c).value)
    decreases depth, v, 2, |sch[t].props| - i
  {
    hide Valid, KeysDistinct, Evolves, StoredColumn;
    if i < |sch[t].props| {
      var step := PopulateOne(sch, depth, st, t, r, v, false, UpdateModified, i);
      assert step.st == st;
      if sch[t].primary != Some(i) && v.Field(i).Some? {
        QuietSet(sch, depth, st, Slot(t, r, i), v.Field(i).value);
      }
      QuietPopulate(sch, depth, st, t, r, v, i + 1);
    }
  }

  lemma {:induction false} QuietSet(sch: Schema, depth: nat, st: State, s: Slot, z: Value)
    requires s.t < |sch| && Here(sch, st.db, s.t, s.r, s.c)
    requires SetProperty(sch, depth, st, s.t, s.r, s.c, z, UpdateModified, false) == Res(st, Done(s.r))
    ensures StoredColumn(sch, st.db, s.t, s.r, s.c, z)
    decreases depth, z, 5, 0
  {
    hide Valid, KeysDistinct, Evolves;
    SchemaHere(sch, st.db);
    CellOk(sch, st.db, s);
    var p := sch[s.t].props[s.c];
    if p.kind.LinkKind? && !(p.nullable && z.Null?) {
      var current := st.db.cells[s].to;
      var made := Unbox(sch, depth, st, p.kind, z, UpdateModified, current);
      assert made.st == st && current == Some(made.out.value.r);
      QuietUnbox(sch, depth, st, p.kind, z, current, made.out.value);
    } else if p.kind.IsArray() && z.Many? {
      QuietElements(sch, depth, st, s, z, |Items(st, s)|, 0);
    }
  }

  lemma {:induction false} QuietUnbox(sch: Schema, depth: nat, st: State, kind: Kind, z: Value, current: Option<nat>,
                                      x: Item)
    requires Valid(sch, st.db) && (kind.HasTarget() || kind.ScalarListKind?)
    requires kind.HasTarget() ==> kind.target < |sch| && (current.Some? ==> HasRow(st.db, kind.target, current.value))
    requires Unbox(sch, depth, st, kind, z, UpdateModified, current) == Res(st, Done(x))
    ensures StoredItem(sch, st.db, kind, z, x)
    decreases depth, z, 4, 0
  {
    hide Valid, KeysDistinct, Evolves;
    if kind.HasTarget() && !z.Managed? {
      QuietCreate(sch, depth, st, kind.target, x.r, z, current);
    }
  }

  lemma {:induction false} QuietElements(sch: Schema, depth: nat, st: State, s: Slot, z: Value, sz: nat, i: nat)
    requires s.t < |sch| && ListHere(sch, st.db, s) && s in st.db.cells && st.db.cells[s].List? && z.Many?
             && i <= |z.elems|
    requires sz == |Items(st, s)|
    requires AssignInPlace(sch, depth, st, s, z, sz, i) == Res(st, Done(s.r))
    ensures i <= sz ==> |z.elems| == sz
    ensures sz < i ==> |z.elems| == i
    ensures forall k | i <= k < |z.elems| && k < sz ::
            StoredItem(sch, st.db, sch[s.t].props[s.c].kind, z.elems[k], Items(st, s)[k])
    decreases depth, z, 2, |z.elems| - i
  {
    hide Valid, KeysDistinct, Evolves, StoredItem, Unbox;
    var kind := sch[s.t].props[s.c].kind;
    CellOk(sch, st.db, s);
    if i < |z.elems| && i < sz {
      var step := SetIfDifferent(sch, depth, st, s, z.elems[i], i);
      assert step.st == st;
      var x := Items(st, s)[i];
      assert ItemFits(kind, st.db.rows, x);
      var made := Unbox(sch, depth, st, kind, z.elems[i], UpdateModified, CurrentRow(x));
      assert made.st == st && made.out.value == x;
      QuietUnbox(sch, depth, st, kind, z.elems[i], CurrentRow(x), x);
      QuietElements(sch, depth, st, s, z, sz, i + 1);
    }
  }

  // UpdateModified leaves the state alone, and adds nothing to the log,
  // exactly when row r already holds v.
  lemma {:induction false} UnchangedIffStored(sch: Schema, depth: nat, st: State, t: nat, r: nat, v: Value,
                                              current: Option<nat>)
    requires Valid(sch, st.db) && KeysDistinct(sch, st.db) && t < |sch|
    requires current.Some? ==> HasRow(st.db, t, current.value)
    requires !Keyed(sch, t) ==> current == Some(r)
    ensures Create(sch, depth, st, t, v, UpdateModified, current) == Res(st, Done(r)) <==> Stored(sch, st.db, t, r, v)
  {
    hide KeysDistinct, Create, Stored;
    if Stored(sch, st.db, t, r, v) {
      StillCreate(sch, depth, st, t, r, v, current);
    }
    if Create(sch, depth, st, t, v, UpdateModified, current) == Res(st, Done(r)) {
      QuietCreate(sch, depth, st, t, r, v, current);
    }
  }
}
