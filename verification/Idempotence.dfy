// After create under any policy the tables hold the value, and what they hold
// besides is known; running it with UpdateModified a second time on the same value
// writes no slot and adds no row.
//
// A plan lists, before the first run, every object the value (with the default
// values it draws in) will place and the existing row it will land on. The
// plan must say the same about one row wherever it is reached: no key and no
// existing row may be given two different contents.
module Idempotence {
  import opened Wrappers
  import opened Store
  import opened Upsert
  import opened ReadBack

  datatype Visit = Visit(t: nat, v: Value, at: Option<nat>)

  // ----- Plans -----

  // The schema, the tables before the run, the plan (each visit with a rank that
  // falls from every visit to the visits inside it), and the policy of the run.
  datatype World = World(sch: Schema, db: Db, plan: map<Visit, nat>, policy: Policy)

  // What the property loop sets column c to when visit x is carried out first.
  ghost function Supplied(os: ObjectSchema, x: Visit, c: nat): Option<Value>
    requires x.v.Object? && c < |os.props|
  {
    if x.v.Field(c).Some? then x.v.Field(c)
    else if x.at.None? then os.props[c].dflt
    else None
  }

  ghost function OldCell(w: World, x: Visit, c: nat): Cell
    requires x.t < |w.sch| && c < |w.sch[x.t].props|
  {
    if x.at.Some? && Slot(x.t, x.at.value, c) in w.db.cells then w.db.cells[Slot(x.t, x.at.value, c)]
    else EmptyCell(w.sch[x.t].props[c])
  }

  ghost function OldLink(cell: Cell): Option<nat> {
    if cell.Link? then cell.to else None
  }

  ghost function OldItem(cell: Cell, i: nat): Option<nat> {
    if cell.List? && i < |cell.items| then CurrentRow(cell.items[i]) else None
  }

  // The existing row a create of v in table u lands on.
  ghost function Landing(w: World, u: nat, v: Value, current: Option<nat>): Option<nat>
    requires Valid(w.sch, w.db) && u < |w.sch| && v.Object?
  {
    if Keyed(w.sch, u) then
      if KeyOf(w.sch[u], v).Done? then FindFirst(w.sch, w.db, u, KeyOf(w.sch[u], v).value) else None
    else if w.policy == UpdateModified then current
    else None
  }

  ghost predicate Planned(w: World, x: Visit, u: nat, v: Value, current: Option<nat>)
    requires Valid(w.sch, w.db) && u < |w.sch| && x in w.plan
  {
    v.Object? ==>
      var y := Visit(u, v, Landing(w, u, v, current));
      y in w.plan && w.plan[y] < w.plan[x]
  }

  ghost predicate ColumnPlanned(w: World, x: Visit, c: nat)
    requires Valid(w.sch, w.db) && x in w.plan && x.v.Object? && x.t < |w.sch| && c < |w.sch[x.t].props|
  {
    var z := Supplied(w.sch[x.t], x, c);
    z.Some? ==> ValuePlanned(w, x, w.sch[x.t].props[c].kind, z.value, OldCell(w, x, c))
  }

  ghost predicate ValuePlanned(w: World, x: Visit, kind: Kind, z: Value, was: Cell)
    requires Valid(w.sch, w.db) && x in w.plan
  {
    && (kind.LinkKind? && kind.target < |w.sch| ==> Planned(w, x, kind.target, z, OldLink(was)))
    && (kind.LinkListKind? && kind.target < |w.sch| && z.Many? ==>
          forall i | 0 <= i < |z.elems| :: Planned(w, x, kind.target, z.elems[i], OldItem(was, i)))
  }

  ghost predicate VisitOk(w: World, x: Visit)
    requires Valid(w.sch, w.db) && x in w.plan
  {
    && x.t < |w.sch| && x.v.Object?
    && (x.at.Some? ==> HasRow(w.db, x.t, x.at.value))
    && x.at == Landing(w, x.t, x.v, x.at)
    && forall c | 0 <= c < |w.sch[x.t].props| && w.sch[x.t].primary != Some(c) :: ColumnPlanned(w, x, c)
  }

  // Two visits that end up on the same row: the same key, or the same
  // existing row of a table without keys.
  ghost predicate SameRow(sch: Schema, x: Visit, y: Visit) {
    && x.t == y.t && x.t < |sch| && x.v.Object? && y.v.Object?
    && if Keyed(sch, x.t) && sch[x.t].primary.value < |sch[x.t].props|
       && sch[x.t].props[sch[x.t].primary.value].kind.ScalarKind?
       then KeyOf(sch[x.t], x.v).Done? && KeyOf(sch[x.t], x.v) == KeyOf(sch[x.t], y.v)
       else x.at.Some? && x.at == y.at
  }

  ghost predicate Coherent(w: World) {
    forall x, y | x in w.plan && y in w.plan && SameRow(w.sch, x, y) :: x.v == y.v
  }

  ghost predicate PlanOk(w: World) {
    && Valid(w.sch, w.db) && KeysDistinct(w.sch, w.db)
    && (forall x | x in w.plan :: VisitOk(w, x))
    && Coherent(w)
  }

  // ----- What it means that the tables hold a set of values -----

  ghost predicate ItemHolds(kind: Kind, z: Value, x: Item, done: map<RowId, Visit>) {
    match kind
    case ScalarListKind(ty) => z.Plain? && z.s.Type() == ty && x == Val(z.s)
    case LinkListKind(u) => LinkHolds(u, z, x, done)
    case LinkKind(u) => LinkHolds(u, z, x, done)
    case _ => false
  }

  ghost predicate LinkHolds(u: nat, z: Value, x: Item, done: map<RowId, Visit>) {
    && x.Row?
    && (z.Managed? || z.Object?)
    && (z.Managed? ==> x.r == z.row)
    && (z.Object? ==> RowId(u, x.r) in done && done[RowId(u, x.r)].v == z)
  }

  // The cell already is what setting it to z would make it.
  ghost predicate CellHolds(p: Property, z: Value, cell: Cell, done: map<RowId, Visit>) {
    match p.kind
    case ScalarKind(ty) =>
      if z.Null? then p.nullable && cell == One(None)
      else z.Plain? && z.s.Type() == ty && cell == One(Some(z.s))
    case LinkKind(u) =>
      if z.Null? then p.nullable && cell == Link(None)
      else cell.Link? && cell.to.Some? && ItemHolds(p.kind, z, Row(cell.to.value), done)
    case BacklinksKind => false
    case _ =>
      && cell.List?
      && (z.Null? || z.SameList? || z.Many?)
      && (z.Null? ==> cell.items == [])
      && (z.Many? ==>
            && |cell.items| == |z.elems|
            && forall i | 0 <= i < |z.elems| :: ItemHolds(p.kind, z.elems[i], cell.items[i], done))
  }

  // Row (t, r) is as visit x leaves it: its key is that of the value, each column
  // supplied by the value, or by a default in a new row, has what was supplied, and
  // the others are as they were.
  ghost predicate ColumnDone(w: World, db: Db, r: nat, x: Visit, c: nat, done: map<RowId, Visit>)
    requires x.t < |w.sch| && x.v.Object? && c < |w.sch[x.t].props|
  {
    var s, z := Slot(x.t, r, c), Supplied(w.sch[x.t], x, c);
    && s in db.cells
    && (z.Some? ==> CellHolds(w.sch[x.t].props[c], z.value, db.cells[s], done))
    && (z.None? || z.value.SameList? ==> db.cells[s] == OldCell(w, x, c))
  }

  ghost predicate RowDone(w: World, db: Db, r: nat, x: Visit, done: map<RowId, Visit>)
    requires Valid(w.sch, db)
  {
    && x.t < |w.sch| && HasRow(db, x.t, r) && x.v.Object?
    && KeyHolds(w.sch, db, x.t, r, x.v)
    && forall c | 0 <= c < |w.sch[x.t].props| && w.sch[x.t].primary != Some(c) :: ColumnDone(w, db, r, x, c, done)
  }

  // Every row in done that is not being worked on is as its visit leaves it.
  ghost predicate Holds(w: World, db: Db, done: map<RowId, Visit>, open: map<RowId, Visit>)
    requires Valid(w.sch, db)
  {
    forall id | id in done && id !in open :: id.t == done[id].t && RowDone(w, db, id.r, done[id], done)
  }

  // Holding is closed under following links, so each recorded value can be
  // read back from its row.
  lemma {:induction false} HoldsStored(w: World, db: Db, done: map<RowId, Visit>, id: RowId)
    requires Valid(w.sch, db) && Holds(w, db, done, map[]) && id in done
    ensures Stored(w.sch, db, id.t, id.r, done[id].v)
    decreases done[id].v, 1
  {
    hide Valid, KeysDistinct, OldCell;
    var x := done[id];
    assert RowDone(w, db, id.r, x, done);
    forall c | 0 <= c < |w.sch[x.t].props| && w.sch[x.t].primary != Some(c) && x.v.Field(c).Some?
      ensures StoredColumn(w.sch, db, x.t, id.r, c, x.v.Field(c).value)
    {
      assert ColumnDone(w, db, id.r, x, c, done);
      CellHoldsStored(w, db, done, w.sch[x.t].props[c], x.v.Field(c).value, db.cells[Slot(x.t, id.r, c)]);
    }
  }

  lemma {:induction false} CellHoldsStored(w: World, db: Db, done: map<RowId, Visit>, p: Property, z: Value,
                                           cell: Cell)
    requires Valid(w.sch, db) && Holds(w, db, done, map[]) && CellHolds(p, z, cell, done)
    ensures StoredCell(w.sch, db, p, z, cell)
    decreases z, 3
  {
    hide Valid, KeysDistinct, Holds;
    if p.kind.LinkKind? && !z.Null? {
      ItemHoldsStored(w, db, done, p.kind, z, Row(cell.to.value));
    } else if p.kind.IsArray() && z.Many? {
      forall i | 0 <= i < |z.elems|
        ensures StoredItem(w.sch, db, p.kind, z.elems[i], cell.items[i])
      {
        ItemHoldsStored(w, db, done, p.kind, z.elems[i], cell.items[i]);
      }
    }
  }

  lemma {:induction false} ItemHoldsStored(w: World, db: Db, done: map<RowId, Visit>, kind: Kind, z: Value, x: Item)
    requires Valid(w.sch, db) && Holds(w, db, done, map[]) && ItemHolds(kind, z, x, done)
    ensures StoredItem(w.sch, db, kind, z, x)
    decreases z, 2
  {
    hide Valid, KeysDistinct, Holds;
    if kind.HasTarget() && z.Object? {
      HoldsStored(w, db, done, RowId(kind.target, x.r));
    }
  }

  // ----- What holds throughout the first run -----

  // Row id is where visit x takes place.
  ghost predicate Placed(w: World, db: Db, id: RowId, x: Visit)
    requires Valid(w.sch, w.db) && Valid(w.sch, db)
  {
    && x in w.plan && x.t == id.t && id.t < |w.sch| && HasRow(db, id.t, id.r) && x.v.Object?
    && x.at == (if id.r < w.db.rows[id.t] then Some(id.r) else None)
    && KeyHolds(w.sch, db, id.t, id.r, x.v)
  }

  ghost predicate AllPlaced(w: World, db: Db, rows: map<RowId, Visit>)
    requires Valid(w.sch, w.db) && Valid(w.sch, db)
  {
    forall id | id in rows :: Placed(w, db, id, rows[id])
  }

  // Rows that are neither done nor open are as they were, and all new rows are done or open.
  ghost predicate Untouched(w: World, db: Db, done: map<RowId, Visit>, open: map<RowId, Visit>) {
    && (forall s | s in w.db.cells && RowId(s.t, s.r) !in done && RowId(s.t, s.r) !in open ::
          s in db.cells && db.cells[s] == w.db.cells[s])
    && (forall id: RowId | HasRow(db, id.t, id.r) && !HasRow(w.db, id.t, id.r) :: id in done || id in open)
  }

  ghost predicate Inv(w: World, db: Db, done: map<RowId, Visit>, open: map<RowId, Visit>) {
    && PlanOk(w)
    && Valid(w.sch, w.db) && Evolves(w.sch, w.db, db) && Valid(w.sch, db)
    && (w.policy == UpdateModified ==> forall id | id in done :: id !in open)
    && AllPlaced(w, db, done) && AllPlaced(w, db, open)
    && Holds(w, db, done, open)
    && Untouched(w, db, done, open)
  }

  ghost predicate Extends(done: map<RowId, Visit>, done': map<RowId, Visit>) {
    forall id | id in done :: id in done' && done'[id] == done[id]
  }

  // A stretch of the run that leaves the rows in keep alone and only adds to
  // the rows that are done.
  ghost predicate Advances(w: World, a: Db, b: Db, done: map<RowId, Visit>, done': map<RowId, Visit>,
                           open: map<RowId, Visit>, keep: set<RowId>) {
    && Inv(w, b, done', open)
    && Extends(done, done')
    && (forall id | id in open && id in done' :: id in done)
    && (forall s | s in a.cells && RowId(s.t, s.r) in keep :: s in b.cells && b.cells[s] == a.cells[s])
  }

  lemma {:induction false} AdvancesTransitive(w: World, a: Db, b: Db, c: Db, done0: map<RowId, Visit>,
                                              done1: map<RowId, Visit>, done2: map<RowId, Visit>,
                                                  open: map<RowId, Visit>, keep: set<RowId>)
    requires Advances(w, a, b, done0, done1, open, keep) && Advances(w, b, c, done1, done2, open, keep)
    ensures Advances(w, a, c, done0, done2, open, keep)
  {
    hide Inv;
  }

  ghost predicate OtherColumns(a: Db, b: Db, t: nat, r: nat, c: nat) {
    forall k | Slot(t, r, k) in a.cells && k != c ::
        Slot(t, r, k) in b.cells && b.cells[Slot(t, r, k)] == a.cells[Slot(t, r, k)]
  }

  lemma {:induction false} CellHoldsLater(p: Property, z: Value, cell: Cell, done: map<RowId, Visit>,
                                          done': map<RowId, Visit>)
    requires CellHolds(p, z, cell, done)
    requires Extends(done, done')
    ensures CellHolds(p, z, cell, done')
  {
    if p.kind.IsArray() && z.Many? {
      forall i | 0 <= i < |z.elems|
        ensures ItemHolds(p.kind, z.elems[i], cell.items[i], done')
      {
        assert ItemHolds(p.kind, z.elems[i], cell.items[i], done);
      }
    }
  }

  // ----- Starting and finishing a row -----

  lemma {:induction false} OpenExisting(w: World, db: Db, done: map<RowId, Visit>, open: map<RowId, Visit>, x: Visit,
                                        r: nat)
    requires Inv(w, db, done, open) && x in w.plan && x.at == Some(r)
    requires x.t < |w.sch| && x.v.Object? && HasRow(db, x.t, r) && KeyHolds(w.sch, db, x.t, r, x.v)
    requires RowId(x.t, r) !in done && RowId(x.t, r) !in open
    ensures Inv(w, db, done, open[RowId(x.t, r) := x])
    ensures forall c | 0 <= c < |w.sch[x.t].props| ::
            Slot(x.t, r, c) in db.cells && db.cells[Slot(x.t, r, c)] == OldCell(w, x, c)
  {
    hide KeysDistinct, RowDone, Coherent, AllPlaced;
    PlacedNew(w, db, open, x, r);
    assert VisitOk(w, x);
    assert HasRow(w.db, x.t, r);
    forall c | 0 <= c < |w.sch[x.t].props|
      ensures Slot(x.t, r, c) in db.cells && db.cells[Slot(x.t, r, c)] == OldCell(w, x, c)
    {
      CellOk(w.sch, w.db, Slot(x.t, r, c));
    }
  }

  lemma {:induction false} OpenNew(w: World, st: State, done: map<RowId, Visit>, open: map<RowId, Visit>, x: Visit,
                                   key: Option<Scalar>)
    requires Inv(w, st.db, done, open) && x in w.plan && x.at == None
    requires x.t < |w.sch| && x.v.Object? && KeyFits(w.sch[x.t], key)
    requires Keyed(w.sch, x.t) ==> KeyOf(w.sch[x.t], x.v) == Done(key)
    requires Keyed(w.sch, x.t) ==> forall r | 0 <= r < st.db.rows[x.t] :: KeyAt(w.sch, st.db, x.t, r) != key
    ensures var st', id := AddRow(w.sch, st, x.t, key), RowId(x.t, st.db.rows[x.t]);
            && id !in done && id !in open
            && HasRow(st'.db, x.t, st.db.rows[x.t])
            && Advances(w, st.db, st'.db, done, done, open[id := x], open.Keys)
            && forall c | 0 <= c < |w.sch[x.t].props| && w.sch[x.t].primary != Some(c) ::
                 Slot(x.t, id.r, c) in st'.db.cells && st'.db.cells[Slot(x.t, id.r, c)] == OldCell(w, x, c)
  {
    hide KeysDistinct, PlanOk, AllPlaced, Holds, Untouched, Placed;
    var r := st.db.rows[x.t];
    var st' := AddRow(w.sch, st, x.t, key);
    var id := RowId(x.t, r);
    OutOfRange(w, st.db, done, id);
    OutOfRange(w, st.db, open, id);
    AddRowKey(w.sch, st, x.t, key);
    forall s | s in st.db.cells
      ensures s in st'.db.cells && st'.db.cells[s] == st.db.cells[s]
    {
      AddRowAt(w.sch, st, x.t, key, s);
    }
    EvolvesTransitive(w.sch, w.db, st.db, st'.db);
    PlacedLater(w, st.db, st'.db, done);
    PlacedLater(w, st.db, st'.db, open);
    HoldsLater(w, st.db, st'.db, done, open, open[id := x]);
    UntouchedAdd(w, st, done, open, x, key);
    PlacedNew(w, st'.db, open, x, r);
    forall c | 0 <= c < |w.sch[x.t].props| && w.sch[x.t].primary != Some(c)
      ensures Slot(x.t, r, c) in st'.db.cells && st'.db.cells[Slot(x.t, r, c)] == OldCell(w, x, c)
    {
      AddRowAt(w.sch, st, x.t, key, Slot(x.t, r, c));
    }
  }

  lemma {:induction false} OutOfRange(w: World, db: Db, rows: map<RowId, Visit>, id: RowId)
    requires Valid(w.sch, w.db) && Valid(w.sch, db) && AllPlaced(w, db, rows)
    requires !HasRow(db, id.t, id.r)
    ensures id !in rows
  {
    hide Valid, KeyHolds;
  }

  lemma {:induction false} PlacedNew(w: World, db: Db, open: map<RowId, Visit>, x: Visit, r: nat)
    requires PlanOk(w) && Valid(w.sch, db) && AllPlaced(w, db, open) && x in w.plan && x.t < |w.sch| && x.v.Object?
    requires HasRow(db, x.t, r) && KeyHolds(w.sch, db, x.t, r, x.v)
    requires x.at == (if r < w.db.rows[x.t] then Some(r) else None)
    ensures AllPlaced(w, db, open[RowId(x.t, r) := x])
  {
    hide Valid, KeyHolds, KeysDistinct, Coherent;
  }

  lemma {:induction false} UntouchedAdd(w: World, st: State, done: map<RowId, Visit>, open: map<RowId, Visit>, x: Visit,
                                        key: Option<Scalar>)
    requires Valid(w.sch, st.db) && x.t < |w.sch| && KeyFits(w.sch[x.t], key)
    requires Keyed(w.sch, x.t) ==> forall r | 0 <= r < st.db.rows[x.t] :: KeyAt(w.sch, st.db, x.t, r) != key
    requires Untouched(w, st.db, done, open)
    ensures Untouched(w, AddRow(w.sch, st, x.t, key).db, done, open[RowId(x.t, st.db.rows[x.t]) := x])
  {
    hide KeysDistinct, Evolves;
    var st' := AddRow(w.sch, st, x.t, key);
    forall s | s in st.db.cells
      ensures s in st'.db.cells && st'.db.cells[s] == st.db.cells[s]
    {
      AddRowAt(w.sch, st, x.t, key, s);
    }
  }

  lemma {:induction false} PlacedLater(w: World, a: Db, b: Db, rows: map<RowId, Visit>)
    requires Valid(w.sch, w.db) && Valid(w.sch, a) && AllPlaced(w, a, rows) && Evolves(w.sch, a, b)
    ensures AllPlaced(w, b, rows)
  {
    hide KeysDistinct;
    forall id | id in rows
      ensures Placed(w, b, id, rows[id])
    {
      assert Placed(w, a, id, rows[id]);
      if Keyed(w.sch, id.t) {
        KeyOk(w.sch, a, id.t, id.r);
        KeyOk(w.sch, b, id.t, id.r);
      }
    }
  }

  // Rows whose cells stay as they are stay as their visits left them.
  lemma {:induction false} HoldsLater(w: World, a: Db, b: Db, done: map<RowId, Visit>, open: map<RowId, Visit>,
                                      open': map<RowId, Visit>)
    requires Valid(w.sch, a) && Holds(w, a, done, open) && Evolves(w.sch, a, b)
    requires forall id | id in open :: id in open'
    requires forall s | s in a.cells && RowId(s.t, s.r) in done && RowId(s.t, s.r) !in open' ::
               s in b.cells && b.cells[s] == a.cells[s]
    ensures Holds(w, b, done, open')
  {
    hide Valid, KeysDistinct, RowDone;
    forall id | id in done && id !in open'
      ensures id.t == done[id].t && RowDone(w, b, id.r, done[id], done)
    {
      RowLater(w, a, b, id, done[id], done);
    }
  }

  lemma {:induction false} RowLater(w: World, a: Db, b: Db, id: RowId, x: Visit, done: map<RowId, Visit>)
    requires Valid(w.sch, a) && Evolves(w.sch, a, b) && x.t == id.t && RowDone(w, a, id.r, x, done)
    requires forall s | s in a.cells && RowId(s.t, s.r) == id :: s in b.cells && b.cells[s] == a.cells[s]
    ensures RowDone(w, b, id.r, x, done)
  {
    hide KeysDistinct, ColumnDone;
    if Keyed(w.sch, id.t) {
      KeyOk(w.sch, a, id.t, id.r);
      KeyOk(w.sch, b, id.t, id.r);
    }
    forall c | 0 <= c < |w.sch[id.t].props| && w.sch[id.t].primary != Some(c)
      ensures ColumnDone(w, b, id.r, x, c, done)
    {
      assert ColumnDone(w, a, id.r, x, c, done);
      SlotThere(w, a, id.r, x, c, done);
      ColumnLater(w, a, b, id.r, x, c, done, done);
    }
  }

  lemma {:induction false} ColumnLater(w: World, a: Db, b: Db, r: nat, x: Visit, c: nat, done: map<RowId, Visit>,
                                       done': map<RowId, Visit>)
    requires x.t < |w.sch| && x.v.Object? && c < |w.sch[x.t].props| && ColumnDone(w, a, r, x, c, done)
    requires Extends(done, done') && Slot(x.t, r, c) in b.cells
    requires b.cells[Slot(x.t, r, c)] == a.cells[Slot(x.t, r, c)]
    ensures ColumnDone(w, b, r, x, c, done')
  {
    hide CellHolds, OldCell;
    var z := Supplied(w.sch[x.t], x, c);
    if z.Some? {
      CellHoldsLater(w.sch[x.t].props[c], z.value, a.cells[Slot(x.t, r, c)], done, done');
    }
  }

  lemma {:induction false} HoldsMore(w: World, db: Db, done: map<RowId, Visit>, open: map<RowId, Visit>, x: Visit,
                                     r: nat)
    requires Valid(w.sch, db) && RowDone(w, db, r, x, done)
    requires Holds(w, db, done, open[RowId(x.t, r) := x])
    requires RowId(x.t, r) in done ==> done[RowId(x.t, r)] == x
    ensures Holds(w, db, done[RowId(x.t, r) := x], open)
  {
    hide Valid, KeysDistinct, ColumnDone;
    var done' := done[RowId(x.t, r) := x];
    forall id | id in done' && id !in open
      ensures id.t == done'[id].t && RowDone(w, db, id.r, done'[id], done')
    {
      var y := done'[id];
      assert RowDone(w, db, id.r, y, done);
      forall c | 0 <= c < |w.sch[y.t].props| && w.sch[y.t].primary != Some(c)
        ensures ColumnDone(w, db, id.r, y, c, done')
      {
        assert ColumnDone(w, db, id.r, y, c, done);
        SlotThere(w, db, id.r, y, c, done);
        ColumnLater(w, db, db, id.r, y, c, done, done');
      }
    }
  }

  lemma {:induction false} SlotThere(w: World, db: Db, r: nat, x: Visit, c: nat, done: map<RowId, Visit>)
    requires x.t < |w.sch| && x.v.Object? && c < |w.sch[x.t].props| && ColumnDone(w, db, r, x, c, done)
    ensures Slot(x.t, r, c) in db.cells
  {
    hide CellHolds, OldCell;
  }

  lemma {:induction false} Close(w: World, db: Db, done: map<RowId, Visit>, open: map<RowId, Visit>, x: Visit, r: nat)
    requires Inv(w, db, done, open[RowId(x.t, r) := x]) && RowId(x.t, r) !in open
    requires RowDone(w, db, r, x, done) && (RowId(x.t, r) in done ==> done[RowId(x.t, r)] == x)
    ensures Inv(w, db, done[RowId(x.t, r) := x], open)
  {
    hide Valid, KeysDistinct, Holds, Coherent, Placed, RowDone;
    HoldsMore(w, db, done, open, x, r);
    assert Placed(w, db, RowId(x.t, r), open[RowId(x.t, r) := x][RowId(x.t, r)]);
    forall id | id in open
      ensures Placed(w, db, id, open[id])
    {
      assert Placed(w, db, id, open[RowId(x.t, r) := x][id]);
    }
  }

  // A row that is done is worked on once more.
  lemma {:induction false} OpenAgain(w: World, db: Db, done: map<RowId, Visit>, open: map<RowId, Visit>, x: Visit,
                                     r: nat)
    requires Inv(w, db, done, open) && w.policy != UpdateModified
    requires RowId(x.t, r) in done && done[RowId(x.t, r)] == x && RowId(x.t, r) !in open
    ensures Inv(w, db, done, open[RowId(x.t, r) := x])
    ensures RowDone(w, db, r, x, done)
  {
    hide Valid, KeysDistinct, Coherent, Placed, RowDone;
    assert Placed(w, db, RowId(x.t, r), done[RowId(x.t, r)]);
  }

  lemma {:induction false} UntouchedPut(w: World, st: State, done: map<RowId, Visit>, open: map<RowId, Visit>, s: Slot,
                                        cell: Cell)
    requires Valid(w.sch, st.db) && s in st.db.cells && !IsKeySlot(w.sch, s)
    requires CellFits(w.sch[s.t].props[s.c], st.db.rows, cell)
    requires Untouched(w, st.db, done, open) && RowId(s.t, s.r) in open
    ensures Untouched(w, Put(w.sch, st, s, cell).db, done, open)
  {
    hide Valid, KeysDistinct, Evolves;
  }

  lemma {:induction false} PutOpen(w: World, st: State, done: map<RowId, Visit>, open: map<RowId, Visit>, s: Slot,
                                   cell: Cell)
    requires Inv(w, st.db, done, open) && RowId(s.t, s.r) in open
    requires s in st.db.cells && !IsKeySlot(w.sch, s) && CellFits(w.sch[s.t].props[s.c], st.db.rows, cell)
    ensures var db' := Put(w.sch, st, s, cell).db;
            && Advances(w, st.db, db', done, done, open, open.Keys - {RowId(s.t, s.r)})
            && OtherColumns(st.db, db', s.t, s.r, s.c)
            && s in db'.cells && db'.cells[s] == cell
  {
    hide Valid, KeysDistinct, PlanOk, AllPlaced, Holds, Untouched;
    var db' := Put(w.sch, st, s, cell).db;
    UntouchedPut(w, st, done, open, s, cell);
    EvolvesTransitive(w.sch, w.db, st.db, db');
    PlacedLater(w, st.db, db', done);
    PlacedLater(w, st.db, db', open);
    HoldsLater(w, st.db, db', done, open, open);
  }

  // ----- The first run -----

  // All open rows were opened by visits around x.
  ghost predicate Around(w: World, open: map<RowId, Visit>, x: Visit, strictly: bool) {
    x in w.plan && forall id | id in open ::
      open[id] in w.plan && (if strictly then w.plan[x] < w.plan[open[id]] else w.plan[x] <= w.plan[open[id]])
  }

  lemma {:induction false} SameVisit(w: World, db: Db, rows: map<RowId, Visit>, id: RowId, x: Visit)
    requires PlanOk(w) && Valid(w.sch, db) && AllPlaced(w, db, rows) && id in rows && x in w.plan
    requires x.t == id.t && x.t < |w.sch| && x.v.Object? && HasRow(db, id.t, id.r)
             && KeyHolds(w.sch, db, id.t, id.r, x.v)
    requires Keyed(w.sch, x.t) || x.at == Some(id.r)
    ensures rows[id].v == x.v && rows[id] == x
  {
    hide Valid, KeysDistinct;
    var y := rows[id];
    assert Placed(w, db, id, y);
    assert VisitOk(w, x) && VisitOk(w, y);
    if !Keyed(w.sch, x.t) {
      assert y.at == x.at;
    }
    assert ValidSchema(w.sch) by {
      SchemaOk(w.sch, db);
    }
    assert SameRow(w.sch, x, y);
  }

  lemma {:induction false} SchemaOk(sch: Schema, db: Db)
    requires Valid(sch, db)
    ensures ValidSchema(sch) && |db.rows| == |sch|
  {
  }

  // Where a visit lands when its turn comes.
  lemma {:induction false} LandKeyed(w: World, db: Db, done: map<RowId, Visit>, open: map<RowId, Visit>, x: Visit)
    requires Inv(w, db, done, open) && Around(w, open, x, true)
    requires x.t < |w.sch| && x.v.Object? && Keyed(w.sch, x.t) && KeyOf(w.sch[x.t], x.v).Done?
    ensures var found := FindFirst(w.sch, db, x.t, KeyOf(w.sch[x.t], x.v).value);
            && (found.None? ==> x.at == None)
            && (found.Some? ==>
                  var id := RowId(x.t, found.value);
                  && KeyHolds(w.sch, db, x.t, id.r, x.v)
                  && id !in open
                  && (id in done ==> done[id] == x)
                  && (id !in done ==> x.at == Some(id.r)))
  {
    hide Holds, AllPlaced, Untouched, Coherent;
    var key := KeyOf(w.sch[x.t], x.v).value;
    var found := FindFirst(w.sch, db, x.t, key);
    var before := FindFirst(w.sch, w.db, x.t, key);
    assert VisitOk(w, x);
    assert x.at == before;
    if before.Some? {
      StableKey(w.sch, w.db, db, x.t, before.value);
    }
    if found.Some? {
      var id := RowId(x.t, found.value);
      KeyOk(w.sch, db, x.t, id.r);
      if id in open {
        SameVisit(w, db, open, id, x);
        assert false;
      } else if id in done {
        SameVisit(w, db, done, id, x);
      } else {
        OldRow(w, db, done, open, id);
        StableKey(w.sch, w.db, db, x.t, id.r);
        UniqueKey(w.sch, w.db, x.t, id.r);
      }
    }
  }

  lemma {:induction false} StableKey(sch: Schema, a: Db, b: Db, t: nat, r: nat)
    requires Valid(sch, a) && Evolves(sch, a, b) && t < |sch| && Keyed(sch, t) && HasRow(a, t, r)
    ensures HasRow(b, t, r) && KeyAt(sch, b, t, r) == KeyAt(sch, a, t, r)
  {
    KeyOk(sch, a, t, r);
    KeyOk(sch, b, t, r);
  }

  lemma {:induction false} OldRow(w: World, db: Db, done: map<RowId, Visit>, open: map<RowId, Visit>, id: RowId)
    requires Untouched(w, db, done, open) && HasRow(db, id.t, id.r) && id !in done && id !in open
    ensures HasRow(w.db, id.t, id.r)
  {
  }

  lemma {:induction false} LandUnkeyed(w: World, db: Db, done: map<RowId, Visit>, open: map<RowId, Visit>, x: Visit,
                                       r: nat)
    requires Inv(w, db, done, open) && Around(w, open, x, true)
    requires x.t < |w.sch| && x.v.Object? && !Keyed(w.sch, x.t) && x.at == Some(r) && HasRow(db, x.t, r)
    ensures RowId(x.t, r) !in open
    ensures RowId(x.t, r) in done ==> done[RowId(x.t, r)] == x
  {
    hide Holds, AllPlaced, Untouched, Coherent, Valid;
    var id := RowId(x.t, r);
    if id in open {
      SameVisit(w, db, open, id, x);
      assert false;
    } else if id in done {
      SameVisit(w, db, done, id, x);
    }
  }

  lemma {:induction false} VisitCreate(w: World, depth: nat, st: State, done: map<RowId, Visit>,
                                       open: map<RowId, Visit>, x: Visit, current: Option<nat>)
    returns (done': map<RowId, Visit>)
    requires Inv(w, st.db, done, open) && x in w.plan && Around(w, open, x, true) && x.t < |w.sch| && x.v.Object?
    requires current.Some? ==> HasRow(st.db, x.t, current.value)
    requires Valid(w.sch, w.db) && x.at == Landing(w, x.t, x.v, current)
    requires Create(w.sch, depth, st, x.t, x.v, w.policy, current).out.Done?
    ensures var res := Create(w.sch, depth, st, x.t, x.v, w.policy, current);
            && Advances(w, st.db, res.st.db, done, done', open, open.Keys)
            && RowId(x.t, res.out.value) in done' && done'[RowId(x.t, res.out.value)] == x
    decreases depth, x.v, 3, 0
  {
    hide Valid, Evolves, KeysDistinct, PlanOk, AllPlaced, Holds, Untouched, Around, RowDone;
    SchemaOk(w.sch, st.db);
    var got := GetOrCreateRow(w.sch, st, x.t, x.v, w.policy, current);
    var r, created := got.out.value.row, got.out.value.created;
    var id := RowId(x.t, r);
    if Keyed(w.sch, x.t) {
      LandKeyed(w, st.db, done, open, x);
    } else if !created {
      LandUnkeyed(w, st.db, done, open, x, r);
    }
    if !created && id in done && w.policy == UpdateModified {
      SettledHere(w, st, done, open, id);
      StillCreate(w.sch, depth, st, x.t, r, x.v, current);
      done' := done;
    } else {
      var open' := open[id := x];
      if created {
        OpenNew(w, st, done, open, x, if Keyed(w.sch, x.t) then KeyOf(w.sch[x.t], x.v).value else None);
      } else if id in done {
        OpenAgain(w, st.db, done, open, x, r);
        AllDone(w, st.db, done, x, r);
      } else {
        OpenExisting(w, st.db, done, open, x, r);
      }
      AroundOpen(w, open, x, id);
      done' := VisitRow(w, depth, got.st, done, open, x, r, created);
    }
  }

  // The work on one row, from opening it to closing it.
  lemma {:induction false} VisitRow(w: World, depth: nat, st: State, done: map<RowId, Visit>,
                                    open: map<RowId, Visit>, x: Visit, r: nat, created: bool)
    returns (done': map<RowId, Visit>)
    requires var open' := open[RowId(x.t, r) := x];
             Inv(w, st.db, done, open') && x in w.plan && Around(w, open', x, false)
    requires x.t < |w.sch| && x.v.Object? && HasRow(st.db, x.t, r) && RowId(x.t, r) !in open
    requires if RowId(x.t, r) in done then !created && done[RowId(x.t, r)] == x else created == x.at.None?
    requires forall c | 0 <= c < |w.sch[x.t].props| && w.sch[x.t].primary != Some(c) ::
               ColumnDue(w, st.db, r, x, c, done)
    requires Populate(w.sch, depth, st, x.t, r, x.v, created, w.policy, 0).out.Done?
    ensures var db' := Populate(w.sch, depth, st, x.t, r, x.v, created, w.policy, 0).st.db;
            && Advances(w, st.db, db', done, done', open, open.Keys)
            && RowId(x.t, r) in done' && done'[RowId(x.t, r)] == x
    decreases depth, x.v, 2, |w.sch[x.t].props| + 1
  {
    hide Valid, Evolves, KeysDistinct, PlanOk, AllPlaced, Holds, Untouched, Around, RowDone, ColumnDone, ColumnDue,
      Populate;
    var id, open' := RowId(x.t, r), open[RowId(x.t, r) := x];
    done' := VisitPopulate(w, depth, st, done, open', x, r, created, 0);
    var db' := Populate(w.sch, depth, st, x.t, r, x.v, created, w.policy, 0).st.db;
    Finished(w, db', done', open', x, r);
    Close(w, db', done', open, x, r);
    done' := done'[id := x];
  }

  lemma {:induction false} AllDone(w: World, db: Db, done: map<RowId, Visit>, x: Visit, r: nat)
    requires Valid(w.sch, db) && RowDone(w, db, r, x, done)
    ensures forall c | 0 <= c < |w.sch[x.t].props| && w.sch[x.t].primary != Some(c) :: ColumnDone(w, db, r, x, c, done)
  {
    hide Valid, KeysDistinct, ColumnDone;
  }

  lemma {:induction false} SettledHere(w: World, st: State, done: map<RowId, Visit>, open: map<RowId, Visit>, id: RowId)
    requires Inv(w, st.db, done, open) && id in done && forall x | x in done :: x !in open
    ensures KeysDistinct(w.sch, st.db) && Stored(w.sch, st.db, id.t, id.r, done[id].v)
  {
    hide AllPlaced, Untouched, Coherent, Valid, RowDone;
    HoldsStored(w, st.db, done, id);
  }

  lemma {:induction false} AroundOpen(w: World, open: map<RowId, Visit>, x: Visit, id: RowId)
    requires Around(w, open, x, true)
    ensures Around(w, open[id := x], x, false)
  {
  }

  lemma {:induction false} Finished(w: World, db: Db, done: map<RowId, Visit>, open: map<RowId, Visit>, x: Visit,
                                    r: nat)
    requires Inv(w, db, done, open) && RowId(x.t, r) in open && open[RowId(x.t, r)] == x
    requires x.t < |w.sch| && x.v.Object?
    requires forall c | 0 <= c < |w.sch[x.t].props| && w.sch[x.t].primary != Some(c) :: ColumnDone(w, db, r, x, c, done)
    ensures RowDone(w, db, r, x, done)
  {
    hide Valid, Evolves, PlanOk, Holds, Untouched, ColumnDone;
    assert Placed(w, db, RowId(x.t, r), x);
  }

  // Before its turn a column is as it was, or, on a row that is done already, as the
  // visit leaves it.
  ghost predicate ColumnDue(w: World, db: Db, r: nat, x: Visit, c: nat, done: map<RowId, Visit>)
    requires x.t < |w.sch| && x.v.Object? && c < |w.sch[x.t].props|
  {
    if RowId(x.t, r) in done then w.policy != UpdateModified && ColumnDone(w, db, r, x, c, done)
    else Slot(x.t, r, c) in db.cells && db.cells[Slot(x.t, r, c)] == OldCell(w, x, c)
  }

  lemma {:induction false} VisitPopulate(w: World, depth: nat, st: State, done: map<RowId, Visit>,
                                         open: map<RowId, Visit>, x: Visit, r: nat, created: bool, i: nat)
    returns (done': map<RowId, Visit>)
    requires Inv(w, st.db, done, open) && x in w.plan && Around(w, open, x, false)
    requires RowId(x.t, r) in open && open[RowId(x.t, r)] == x
    requires x.t < |w.sch| && x.v.Object? && HasRow(st.db, x.t, r) && i <= |w.sch[x.t].props|
    requires if RowId(x.t, r) in done then !created else created == x.at.None?
    requires forall c | i <= c < |w.sch[x.t].props| && w.sch[x.t].primary != Some(c) ::
               ColumnDue(w, st.db, r, x, c, done)
    requires Populate(w.sch, depth, st, x.t, r, x.v, created, w.policy, i).out.Done?
    ensures var res := Populate(w.sch, depth, st, x.t, r, x.v, created, w.policy, i);
            && Advances(w, st.db, res.st.db, done, done', open, open.Keys - {RowId(x.t, r)})
            && (RowId(x.t, r) in done' <==> RowId(x.t, r) in done)
            && (forall c | 0 <= c < i && Slot(x.t, r, c) in st.db.cells ::
                  Slot(x.t, r, c) in res.st.db.cells && res.st.db.cells[Slot(x.t, r, c)]
                      == st.db.cells[Slot(x.t, r, c)])
            && (forall c | i <= c < |w.sch[x.t].props| && w.sch[x.t].primary != Some(c) ::
                  ColumnDone(w, res.st.db, r, x, c, done'))
    decreases depth, x.v, 2, |w.sch[x.t].props| - i
  {
    hide Valid, KeysDistinct, PlanOk, AllPlaced, Holds, Untouched, Around, ColumnDone, ColumnDue, PopulateOne;
    if i == |w.sch[x.t].props| {
      done' := done;
    } else {
      var keep := open.Keys - {RowId(x.t, r)};
      var done1 := VisitOne(w, depth, st, done, open, x, r, created, i);
      var step := PopulateOne(w.sch, depth, st, x.t, r, x.v, created, w.policy, i);
      forall c | i + 1 <= c < |w.sch[x.t].props| && w.sch[x.t].primary != Some(c)
        ensures ColumnDue(w, step.st.db, r, x, c, done1)
      {
        StillDue(w, st.db, step.st.db, r, x, c, i, done, done1);
      }
      done' := VisitPopulate(w, depth, step.st, done1, open, x, r, created, i + 1);
      var db' := Populate(w.sch, depth, step.st, x.t, r, x.v, created, w.policy, i + 1).st.db;
      AdvancesTransitive(w, st.db, step.st.db, db', done, done1, done', open, keep);
      if w.sch[x.t].primary != Some(i) {
        SlotThere(w, step.st.db, r, x, i, done1);
        ColumnLater(w, step.st.db, db', r, x, i, done1, done');
      }
    }
  }

  lemma {:induction false} StillDue(w: World, a: Db, b: Db, r: nat, x: Visit, c: nat, i: nat, done: map<RowId, Visit>,
                                    done': map<RowId, Visit>)
    requires x.t < |w.sch| && x.v.Object? && c < |w.sch[x.t].props| && ColumnDue(w, a, r, x, c, done) && c != i
    requires OtherColumns(a, b, x.t, r, i) && Extends(done, done')
    requires RowId(x.t, r) in done' <==> RowId(x.t, r) in done
    ensures ColumnDue(w, b, r, x, c, done')
  {
    hide ColumnDone, OldCell;
    if RowId(x.t, r) in done {
      SlotThere(w, a, r, x, c, done);
      ColumnLater(w, a, b, r, x, c, done, done');
    }
  }

  lemma {:induction false} VisitOne(w: World, depth: nat, st: State, done: map<RowId, Visit>, open: map<RowId, Visit>,
                                    x: Visit, r: nat, created: bool, i: nat)
    returns (done': map<RowId, Visit>)
    requires Inv(w, st.db, done, open) && x in w.plan && Around(w, open, x, false)
    requires RowId(x.t, r) in open && open[RowId(x.t, r)] == x
    requires x.t < |w.sch| && x.v.Object? && HasRow(st.db, x.t, r) && i < |w.sch[x.t].props|
    requires if RowId(x.t, r) in done then !created else created == x.at.None?
    requires w.sch[x.t].primary != Some(i) ==> ColumnDue(w, st.db, r, x, i, done)
    requires PopulateOne(w.sch, depth, st, x.t, r, x.v, created, w.policy, i).out.Done?
    ensures var res := PopulateOne(w.sch, depth, st, x.t, r, x.v, created, w.policy, i);
            && Advances(w, st.db, res.st.db, done, done', open, open.Keys - {RowId(x.t, r)})
            && (RowId(x.t, r) in done' <==> RowId(x.t, r) in done)
            && OtherColumns(st.db, res.st.db, x.t, r, i)
            && (w.sch[x.t].primary != Some(i) ==> ColumnDone(w, res.st.db, r, x, i, done'))
    decreases depth, x.v, 1, 0
  {
    hide Valid, KeysDistinct, PlanOk, AllPlaced, Holds, Untouched, Around, CellHolds, OldCell, ValuePlanned;
    var given := x.v.Field(i);
    var p := w.sch[x.t].props[i];
    done' := done;
    if w.sch[x.t].primary != Some(i) {
      ThisColumnPlanned(w, st.db, done, open, x, i);
      if given.Some? {
        done' := VisitSet(w, depth, st, done, open, x, r, i, given.value, false);
      } else if created && p.dflt.Some? {
        done' := VisitSet(w, depth - 1, st, done, open, x, r, i, p.dflt.value, true);
      }
    }
  }

  lemma {:induction false} ThisColumnPlanned(w: World, db: Db, done: map<RowId, Visit>, open: map<RowId, Visit>,
                                             x: Visit, c: nat)
    requires Inv(w, db, done, open) && x in w.plan
    requires x.t < |w.sch| && x.v.Object? && c < |w.sch[x.t].props| && w.sch[x.t].primary != Some(c)
    ensures ColumnPlanned(w, x, c)
  {
    hide Valid, Evolves, KeysDistinct, AllPlaced, Holds, Untouched, Coherent, ColumnPlanned;
    assert VisitOk(w, x);
  }

  lemma {:induction false} VisitSet(w: World, depth: nat, st: State, done: map<RowId, Visit>, open: map<RowId, Visit>,
                                    x: Visit, r: nat, c: nat, z: Value, isDefault: bool)
    returns (done': map<RowId, Visit>)
    requires Inv(w, st.db, done, open) && x in w.plan && Around(w, open, x, false)
    requires RowId(x.t, r) in open && open[RowId(x.t, r)] == x
    requires x.t < |w.sch| && Here(w.sch, st.db, x.t, r, c)
    requires Slot(x.t, r, c) in st.db.cells
    requires w.policy == UpdateModified || isDefault ==> st.db.cells[Slot(x.t, r, c)] == OldCell(w, x, c)
    requires isDefault ==> x.at.None?
    requires ValuePlanned(w, x, w.sch[x.t].props[c].kind, z, OldCell(w, x, c))
    requires SetProperty(w.sch, depth, st, x.t, r, c, z, w.policy, isDefault).out.Done?
    ensures var res := SetProperty(w.sch, depth, st, x.t, r, c, z, w.policy, isDefault);
            && Advances(w, st.db, res.st.db, done, done', open, open.Keys - {RowId(x.t, r)})
            && OtherColumns(st.db, res.st.db, x.t, r, c)
            && Slot(x.t, r, c) in res.st.db.cells
            && CellHolds(w.sch[x.t].props[c], z, res.st.db.cells[Slot(x.t, r, c)], done')
            && (z.SameList? ==> res.st.db.cells[Slot(x.t, r, c)] == st.db.cells[Slot(x.t, r, c)])
    decreases depth, z, 5, 0
  {
    hide Valid, KeysDistinct, PlanOk, AllPlaced, Holds, Untouched, Around, OldCell, ValuePlanned;
    var s := Slot(x.t, r, c);
    var p := w.sch[x.t].props[c];
    var keep := open.Keys - {RowId(x.t, r)};
    done' := done;
    CellOk(w.sch, st.db, s);
    SchemaOk(w.sch, st.db);
    if p.nullable && z.Null? {
      PutOpen(w, st, done, open, s, if p.kind.LinkKind? then Link(None) else One(None));
      if p.kind.LinkKind? && isDefault {
        NoOldLink(w, x, c);
      }
    } else {
      match p.kind
      case BacklinksKind =>
      case ScalarListKind(_) => done' := VisitAssign(w, depth, st, done, open, x, s, z);
      case LinkListKind(_) => done' := VisitAssign(w, depth, st, done, open, x, s, z);
      case LinkKind(_) => done' := VisitLink(w, depth, st, done, open, x, s, z);
      case ScalarKind(_) => PutOpen(w, st, done, open, s, One(Some(z.s)));
    }
  }

  // A new row has no links yet.
  lemma {:induction false} NoOldLink(w: World, x: Visit, c: nat)
    requires x.t < |w.sch| && c < |w.sch[x.t].props| && w.sch[x.t].props[c].kind.LinkKind? && x.at.None?
    ensures OldCell(w, x, c) == Link(None)
  {
  }

  // Except under UpdateModified it makes no difference what was there before.
  lemma {:induction false} PlannedAnyway(w: World, x: Visit, u: nat, z: Value, a: Option<nat>, b: Option<nat>)
    requires Valid(w.sch, w.db) && u < |w.sch| && x in w.plan && Planned(w, x, u, z, a)
    requires w.policy == UpdateModified ==> a == b
    ensures Planned(w, x, u, z, b)
  {
    hide Valid;
  }

  lemma {:induction false} VisitUnbox(w: World, depth: nat, st: State, done: map<RowId, Visit>, open: map<RowId, Visit>,
                                      x: Visit, kind: Kind, z: Value, current: Option<nat>)
    returns (done': map<RowId, Visit>)
    requires Inv(w, st.db, done, open) && x in w.plan && Around(w, open, x, false)
    requires kind.HasTarget() || kind.ScalarListKind?
    requires kind.HasTarget() ==> kind.target < |w.sch| && Planned(w, x, kind.target, z, current)
    requires kind.HasTarget() && current.Some? ==> HasRow(st.db, kind.target, current.value)
    requires Unbox(w.sch, depth, st, kind, z, w.policy, current).out.Done?
    ensures var res := Unbox(w.sch, depth, st, kind, z, w.policy, current);
            && Advances(w, st.db, res.st.db, done, done', open, open.Keys)
            && ItemHolds(kind, z, res.out.value, done')
    decreases depth, z, 4, 0
  {
    hide Valid, KeysDistinct, PlanOk, AllPlaced, Holds, Untouched;
    done' := done;
    if kind.HasTarget() && !z.Managed? {
      var y := Visit(kind.target, z, Landing(w, kind.target, z, current));
      done' := VisitCreate(w, depth, st, done, open, y, current);
    }
  }

  lemma {:induction false} VisitLink(w: World, depth: nat, st: State, done: map<RowId, Visit>, open: map<RowId, Visit>,
                                     x: Visit, s: Slot, z: Value)
    returns (done': map<RowId, Visit>)
    requires Inv(w, st.db, done, open) && x in w.plan && Around(w, open, x, false)
    requires RowId(s.t, s.r) in open && open[RowId(s.t, s.r)] == x
    requires s.t < |w.sch| && x.t == s.t && Here(w.sch, st.db, s.t, s.r, s.c) && w.sch[s.t].props[s.c].kind.LinkKind?
    requires s in st.db.cells && (w.policy == UpdateModified ==> st.db.cells[s] == OldCell(w, x, s.c))
    requires ValuePlanned(w, x, w.sch[s.t].props[s.c].kind, z, OldCell(w, x, s.c))
             && !(w.sch[s.t].props[s.c].nullable && z.Null?)
    requires UpdateLink(w.sch, depth, st, s.t, s.r, s.c, z, w.policy).out.Done?
    ensures var res := UpdateLink(w.sch, depth, st, s.t, s.r, s.c, z, w.policy);
            && Advances(w, st.db, res.st.db, done, done', open, open.Keys - {RowId(s.t, s.r)})
            && OtherColumns(st.db, res.st.db, s.t, s.r, s.c)
            && s in res.st.db.cells && CellHolds(w.sch[s.t].props[s.c], z, res.st.db.cells[s], done')
    decreases depth, z, 4, 1
  {
    hide Valid, KeysDistinct, PlanOk, AllPlaced, Holds, Untouched, Around, OldCell;
    var kind := w.sch[s.t].props[s.c].kind;
    CellOk(w.sch, st.db, s);
    var current := st.db.cells[s].to;
    SchemaOk(w.sch, st.db);
    PlannedAnyway(w, x, kind.target, z, OldLink(OldCell(w, x, s.c)), current);
    done' := VisitUnbox(w, depth, st, done, open, x, kind, z, current);
    var made := Unbox(w.sch, depth, st, kind, z, w.policy, current);
    SchemaOk(w.sch, st.db);
    SchemaOk(w.sch, made.st.db);
    CellOk(w.sch, made.st.db, s);
    PutOpen(w, made.st, done', open, s, Link(Some(made.out.value.r)));
  }

  // ----- Lists in the first run -----

  ghost predicate FirstHold(kind: Kind, elems: seq<Value>, items: seq<Item>, n: nat, done: map<RowId, Visit>) {
    n <= |elems| && n <= |items| && forall k | 0 <= k < n :: ItemHolds(kind, elems[k], items[k], done)
  }

  lemma {:induction false} FirstHoldLater(kind: Kind, elems: seq<Value>, items: seq<Item>, n: nat,
                                          done: map<RowId, Visit>, done': map<RowId, Visit>)
    requires FirstHold(kind, elems, items, n, done) && Extends(done, done')
    ensures FirstHold(kind, elems, items, n, done')
  {
    forall k | 0 <= k < n
      ensures ItemHolds(kind, elems[k], items[k], done')
    {
      assert ItemHolds(kind, elems[k], items[k], done);
    }
  }

  lemma {:induction false} VisitAssign(w: World, depth: nat, st: State, done: map<RowId, Visit>,
                                       open: map<RowId, Visit>, x: Visit, s: Slot, z: Value)
    returns (done': map<RowId, Visit>)
    requires Inv(w, st.db, done, open) && x in w.plan && Around(w, open, x, false)
    requires RowId(s.t, s.r) in open && open[RowId(s.t, s.r)] == x
    requires s.t < |w.sch| && x.t == s.t && ListHere(w.sch, st.db, s)
    requires s in st.db.cells && (w.policy == UpdateModified ==> st.db.cells[s] == OldCell(w, x, s.c))
    requires ValuePlanned(w, x, w.sch[s.t].props[s.c].kind, z, OldCell(w, x, s.c))
    requires Assign(w.sch, depth, st, s.t, s.r, s.c, z, w.policy).out.Done?
    ensures var res := Assign(w.sch, depth, st, s.t, s.r, s.c, z, w.policy);
            && Advances(w, st.db, res.st.db, done, done', open, open.Keys - {RowId(s.t, s.r)})
            && OtherColumns(st.db, res.st.db, s.t, s.r, s.c)
            && s in res.st.db.cells && CellHolds(w.sch[s.t].props[s.c], z, res.st.db.cells[s], done')
            && (z.SameList? ==> res.st.db.cells[s] == st.db.cells[s])
    decreases depth, z, 4, 1
  {
    hide Valid, KeysDistinct, PlanOk, AllPlaced, Holds, Untouched, Around, OldCell, ValuePlanned, ItemHolds;
    CellOk(w.sch, st.db, s);
    done' := done;
    if z.Null? {
      PutOpen(w, st, done, open, s, List([]));
    } else if z.Many? && w.policy == UpdateModified {
      var items := Items(st, s);
      done' := VisitElements(w, depth, st, done, open, x, s, z, items, 0);
    } else if z.Many? {
      PutOpen(w, st, done, open, s, List([]));
      var st' := RemoveAll(w.sch, st, s);
      assert st'.db == Put(w.sch, st, s, List([])).db;
      done' := VisitAppends(w, depth, st', done, open, x, s, z, OldCell(w, x, s.c), 0);
      AdvancesTransitive(w, st.db, st'.db, AppendFrom(w.sch, depth, st', s, z, w.policy, 0).st.db, done, done, done',
                         open, open.Keys - {RowId(s.t, s.r)});
    }
  }

  // The branch of the other policies, which has cleared the list.
  lemma {:induction false} VisitAppends(w: World, depth: nat, st: State, done: map<RowId, Visit>,
                                        open: map<RowId, Visit>, x: Visit, s: Slot, z: Value, was: Cell, i: nat)
    returns (done': map<RowId, Visit>)
    requires Inv(w, st.db, done, open) && x in w.plan && Around(w, open, x, false) && w.policy != UpdateModified
    requires RowId(s.t, s.r) in open && open[RowId(s.t, s.r)] == x
    requires s.t < |w.sch| && x.t == s.t && ListHere(w.sch, st.db, s) && z.Many? && i <= |z.elems|
    requires s in st.db.cells && st.db.cells[s].List? && |Items(st, s)| == i
    requires FirstHold(w.sch[s.t].props[s.c].kind, z.elems, Items(st, s), i, done)
    requires ValuePlanned(w, x, w.sch[s.t].props[s.c].kind, z, was)
    requires AppendFrom(w.sch, depth, st, s, z, w.policy, i).out.Done?
    ensures var res := AppendFrom(w.sch, depth, st, s, z, w.policy, i);
            && Advances(w, st.db, res.st.db, done, done', open, open.Keys - {RowId(s.t, s.r)})
            && OtherColumns(st.db, res.st.db, s.t, s.r, s.c)
            && s in res.st.db.cells && res.st.db.cells[s].List?
            && |Items(res.st, s)| == |z.elems|
            && FirstHold(w.sch[s.t].props[s.c].kind, z.elems, Items(res.st, s), |z.elems|, done')
    decreases depth, z, 2, |z.elems| - i
  {
    hide Valid, KeysDistinct, PlanOk, AllPlaced, Holds, Untouched, Around, OldCell, ItemHolds, Append;
    var kind := w.sch[s.t].props[s.c].kind;
    if i == |z.elems| {
      done' := done;
    } else {
      var keep := open.Keys - {RowId(s.t, s.r)};
      var done1 := VisitAppend(w, depth, st, done, open, x, s, z.elems[i], OldItem(was, i));
      var step := Append(w.sch, depth, st, s, z.elems[i], w.policy);
      FirstHoldLater(kind, z.elems, Items(st, s), i, done, done1);
      done' := VisitAppends(w, depth, step.st, done1, open, x, s, z, was, i + 1);
      var db' := AppendFrom(w.sch, depth, step.st, s, z, w.policy, i + 1).st.db;
      AdvancesTransitive(w, st.db, step.st.db, db', done, done1, done', open, keep);
    }
  }

  lemma {:induction false} VisitAppend(w: World, depth: nat, st: State, done: map<RowId, Visit>,
                                       open: map<RowId, Visit>, x: Visit, s: Slot, e: Value, old_: Option<nat>)
    returns (done': map<RowId, Visit>)
    requires Inv(w, st.db, done, open) && x in w.plan && Around(w, open, x, false)
    requires w.policy == UpdateModified ==> old_ == None
    requires RowId(s.t, s.r) in open && open[RowId(s.t, s.r)] == x
    requires s.t < |w.sch| && x.t == s.t && ListHere(w.sch, st.db, s)
    requires s in st.db.cells && st.db.cells[s].List?
    requires var kind := w.sch[s.t].props[s.c].kind;
             kind.HasTarget() && kind.target < |w.sch| ==> Planned(w, x, kind.target, e, old_)
    requires Append(w.sch, depth, st, s, e, w.policy).out.Done?
    ensures var res := Append(w.sch, depth, st, s, e, w.policy);
            && Advances(w, st.db, res.st.db, done, done', open, open.Keys - {RowId(s.t, s.r)})
            && OtherColumns(st.db, res.st.db, s.t, s.r, s.c)
            && s in res.st.db.cells && res.st.db.cells[s].List?
            && |Items(res.st, s)| == |Items(st, s)| + 1
            && (forall k | 0 <= k < |Items(st, s)| :: Items(res.st, s)[k] == Items(st, s)[k])
            && ItemHolds(w.sch[s.t].props[s.c].kind, e, Items(res.st, s)[|Items(st, s)|], done')
    decreases depth, e, 5, 1
  {
    hide Valid, KeysDistinct, PlanOk, AllPlaced, Holds, Untouched, Around, OldCell, ItemHolds, Planned, Append, Unbox;
    var kind, items := w.sch[s.t].props[s.c].kind, Items(st, s);
    CellOk(w.sch, st.db, s);
    AppendExact(w.sch, depth, st, s, e, w.policy);
    if kind.HasTarget() {
      PlannedAnyway(w, x, kind.target, e, old_, None);
    }
    done' := VisitUnbox(w, depth, st, done, open, x, kind, e, None);
    var made := Unbox(w.sch, depth, st, kind, e, w.policy, None);
    CellOk(w.sch, made.st.db, s);
    PutOpen(w, made.st, done', open, s, List(items + [made.out.value]));
  }

  lemma {:induction false} VisitElements(w: World, depth: nat, st: State, done: map<RowId, Visit>,
                                         open: map<RowId, Visit>, x: Visit, s: Slot, z: Value, was: seq<Item>, i: nat)
    returns (done': map<RowId, Visit>)
    requires Inv(w, st.db, done, open) && x in w.plan && Around(w, open, x, false) && w.policy == UpdateModified
    requires RowId(s.t, s.r) in open && open[RowId(s.t, s.r)] == x
    requires s.t < |w.sch| && x.t == s.t && ListHere(w.sch, st.db, s) && z.Many? && i <= |z.elems|
    requires s in st.db.cells && st.db.cells[s].List?
    requires |Items(st, s)| == (if i < |was| then |was| else i)
    requires forall k | i <= k < |was| :: Items(st, s)[k] == was[k]
    requires FirstHold(w.sch[s.t].props[s.c].kind, z.elems, Items(st, s), i, done)
    requires ValuePlanned(w, x, w.sch[s.t].props[s.c].kind, z, List(was))
    requires AssignInPlace(w.sch, depth, st, s, z, |was|, i).out.Done?
    ensures var res := AssignInPlace(w.sch, depth, st, s, z, |was|, i);
            && Advances(w, st.db, res.st.db, done, done', open, open.Keys - {RowId(s.t, s.r)})
            && OtherColumns(st.db, res.st.db, s.t, s.r, s.c)
            && s in res.st.db.cells && res.st.db.cells[s].List?
            && |Items(res.st, s)| == |z.elems|
            && FirstHold(w.sch[s.t].props[s.c].kind, z.elems, Items(res.st, s), |z.elems|, done')
    decreases depth, z, 2, |z.elems| - i
  {
    hide Valid, KeysDistinct, PlanOk, AllPlaced, Holds, Untouched, Around, OldCell, ItemHolds, SetIfDifferent, Append,
      Trim;
    var kind := w.sch[s.t].props[s.c].kind;
    if i == |z.elems| {
      done' := done;
      TrimExact(w.sch, st, s, i, |was|);
      VisitTrim(w, st, done, open, s, i);
      assert Trim(w.sch, st, s, i, |was|).st.db == Put(w.sch, st, s, List(Items(st, s)[..i])).db;
    } else {
      var keep := open.Keys - {RowId(s.t, s.r)};
      var done1 := VisitElement(w, depth, st, done, open, x, s, z.elems[i], was, i);
      var step := if i < |was| then SetIfDifferent(w.sch, depth, st, s, z.elems[i], i)
                  else Append(w.sch, depth, st, s, z.elems[i], UpdateModified);
      FirstHoldLater(kind, z.elems, Items(st, s), i, done, done1);
      done' := VisitElements(w, depth, step.st, done1, open, x, s, z, was, i + 1);
      var db' := AssignInPlace(w.sch, depth, step.st, s, z, |was|, i + 1).st.db;
      AdvancesTransitive(w, st.db, step.st.db, db', done, done1, done', open, keep);
    }
  }

  lemma {:induction false} VisitTrim(w: World, st: State, done: map<RowId, Visit>, open: map<RowId, Visit>, s: Slot,
                                     n: nat)
    requires Inv(w, st.db, done, open) && RowId(s.t, s.r) in open
    requires ListHere(w.sch, st.db, s) && s in st.db.cells && st.db.cells[s].List? && n <= |Items(st, s)|
    ensures CellFits(w.sch[s.t].props[s.c], st.db.rows, List(Items(st, s)[..n]))
    ensures var db' := Put(w.sch, st, s, List(Items(st, s)[..n])).db;
            && Advances(w, st.db, db', done, done, open, open.Keys - {RowId(s.t, s.r)})
            && OtherColumns(st.db, db', s.t, s.r, s.c)
            && s in db'.cells && db'.cells[s] == List(Items(st, s)[..n])
  {
    hide Inv;
    CellOk(w.sch, st.db, s);
    PutOpen(w, st, done, open, s, List(Items(st, s)[..n]));
  }

  lemma {:induction false} VisitElement(w: World, depth: nat, st: State, done: map<RowId, Visit>,
                                        open: map<RowId, Visit>, x: Visit, s: Slot, e: Value, was: seq<Item>, i: nat)
    returns (done': map<RowId, Visit>)
    requires Inv(w, st.db, done, open) && x in w.plan && Around(w, open, x, false) && w.policy == UpdateModified
    requires RowId(s.t, s.r) in open && open[RowId(s.t, s.r)] == x
    requires s.t < |w.sch| && x.t == s.t && ListHere(w.sch, st.db, s)
    requires s in st.db.cells && st.db.cells[s].List?
    requires |Items(st, s)| == (if i < |was| then |was| else i)
    requires forall k | i <= k < |was| :: Items(st, s)[k] == was[k]
    requires var kind := w.sch[s.t].props[s.c].kind;
             kind.HasTarget() && kind.target < |w.sch| ==> Planned(w, x, kind.target, e, OldItem(List(was), i))
    requires (if i < |was| then SetIfDifferent(w.sch, depth, st, s, e, i)
             else Append(w.sch, depth, st, s, e, UpdateModified)).out.Done?
    ensures var res := if i < |was| then SetIfDifferent(w.sch, depth, st, s, e, i)
            else Append(w.sch, depth, st, s, e, UpdateModified);
            && Advances(w, st.db, res.st.db, done, done', open, open.Keys - {RowId(s.t, s.r)})
            && OtherColumns(st.db, res.st.db, s.t, s.r, s.c)
            && s in res.st.db.cells && res.st.db.cells[s].List?
            && |Items(res.st, s)| == (if i + 1 < |was| then |was| else i + 1)
            && (forall k | 0 <= k < |Items(st, s)| && k != i :: Items(res.st, s)[k] == Items(st, s)[k])
            && ItemHolds(w.sch[s.t].props[s.c].kind, e, Items(res.st, s)[i], done')
    decreases depth, e, 6, 0
  {
    hide Valid, KeysDistinct, PlanOk, AllPlaced, Holds, Untouched, Around, OldCell, ItemHolds, Planned, SetIfDifferent,
      Append, Unbox;
    if i < |was| {
      done' := VisitReplace(w, depth, st, done, open, x, s, e, i);
    } else {
      done' := VisitAppend(w, depth, st, done, open, x, s, e, None);
    }
  }

  lemma {:induction false} VisitReplace(w: World, depth: nat, st: State, done: map<RowId, Visit>,
                                        open: map<RowId, Visit>, x: Visit, s: Slot, e: Value, i: nat)
    returns (done': map<RowId, Visit>)
    requires Inv(w, st.db, done, open) && x in w.plan && Around(w, open, x, false) && w.policy == UpdateModified
    requires RowId(s.t, s.r) in open && open[RowId(s.t, s.r)] == x
    requires s.t < |w.sch| && x.t == s.t && ListHere(w.sch, st.db, s)
    requires s in st.db.cells && st.db.cells[s].List? && i < |Items(st, s)|
    requires var kind := w.sch[s.t].props[s.c].kind;
             kind.HasTarget() && kind.target < |w.sch| ==> Planned(w, x, kind.target, e, CurrentRow(Items(st, s)[i]))
    requires SetIfDifferent(w.sch, depth, st, s, e, i).out.Done?
    ensures var res := SetIfDifferent(w.sch, depth, st, s, e, i);
            && Advances(w, st.db, res.st.db, done, done', open, open.Keys - {RowId(s.t, s.r)})
            && OtherColumns(st.db, res.st.db, s.t, s.r, s.c)
            && s in res.st.db.cells && res.st.db.cells[s].List?
            && |Items(res.st, s)| == |Items(st, s)|
            && (forall k | 0 <= k < |Items(st, s)| && k != i :: Items(res.st, s)[k] == Items(st, s)[k])
            && ItemHolds(w.sch[s.t].props[s.c].kind, e, Items(res.st, s)[i], done')
    decreases depth, e, 5, 1
  {
    hide Valid, KeysDistinct, PlanOk, AllPlaced, Holds, Untouched, Around, OldCell, ItemHolds, Planned, SetIfDifferent,
      Unbox;
    var kind, items := w.sch[s.t].props[s.c].kind, Items(st, s);
    CellOk(w.sch, st.db, s);
    assert ItemFits(kind, st.db.rows, items[i]);
    SetExact(w.sch, depth, st, s, e, i);
    done' := VisitUnbox(w, depth, st, done, open, x, kind, e, CurrentRow(items[i]));
    var made := Unbox(w.sch, depth, st, kind, e, UpdateModified, CurrentRow(items[i]));
    CellOk(w.sch, made.st.db, s);
    PutOpen(w, made.st, done', open, s, List(items[i := made.out.value]));
  }

  // ----- Main results -----

  // After the run the row it returns holds the value: what was put in can be read
  // back, at every depth.
  lemma {:induction false} CreateStores(w: World, depth: nat, log: seq<Event>, x: Visit, current: Option<nat>)
    requires PlanOk(w) && x in w.plan && x.t < |w.sch| && x.v.Object?
    requires current.Some? ==> HasRow(w.db, x.t, current.value)
    requires Valid(w.sch, w.db) && x.at == Landing(w, x.t, x.v, current)
    requires Create(w.sch, depth, State(w.db, log), x.t, x.v, w.policy, current).out.Done?
    ensures var res := Create(w.sch, depth, State(w.db, log), x.t, x.v, w.policy, current);
            Stored(w.sch, res.st.db, x.t, res.out.value, x.v)
  {
    hide Valid, KeysDistinct, PlanOk, Coherent, VisitOk, Evolves, Create, Stored, Landing;
    InvAtStart(w);
    var res := Create(w.sch, depth, State(w.db, log), x.t, x.v, w.policy, current);
    var done := VisitCreate(w, depth, State(w.db, log), map[], map[], x, current);
    SettledHere(w, res.st, done, map[], RowId(x.t, res.out.value));
  }

  // A row of the result, as visit y of the plan leaves it: an old row is the one it
  // was planned for; what the value, or in a new row a default, supplies can be read
  // back at every depth; every other column is as it was, or empty in a new row.
  ghost predicate RowResult(w: World, db: Db, id: RowId, y: Visit)
    requires Valid(w.sch, w.db) && Valid(w.sch, db)
  {
    && y in w.plan && Placed(w, db, id, y) && Stored(w.sch, db, id.t, id.r, y.v)
    && forall c | 0 <= c < |w.sch[id.t].props| && w.sch[id.t].primary != Some(c) ::
         var z := Supplied(w.sch[id.t], y, c);
         && (z.Some? ==> StoredColumn(w.sch, db, id.t, id.r, c, z.value))
         && (z.None? || z.value.SameList? ==>
               Slot(id.t, id.r, c) in db.cells && db.cells[Slot(id.t, id.r, c)] == OldCell(w, y, c))
  }

  // Every cell of every table after a run, under any policy: the rows in done are
  // as their visits leave them, the row returned and all new rows are among them, and
  // no other cell has changed.
  lemma {:induction false} CreateExact(w: World, depth: nat, log: seq<Event>, x: Visit, current: Option<nat>)
    returns (done: map<RowId, Visit>)
    requires PlanOk(w) && x in w.plan && x.t < |w.sch| && x.v.Object?
    requires current.Some? ==> HasRow(w.db, x.t, current.value)
    requires Valid(w.sch, w.db) && x.at == Landing(w, x.t, x.v, current)
    requires Create(w.sch, depth, State(w.db, log), x.t, x.v, w.policy, current).out.Done?
    ensures var res := Create(w.sch, depth, State(w.db, log), x.t, x.v, w.policy, current);
            && RowId(x.t, res.out.value) in done && done[RowId(x.t, res.out.value)] == x
            && (forall id | id in done :: RowResult(w, res.st.db, id, done[id]))
            && (forall id: RowId | HasRow(res.st.db, id.t, id.r) && !HasRow(w.db, id.t, id.r) :: id in done)
            && (forall s | s in w.db.cells && RowId(s.t, s.r) !in done ::
                  s in res.st.db.cells && res.st.db.cells[s] == w.db.cells[s])
  {
    hide Valid, KeysDistinct, PlanOk, Coherent, VisitOk, Evolves, Create, Stored, Landing, RowResult, Holds, AllPlaced;
    InvAtStart(w);
    var res := Create(w.sch, depth, State(w.db, log), x.t, x.v, w.policy, current);
    done := VisitCreate(w, depth, State(w.db, log), map[], map[], x, current);
    forall id | id in done
      ensures RowResult(w, res.st.db, id, done[id])
    {
      NoneOpen(w, res.st.db, done, map[]);
      ResultOf(w, res.st.db, done, id);
    }
  }

  // Setting one property of a row, with x a visit to that row which sets it too: the
  // column holds the value, the other columns and all rows that are not visited
  // below it are as they were.
  lemma {:induction false} SetResult(w: World, depth: nat, log: seq<Event>, x: Visit, r: nat, c: nat, z: Value)
    returns (done: map<RowId, Visit>)
    requires PlanOk(w) && x in w.plan && x.at == Some(r) && x.t < |w.sch| && x.v.Object?
    requires Valid(w.sch, w.db) && Here(w.sch, w.db, x.t, r, c) && x.v.Field(c) == Some(z)
    requires KeyHolds(w.sch, w.db, x.t, r, x.v)
    requires SetProperty(w.sch, depth, State(w.db, log), x.t, r, c, z, w.policy, false).out.Done?
    ensures var res := SetProperty(w.sch, depth, State(w.db, log), x.t, r, c, z, w.policy, false);
            && StoredColumn(w.sch, res.st.db, x.t, r, c, z)
            && (z.SameList? ==> res.st.db.cells[Slot(x.t, r, c)] == OldCell(w, x, c))
            && OtherColumns(w.db, res.st.db, x.t, r, c)
            && RowId(x.t, r) !in done && (forall id | id in done :: RowResult(w, res.st.db, id, done[id]))
            && (forall id: RowId | HasRow(res.st.db, id.t, id.r) && !HasRow(w.db, id.t, id.r) :: id in done)
            && (forall s | s in w.db.cells && RowId(s.t, s.r) !in done && RowId(s.t, s.r) != RowId(x.t, r) ::
                  s in res.st.db.cells && res.st.db.cells[s] == w.db.cells[s])
  {
    hide Valid, KeysDistinct, Coherent, VisitOk, Evolves, SetProperty, Landing, RowResult, Holds, AllPlaced, OldCell,
      ValuePlanned, CellHolds, StoredCell;
    InvAtStart(w);
    OpenExisting(w, w.db, map[], map[], x, r);
    var open := map[RowId(x.t, r) := x];
    assert map[][RowId(x.t, r) := x] == open;
    ThisColumnPlanned(w, w.db, map[], open, x, c);
    var res := SetProperty(w.sch, depth, State(w.db, log), x.t, r, c, z, w.policy, false);
    done := VisitSet(w, depth, State(w.db, log), map[], open, x, r, c, z, false);
    NoneOpen(w, res.st.db, done, open);
    CellHoldsStored(w, res.st.db, done, w.sch[x.t].props[c], z, res.st.db.cells[Slot(x.t, r, c)]);
    forall id | id in done
      ensures RowResult(w, res.st.db, id, done[id])
    {
      ResultOf(w, res.st.db, done, id);
    }
  }

  lemma {:induction false} NoneOpen(w: World, db: Db, done: map<RowId, Visit>, open: map<RowId, Visit>)
    requires Inv(w, db, done, open) && forall id | id in done :: id !in open
    ensures Holds(w, db, done, map[]) && AllPlaced(w, db, done) && Valid(w.sch, db) && Valid(w.sch, w.db)
  {
    hide Valid, KeysDistinct, PlanOk, Evolves, Untouched, RowDone, Placed;
  }

  lemma {:induction false} ResultOf(w: World, db: Db, done: map<RowId, Visit>, id: RowId)
    requires Valid(w.sch, w.db) && Valid(w.sch, db) && Holds(w, db, done, map[]) && AllPlaced(w, db, done)
    requires id in done
    ensures RowResult(w, db, id, done[id])
  {
    hide Valid, KeysDistinct, PlanOk, Evolves, Untouched, OldCell, CellHolds, StoredCell;
    var y := done[id];
    HoldsStored(w, db, done, id);
    assert Placed(w, db, id, y) && RowDone(w, db, id.r, y, done);
    forall c | 0 <= c < |w.sch[id.t].props| && w.sch[id.t].primary != Some(c)
      ensures var z := Supplied(w.sch[id.t], y, c);
              && (z.Some? ==> StoredColumn(w.sch, db, id.t, id.r, c, z.value))
              && (z.None? || z.value.SameList? ==>
                    Slot(id.t, id.r, c) in db.cells && db.cells[Slot(id.t, id.r, c)] == OldCell(w, y, c))
    {
      assert ColumnDone(w, db, id.r, y, c, done);
      var z := Supplied(w.sch[id.t], y, c);
      if z.Some? {
        CellHoldsStored(w, db, done, w.sch[id.t].props[c], z.value, db.cells[Slot(id.t, id.r, c)]);
      }
    }
  }

  lemma {:induction false} InvAtStart(w: World)
    requires PlanOk(w)
    ensures Inv(w, w.db, map[], map[])
  {
    hide Valid, Coherent, VisitOk;
  }

  // A second run with the same value writes no slot and adds no row. For a
  // type without a primary key it is told which row the first one returned.
  lemma {:induction false} UpsertIsIdempotent(w: World, depth: nat, log: seq<Event>, x: Visit, current: Option<nat>,
                                              depth': nat)
    requires PlanOk(w) && x in w.plan && x.t < |w.sch| && x.v.Object? && w.policy == UpdateModified
    requires current.Some? ==> HasRow(w.db, x.t, current.value)
    requires Valid(w.sch, w.db) && x.at == Landing(w, x.t, x.v, current)
    requires Create(w.sch, depth, State(w.db, log), x.t, x.v, UpdateModified, current).out.Done?
    ensures var first := Create(w.sch, depth, State(w.db, log), x.t, x.v, UpdateModified, current);
            && Create(w.sch, depth', first.st, x.t, x.v, UpdateModified, Some(first.out.value)) == first
            && (Keyed(w.sch, x.t) ==> Create(w.sch, depth', first.st, x.t, x.v, UpdateModified, None) == first)
  {
    hide KeysDistinct, PlanOk, Create, Stored;
    PlanKeys(w);
    CreateStores(w, depth, log, x, current);
    var first := Create(w.sch, depth, State(w.db, log), x.t, x.v, UpdateModified, current);
    StillCreate(w.sch, depth', first.st, x.t, first.out.value, x.v, Some(first.out.value));
    if Keyed(w.sch, x.t) {
      StillCreate(w.sch, depth', first.st, x.t, first.out.value, x.v, None);
    }
  }

  lemma {:induction false} PlanKeys(w: World)
    requires PlanOk(w)
    ensures Valid(w.sch, w.db) && KeysDistinct(w.sch, w.db)
  {
  }
}
