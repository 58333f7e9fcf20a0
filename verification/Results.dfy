// Results::set_property_value: one property of every matching object is set
// while the writes may change which objects match.
module Results {
  import opened Wrappers
  import opened Store
  import opened Upsert
  import opened ReadBack
  import opened FlatCreate
  import opened ForceCreates
  import G = Groups

  type Query = (Db, nat) -> bool

  // The rows of table t from `from` on that match.
  function Matching(db: Db, t: nat, query: Query, from: nat): (rows: seq<nat>)
    requires t < |db.rows| && from <= db.rows[t]
    ensures forall r :: r in rows <==> from <= r < db.rows[t] && query(db, r)
    ensures forall i | 0 <= i < |rows| :: from <= rows[i] < db.rows[t]
    ensures forall i, j | 0 <= i < j < |rows| :: rows[i] < rows[j]
    decreases db.rows[t] - from
  {
    if from == db.rows[t] then []
    else if query(db, from) then [from] + Matching(db, t, query, from + 1)
    else Matching(db, t, query, from + 1)
  }

  // The loop over the snapshot from position i on.
  function SetFrom(sch: Schema, depth: nat, st: State, t: nat, c: nat, v: Value, rows: seq<nat>,
                   i: nat): (res: Res<nat>)
    requires Valid(sch, st.db) && t < |sch| && c < |sch[t].props| && sch[t].primary != Some(c) && i <= |rows|
    requires forall k | 0 <= k < |rows| :: rows[k] < st.db.rows[t]
    ensures Evolves(sch, st.db, res.st.db)
    decreases |rows| - i
  {
    if i == |rows| then Res(st, Done(i))
    else
      var step := SetProperty(sch, depth, st, t, rows[i], c, v, ForceCreate, false);
      if step.out.Fail? then step
      else
        var res := SetFrom(sch, depth, step.st, t, c, v, rows, i + 1);
        EvolvesTransitive(sch, st.db, step.st.db, res.st.db);
        res
  }

  function BatchSet(sch: Schema, depth: nat, st: State, t: nat, query: Query, c: nat, v: Value): (res: Res<nat>)
    requires Valid(sch, st.db) && t < |sch| && c < |sch[t].props|
    ensures Evolves(sch, st.db, res.st.db)
  {
    if sch[t].primary == Some(c) then Res(st, Fail(ModifyPrimaryKey))
    else SetFrom(sch, depth, st, t, c, v, Matching(st.db, t, query, 0), 0)
  }

  class Results {
    const group: G.Group
    const t: nat
    const query: Query

    constructor (group: G.Group, t: nat, query: Query)
      ensures this.group == group && this.t == t && this.query == query
    {
      this.group, this.t, this.query := group, t, query;
    }

    // The rows that match now; later writes do not change what is returned.
    method Snapshot() returns (rows: seq<nat>)
      requires group.Valid() && t < |group.sch|
      ensures rows == Matching(group.Now().db, t, query, 0)
    {
      rows := [];
      var r := group.rows[t];
      while r > 0
        invariant 0 <= r <= group.rows[t]
        invariant rows == Matching(group.Now().db, t, query, r)
      {
        r := r - 1;
        if query(Db(group.rows, group.cells), r) {
          rows := [r] + rows;
        }
      }
    }

    method SetPropertyValue(depth: nat, c: nat, v: Value) returns (out: Outcome<nat, Error>)
      requires group.Valid() && t < |group.sch| && c < |group.sch[t].props|
      modifies group
      ensures group.Valid()
      ensures Res(group.Now(), out) == BatchSet(group.sch, depth, old(group.Now()), t, query, c, v)
    {
      hide Valid, KeysDistinct, SetProperty, Matching;
      if group.sch[t].primary == Some(c) {
        return Fail(ModifyPrimaryKey);
      }
      ghost var spec := BatchSet(group.sch, depth, group.Now(), t, query, c, v);
      var snapshot := Snapshot();
      SchemaValid(group.sch, group.Now().db);
      for i := 0 to |snapshot|
        invariant group.Valid() && |group.rows| == |group.sch|
        invariant forall k | 0 <= k < |snapshot| :: snapshot[k] < group.rows[t]
        invariant SetFrom(group.sch, depth, group.Now(), t, c, v, snapshot, i) == spec
      {
        out := group.SetProperty(depth, t, snapshot[i], c, v, ForceCreate, false);
        SchemaValid(group.sch, group.Now().db);
        if out.Fail? {
          return;
        }
      }
      out := Done(|snapshot|);
    }
  }

  // b is a, but for column c of the given rows, which v has been written to.
  ghost predicate ColumnWritten(sch: Schema, a: Db, b: Db, t: nat, c: nat, v: Value, rows: seq<nat>)
    requires t < |sch| && c < |sch[t].props|
  {
    && b.rows == a.rows && b.cells.Keys == a.cells.Keys
    && forall s | s in a.cells ::
         b.cells[s] == if s.t == t && s.c == c && s.r in rows then Written(sch[t].props[c], v, a.cells[s])
             else a.cells[s]
  }

  lemma {:induction false} SetFromExact(sch: Schema, depth: nat, st: State, t: nat, c: nat, v: Value, rows: seq<nat>,
                                        i: nat)
    requires Valid(sch, st.db) && t < |sch| && c < |sch[t].props| && sch[t].primary != Some(c) && i <= |rows|
    requires forall k | 0 <= k < |rows| :: rows[k] < st.db.rows[t]
    requires forall j, k | 0 <= j < k < |rows| :: rows[j] < rows[k]
    requires sch[t].props[c].kind.ScalarKind? || sch[t].props[c].kind.ScalarListKind?
    requires SetFrom(sch, depth, st, t, c, v, rows, i).out.Done?
    ensures ColumnWritten(sch, st.db, SetFrom(sch, depth, st, t, c, v, rows, i).st.db, t, c, v, rows[i..])
    decreases |rows| - i
  {
    hide Valid, KeysDistinct, SetProperty, Written, ColumnWritten, OnlyCell;
    if i == |rows| {
      NoRowWritten(sch, st.db, t, c, v);
    } else {
      var s := Slot(t, rows[i], c);
      SchemaValid(sch, st.db);
      CellOk(sch, st.db, s);
      SetFlat(sch, depth, st, s, v, ForceCreate, false);
      var step := SetProperty(sch, depth, st, t, rows[i], c, v, ForceCreate, false);
      SetFromExact(sch, depth, step.st, t, c, v, rows, i + 1);
      assert rows[i..] == [rows[i]] + rows[i + 1..];
      assert rows[i] !in rows[i + 1..];
      OneRowMore(sch, st.db, step.st.db, SetFrom(sch, depth, step.st, t, c, v, rows, i + 1).st.db, t, c, v, rows[i],
          rows[i + 1..]);
    }
  }

  lemma {:induction false} NoRowWritten(sch: Schema, db: Db, t: nat, c: nat, v: Value)
    requires t < |sch| && c < |sch[t].props|
    ensures ColumnWritten(sch, db, db, t, c, v, [])
  {
  }

  lemma {:induction false} OneRowMore(sch: Schema, a: Db, b: Db, d: Db, t: nat, c: nat, v: Value, r: nat,
                                      rows: seq<nat>)
    requires t < |sch| && c < |sch[t].props| && Slot(t, r, c) in a.cells && r !in rows
    requires OnlyCell(a, b, Slot(t, r, c), Written(sch[t].props[c], v, a.cells[Slot(t, r, c)]))
    requires ColumnWritten(sch, b, d, t, c, v, rows)
    ensures ColumnWritten(sch, a, d, t, c, v, [r] + rows)
  {
    hide Written;
  }

  // For primitives and lists of them no row is added either, so every cell of
  // every table is known.
  lemma {:induction false} BatchSetScalars(sch: Schema, depth: nat, st: State, t: nat, query: Query, c: nat, v: Value)
    requires Valid(sch, st.db) && t < |sch| && c < |sch[t].props|
    requires sch[t].props[c].kind.ScalarKind? || sch[t].props[c].kind.ScalarListKind?
    requires BatchSet(sch, depth, st, t, query, c, v).out.Done?
    ensures var db' := BatchSet(sch, depth, st, t, query, c, v).st.db;
            && db'.rows == st.db.rows && db'.cells.Keys == st.db.cells.Keys
            && forall s | s in st.db.cells ::
                 db'.cells[s] ==
                 if s.t == t && s.c == c && query(st.db, s.r) then Written(sch[t].props[c], v, st.db.cells[s])
                 else st.db.cells[s]
  {
    hide KeysDistinct, SetFrom, Written;
    var rows := Matching(st.db, t, query, 0);
    SetFromExact(sch, depth, st, t, c, v, rows, 0);
    assert rows[0..] == rows;
  }

  // ----- Any property and any value -----

  // The rows of the objects in one cell come before those in another.
  ghost predicate RowsApart(kind: Kind, v: Value, a: Cell, b: Cell) {
    match kind
    case LinkKind(_) => v.Object? ==> a.Link? && b.Link? && a.to.Some? && b.to.Some? && a.to.value < b.to.value
    case LinkListKind(_) =>
      v.Many? ==>
        && a.List? && b.List? && |a.items| == |b.items| == |v.elems|
        && forall i, j | 0 <= i < |v.elems| && 0 <= j < |v.elems| && v.elems[i].Object? && v.elems[j].Object? ::
             a.items[i].Row? && b.items[j].Row? && a.items[i].r < b.items[j].r
    case _ => true
  }

  // Row r holds v in column c, and every object of v lies in a new row.
  ghost predicate Holds(sch: Schema, db: Db, base: seq<nat>, t: nat, r: nat, c: nat, v: Value) {
    && Valid(sch, db) && t < |sch| && c < |sch[t].props|
    && StoredColumn(sch, db, t, r, c, v)
    && FreshCell(sch, db, base, sch[t].props[c].kind, v, db.cells[Slot(t, r, c)])
  }

  // Only column c of the given rows has changed among the cells that were there.
  ghost predicate ColumnOnly(a: Db, b: Db, t: nat, c: nat, rows: seq<nat>) {
    forall s | s in a.cells && !(s.t == t && s.c == c && s.r in rows) :: s in b.cells && b.cells[s] == a.cells[s]
  }

  lemma {:induction false} SetFromHolds(sch: Schema, depth: nat, st: State, t: nat, c: nat, v: Value, rows: seq<nat>,
                                        i: nat)
    requires Valid(sch, st.db) && t < |sch| && c < |sch[t].props| && sch[t].primary != Some(c) && i <= |rows|
    requires forall k | 0 <= k < |rows| :: rows[k] < st.db.rows[t]
    requires forall j, k | 0 <= j < k < |rows| :: rows[j] < rows[k]
    requires SetFrom(sch, depth, st, t, c, v, rows, i).out.Done?
    ensures var db := SetFrom(sch, depth, st, t, c, v, rows, i).st.db;
            && ColumnOnly(st.db, db, t, c, rows[i..])
            && (forall k | i <= k < |rows| :: Holds(sch, db, st.db.rows, t, rows[k], c, v))
            && (forall j, k | i <= j < k < |rows| ::
                  RowsApart(sch[t].props[c].kind, v, db.cells[Slot(t, rows[j], c)], db.cells[Slot(t, rows[k], c)]))
    decreases |rows| - i
  {
    hide Valid, KeysDistinct, SetProperty, StoredCell, FreshCell, RowsApart;
    if i < |rows| {
      SchemaValid(sch, st.db);
      var s := Slot(t, rows[i], c);
      var step := SetProperty(sch, depth, st, t, rows[i], c, v, ForceCreate, false);
      var db := SetFrom(sch, depth, step.st, t, c, v, rows, i + 1).st.db;
      ForceSetKeeps(sch, depth, st, s, v, false);
      ForceSetStores(sch, depth, st, s, v);
      SetFromHolds(sch, depth, step.st, t, c, v, rows, i + 1);
      Grown(sch, st.db, step.st.db);
      assert rows[i..] == [rows[i]] + rows[i + 1..];
      assert rows[i] !in rows[i + 1..];
      FirstHolds(sch, st.db, step.st.db, db, t, c, v, rows[i], rows[i + 1..]);
      forall k | i + 1 <= k < |rows|
        ensures Holds(sch, db, st.db.rows, t, rows[k], c, v)
        ensures RowsApart(sch[t].props[c].kind, v, db.cells[Slot(t, rows[i], c)], db.cells[Slot(t, rows[k], c)])
      {
        LaterHolds(sch, st.db, step.st.db, db, t, c, v, rows[i], rows[k]);
      }
    }
  }

  // The row set first still holds the value when the others have been set.
  lemma {:induction false} FirstHolds(sch: Schema, a: Db, b: Db, d: Db, t: nat, c: nat, v: Value, r: nat,
                                      later: seq<nat>)
    requires Valid(sch, a) && Evolves(sch, a, b) && Evolves(sch, b, d) && t < |sch| && c < |sch[t].props|
             && HasRow(a, t, r)
    requires Slot(t, r, c) in b.cells && StoredColumn(sch, b, t, r, c, v)
    requires FreshCell(sch, b, a.rows, sch[t].props[c].kind, v, b.cells[Slot(t, r, c)])
    requires ColumnOnly(b, d, t, c, later) && r !in later && forall q | q in later :: q < a.rows[t]
    ensures Holds(sch, d, a.rows, t, r, c, v) && d.cells[Slot(t, r, c)] == b.cells[Slot(t, r, c)]
  {
    hide KeysDistinct, StoredCell, FreshCell;
    var s := Slot(t, r, c);
    assert s in d.cells && d.cells[s] == b.cells[s];
    CarryCell(sch, b, d, a.rows, sch[t].props[c], v, b.cells[s]);
  }

  lemma {:induction false} LaterHolds(sch: Schema, a: Db, b: Db, d: Db, t: nat, c: nat, v: Value, r: nat, q: nat)
    requires Valid(sch, a) && Evolves(sch, a, b) && Evolves(sch, b, d) && t < |sch| && c < |sch[t].props|
             && HasRow(a, t, r)
    requires Slot(t, r, c) in b.cells && Holds(sch, d, a.rows, t, r, c, v)
             && d.cells[Slot(t, r, c)] == b.cells[Slot(t, r, c)]
    requires Holds(sch, d, b.rows, t, q, c, v)
    ensures Holds(sch, d, a.rows, t, q, c, v)
    ensures RowsApart(sch[t].props[c].kind, v, d.cells[Slot(t, r, c)], d.cells[Slot(t, q, c)])
  {
    hide KeysDistinct, StoredCell;
    var kind := sch[t].props[c].kind;
    var x, y := d.cells[Slot(t, r, c)], d.cells[Slot(t, q, c)];
    Grown(sch, a, b);
    LowerCell(sch, d, b.rows, a.rows, kind, v, y);
    CellOk(sch, b, Slot(t, r, c));
    if kind.LinkKind? && v.Object? {
      assert x.Link? && x.to.Some? && FreshObject(sch, d, a.rows, kind.target, x.to.value, v);
      assert y.Link? && y.to.Some? && FreshObject(sch, d, b.rows, kind.target, y.to.value, v);
    } else if kind.LinkListKind? && v.Many? {
      forall i | 0 <= i < |v.elems| && v.elems[i].Object?
        ensures x.items[i].Row? && x.items[i].r < b.rows[kind.target]
        ensures y.items[i].Row? && b.rows[kind.target] <= y.items[i].r
      {
        FreshElement(sch, d, a.rows, kind.target, v.elems[i], x.items[i]);
        FreshElement(sch, d, b.rows, kind.target, v.elems[i], y.items[i]);
        assert ItemFits(kind, b.rows, b.cells[Slot(t, r, c)].items[i]);
      }
    }
  }

  lemma {:induction false} FreshElement(sch: Schema, db: Db, base: seq<nat>, u: nat, z: Value, x: Item)
    requires FreshItem(sch, db, base, u, z, x) && z.Object?
    ensures x.Row? && u < |base| && base[u] <= x.r
  {
    assert FreshObject(sch, db, base, u, x.r, z);
  }

  lemma {:induction false} PlacesOf(rows: seq<nat>, r: nat, q: nat) returns (j: nat, k: nat)
    requires r in rows && q in rows && r < q && forall i, j | 0 <= i < j < |rows| :: rows[i] < rows[j]
    ensures j < k < |rows| && rows[j] == r && rows[k] == q
  {
    j :| 0 <= j < |rows| && rows[j] == r;
    k :| 0 <= k < |rows| && rows[k] == q;
  }

  // After a batch update exactly the rows that matched at entry hold the value,
  // whatever the query reads, for any property and any value. Of the cells that
  // were there no other has changed, and every object of the value has been
  // created anew for each of these rows.
  lemma {:induction false} BatchSetExact(sch: Schema, depth: nat, st: State, t: nat, query: Query, c: nat, v: Value)
    requires Valid(sch, st.db) && t < |sch| && c < |sch[t].props|
    requires BatchSet(sch, depth, st, t, query, c, v).out.Done?
    ensures var db' := BatchSet(sch, depth, st, t, query, c, v).st.db;
            && (forall s | s in st.db.cells && !(s.t == t && s.c == c && query(st.db, s.r)) ::
                  s in db'.cells && db'.cells[s] == st.db.cells[s])
            && (forall r | 0 <= r < st.db.rows[t] && query(st.db, r) :: Holds(sch, db', st.db.rows, t, r, c, v))
            && (forall r, q | 0 <= r < q < st.db.rows[t] && query(st.db, r) && query(st.db, q) ::
                  RowsApart(sch[t].props[c].kind, v, db'.cells[Slot(t, r, c)], db'.cells[Slot(t, q, c)]))
  {
    hide Valid, KeysDistinct, SetFrom, StoredCell, FreshCell, RowsApart;
    SchemaValid(sch, st.db);
    var rows := Matching(st.db, t, query, 0);
    var db' := BatchSet(sch, depth, st, t, query, c, v).st.db;
    SetFromHolds(sch, depth, st, t, c, v, rows, 0);
    assert rows[0..] == rows;
    forall r, q | 0 <= r < q < st.db.rows[t] && query(st.db, r) && query(st.db, q)
      ensures RowsApart(sch[t].props[c].kind, v, db'.cells[Slot(t, r, c)], db'.cells[Slot(t, q, c)])
    {
      var j, k := PlacesOf(rows, r, q);
    }
  }

  // ----- Objects with primary keys -----

  // ForceCreate never looks at a current row.
  lemma {:induction false} CurrentIgnored(sch: Schema, depth: nat, st: State, u: nat, v: Value, current: Option<nat>)
    requires Valid(sch, st.db) && u < |sch| && (current.Some? ==> HasRow(st.db, u, current.value))
    ensures Create(sch, depth, st, u, v, ForceCreate, current) == Create(sch, depth, st, u, v, ForceCreate, None)
  {
    hide Valid, KeysDistinct, Populate;
  }

  lemma {:induction false} LinkDone(sch: Schema, depth: nat, st: State, s: Slot, v: Value)
    requires s.t < |sch| && Here(sch, st.db, s.t, s.r, s.c) && sch[s.t].props[s.c].kind.LinkKind? && v.Object?
    ensures sch[s.t].props[s.c].kind.target < |sch|
    ensures var made := Create(sch, depth, st, sch[s.t].props[s.c].kind.target, v, ForceCreate, None);
            var res := SetProperty(sch, depth, st, s.t, s.r, s.c, v, ForceCreate, false);
            if made.out.Done? then
              res.out.Done? && Evolves(sch, made.st.db, res.st.db) && s in res.st.db.cells
                  && res.st.db.cells[s] == Link(Some(made.out.value))
            else res == Res(made.st, Fail(made.out.error))
  {
    hide Valid, KeysDistinct, Create;
    CellOk(sch, st.db, s);
    var kind, current := sch[s.t].props[s.c].kind, st.db.cells[s].to;
    assert current.Some? ==> HasRow(st.db, kind.target, current.value);
    CurrentIgnored(sch, depth, st, kind.target, v, current);
    var made := Unbox(sch, depth, st, kind, v, ForceCreate, current);
    assert made.st == Create(sch, depth, st, kind.target, v, ForceCreate, None).st;
    var res := UpdateLink(sch, depth, st, s.t, s.r, s.c, v, ForceCreate);
    assert SetProperty(sch, depth, st, s.t, s.r, s.c, v, ForceCreate, false) == res;
    if made.out.Done? {
      var cell := Link(Some(made.out.value.r));
      SlotStays(sch, st.db, made.st.db, s);
      assert res.st == AfterPut(made.st, s, cell);
      PutEvolves(sch, made.st, s, cell);
    }
  }

  lemma {:induction false} SlotStays(sch: Schema, a: Db, b: Db, s: Slot)
    requires Valid(sch, a) && Evolves(sch, a, b) && s in a.cells
    ensures s in b.cells
  {
  }

  // Once an object has been created its key is taken.
  lemma {:induction false} KeyTaken(sch: Schema, depth: nat, st: State, u: nat, v: Value, db: Db)
    requires Valid(sch, st.db) && u < |sch| && Keyed(sch, u)
             && Create(sch, depth, st, u, v, ForceCreate, None).out.Done?
    requires Evolves(sch, Create(sch, depth, st, u, v, ForceCreate, None).st.db, db)
    ensures v.Object? && KeyOf(sch[u], v).Done? && FindFirst(sch, db, u, KeyOf(sch[u], v).value).Some?
  {
    hide KeysDistinct, Create;
    var made := Create(sch, depth, st, u, v, ForceCreate, None);
    ForceStores(sch, depth, st, u, v, None);
    KeyOk(sch, made.st.db, u, made.out.value);
    KeyOk(sch, db, u, made.out.value);
    assert KeyHolds(sch, made.st.db, u, made.out.value, v);
    assert KeyAt(sch, db, u, made.out.value) == KeyOf(sch[u], v).value;
  }

  // A link to an object with a primary key can be set on one row at most: the
  // batch succeeds exactly if nothing matches, or one row matches and the object
  // can be created. On the second row the key is taken.
  lemma {:induction false} BatchKeyedLink(sch: Schema, depth: nat, st: State, t: nat, query: Query, c: nat, v: Value)
    requires Valid(sch, st.db) && t < |sch| && c < |sch[t].props| && sch[t].props[c].kind.LinkKind? && v.Object?
    requires sch[t].props[c].kind.target < |sch| && Keyed(sch, sch[t].props[c].kind.target)
    ensures |st.db.rows| == |sch| && sch[t].primary != Some(c)
    ensures var rows := Matching(st.db, t, query, 0);
            var creates := Create(sch, depth, st, sch[t].props[c].kind.target, v, ForceCreate, None).out.Done?;
            && (BatchSet(sch, depth, st, t, query, c, v).out.Done? <==> rows == [] || (|rows| == 1 && creates))
            && (|rows| >= 2 && creates ==>
                  BatchSet(sch, depth, st, t, query, c, v) ==
                  Res(SetProperty(sch, depth, st, t, rows[0], c, v, ForceCreate, false).st, Fail(Duplicate)))
  {
    hide KeysDistinct, Create, SetProperty, Matching, SetFrom;
    SchemaValid(sch, st.db);
    var rows, u := Matching(st.db, t, query, 0), sch[t].props[c].kind.target;
    assert sch[t].primary != Some(c);
    if rows != [] {
      LinkDone(sch, depth, st, Slot(t, rows[0], c), v);
      if |rows| >= 2 {
        SecondRefused(sch, depth, st, t, c, v, rows);
      }
    }
    FewRows(sch, depth, st, t, c, v, rows);
  }

  lemma {:induction false} FewRows(sch: Schema, depth: nat, st: State, t: nat, c: nat, v: Value, rows: seq<nat>)
    requires Valid(sch, st.db) && t < |sch| && c < |sch[t].props| && sch[t].primary != Some(c)
    requires |st.db.rows| == |sch| && forall k | 0 <= k < |rows| :: rows[k] < st.db.rows[t]
    ensures rows == [] ==> SetFrom(sch, depth, st, t, c, v, rows, 0).out.Done?
    ensures |rows| == 1 ==>
              (SetFrom(sch, depth, st, t, c, v, rows, 0).out.Done? <==>
               SetProperty(sch, depth, st, t, rows[0], c, v, ForceCreate, false).out.Done?)
  {
    hide Valid, KeysDistinct, SetProperty;
    if |rows| == 1 {
      var step := SetProperty(sch, depth, st, t, rows[0], c, v, ForceCreate, false);
      if step.out.Done? {
        assert SetFrom(sch, depth, step.st, t, c, v, rows, 1) == Res(step.st, Done(1));
      }
    }
  }

  lemma {:induction false} SecondRefused(sch: Schema, depth: nat, st: State, t: nat, c: nat, v: Value, rows: seq<nat>)
    requires Valid(sch, st.db) && t < |sch| && c < |sch[t].props| && sch[t].props[c].kind.LinkKind? && v.Object?
    requires sch[t].props[c].kind.target < |sch| && Keyed(sch, sch[t].props[c].kind.target)
    requires |st.db.rows| == |sch| && sch[t].primary != Some(c)
    requires |rows| >= 2 && forall k | 0 <= k < |rows| :: rows[k] < st.db.rows[t]
    ensures var first := SetProperty(sch, depth, st, t, rows[0], c, v, ForceCreate, false);
            SetFrom(sch, depth, st, t, c, v, rows, 0) ==
            if first.out.Fail? then first else Res(first.st, Fail(Duplicate))
  {
    hide KeysDistinct, Create, SetProperty;
    var s, u := Slot(t, rows[0], c), sch[t].props[c].kind.target;
    LinkDone(sch, depth, st, s, v);
    var step := SetProperty(sch, depth, st, t, rows[0], c, v, ForceCreate, false);
    if step.out.Done? {
      KeyTaken(sch, depth, st, u, v, step.st.db);
      LinkRefused(sch, depth, step.st, Slot(t, rows[1], c), v);
      assert SetFrom(sch, depth, step.st, t, c, v, rows, 1) == Res(step.st, Fail(Duplicate));
    }
  }

  lemma {:induction false} LinkRefused(sch: Schema, depth: nat, st: State, s: Slot, v: Value)
    requires s.t < |sch| && Here(sch, st.db, s.t, s.r, s.c) && sch[s.t].props[s.c].kind.LinkKind? && v.Object?
    requires sch[s.t].props[s.c].kind.target < |sch| && Keyed(sch, sch[s.t].props[s.c].kind.target)
    requires KeyOf(sch[sch[s.t].props[s.c].kind.target], v).Done?
    requires FindFirst(sch, st.db, sch[s.t].props[s.c].kind.target, KeyOf(sch[sch[s.t].props[s.c].kind.target],
             v).value).Some?
    ensures SetProperty(sch, depth, st, s.t, s.r, s.c, v, ForceCreate, false) == Res(st, Fail(Duplicate))
  {
    hide KeysDistinct;
    LinkDone(sch, depth, st, s, v);
  }

  // For a flat target that is: the key is well formed and free, and every
  // column fits.
  lemma {:induction false} BatchKeyedFlat(sch: Schema, depth: nat, st: State, t: nat, query: Query, c: nat, v: Value)
    requires Valid(sch, st.db) && t < |sch| && c < |sch[t].props| && sch[t].props[c].kind.LinkKind? && v.Object?
    requires var u := sch[t].props[c].kind.target; u < |sch| && Keyed(sch, u) && FlatType(sch[u])
    requires depth > 0
    ensures |st.db.rows| == |sch|
    ensures var rows, u := Matching(st.db, t, query, 0), sch[t].props[c].kind.target;
            BatchSet(sch, depth, st, t, query, c, v).out.Done? <==>
              || rows == []
              || (|rows| == 1
                  && KeyOf(sch[u], v).Done? && FindFirst(sch, st.db, u, KeyOf(sch[u], v).value).None?
                  && forall d | 0 <= d < |sch[u].props| && sch[u].primary != Some(d) ::
                     ColumnFits(sch[u].props[d], v, d, true))
  {
    hide KeysDistinct, Create, BatchSet, Matching, ColumnFits;
    BatchKeyedLink(sch, depth, st, t, query, c, v);
    CreateFlatSucceeds(sch, depth, st, sch[t].props[c].kind.target, v, ForceCreate, None);
  }

  // ----- A batch that stops half-way -----

  // Two rows without keys that can link to rows with keys, of which there are
  // none yet.
  const PLACES: Schema := [ObjectSchema([Property(LinkKind(1), true, None)], None),
                           ObjectSchema([Property(ScalarKind(IntType), false, None)], Some(0))]

  const TWO_PLACES: Db := Db([2, 0], map[Slot(0, 0, 0) := Link(None), Slot(0, 1, 0) := Link(None)])

  lemma {:induction false} PlacesSchema()
    ensures ValidSchema(PLACES) && FlatType(PLACES[1])
  {
  }

  lemma {:induction false} TwoPlacesValid()
    ensures Valid(PLACES, TWO_PLACES) && FlatType(PLACES[1])
  {
    hide ValidSchema, FlatType;
    PlacesSchema();
    forall s
      ensures s in TWO_PLACES.cells <==> HasSlot(PLACES, TWO_PLACES.rows, s)
      ensures s in TWO_PLACES.cells ==> CellFits(PLACES[s.t].props[s.c], TWO_PLACES.rows, TWO_PLACES.cells[s])
    {
    }
  }

  // Both rows match. The first one is linked to the new object; then the batch
  // throws, because the second one would have to create it again.
  lemma {:induction false} BatchStopsHalfWay(query: Query)
    requires query(TWO_PLACES, 0) && query(TWO_PLACES, 1)
    ensures Valid(PLACES, TWO_PLACES)
    ensures var res := BatchSet(PLACES, 1, State(TWO_PLACES, []), 0, query, 0,
            Object([Some(Plain(IntValue(7)))], false));
            && res.out == Fail(Duplicate)
            && Slot(0, 0, 0) in res.st.db.cells && res.st.db.cells[Slot(0, 0, 0)] == Link(Some(0))
            && Slot(0, 1, 0) in res.st.db.cells && res.st.db.cells[Slot(0, 1, 0)] == Link(None)
  {
    hide BatchSet, Create, SetProperty, KeysDistinct, Valid;
    TwoPlacesValid();
    var st, v := State(TWO_PLACES, []), Object([Some(Plain(IntValue(7)))], false);
    var rows := Matching(TWO_PLACES, 0, query, 0);
    assert 0 in rows && 1 in rows;
    TwoRows(rows);
    BatchKeyedLink(PLACES, 1, st, 0, query, 0, v);
    CreateFlatSucceeds(PLACES, 1, st, 1, v, ForceCreate, None);
    assert FindFirst(PLACES, TWO_PLACES, 1, Some(IntValue(7))).None?;
    ForceSetKeeps(PLACES, 1, st, Slot(0, 0, 0), v, false);
    LinkDone(PLACES, 1, st, Slot(0, 0, 0), v);
    ForceRowNew(PLACES, 1, st, 1, v, None);
  }

  lemma {:induction false} TwoRows(rows: seq<nat>)
    requires 0 in rows && 1 in rows && forall i, j | 0 <= i < j < |rows| :: rows[i] < rows[j]
    ensures |rows| >= 2 && rows[0] == 0
  {
  }

  // The row that is added is the last one.
  lemma {:induction false} ForceRowNew(sch: Schema, depth: nat, st: State, u: nat, v: Value, current: Option<nat>)
    requires Valid(sch, st.db) && u < |sch| && (current.Some? ==> HasRow(st.db, u, current.value))
    requires Create(sch, depth, st, u, v, ForceCreate, current).out.Done?
    ensures u < |st.db.rows| && Create(sch, depth, st, u, v, ForceCreate, current).out.value == st.db.rows[u]
  {
    hide Valid, KeysDistinct, Populate;
    ForceRow(sch, st, u, v, current);
  }
}
