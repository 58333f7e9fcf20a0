// The data an upsert works on: object schemas, boxed input values, and the
// tables of one Realm together with a log of every write made to them.

module Store {
  import opened Wrappers

  // ----- Schemas and input values -----

  datatype ScalarType = IntType | StringType | OtherType

  // A non-null primitive. Values of the remaining primitive types (Bool,
  // Float, Double, Data, Date) are only ever copied and compared here.
  datatype Scalar = IntValue(i: int) | StringValue(s: string) | OtherValue(tag: nat) {
    function Type(): ScalarType {
      match this
      case IntValue(_) => IntType
      case StringValue(_) => StringType
      case OtherValue(_) => OtherType
    }
  }

  // A boxed input value as an accessor context sees it. The fields of an
  // object are listed in the order of its schema's persisted properties;
  // `positional` tells an array of field values from a dictionary, because
  // only the former may leave required properties out. `SameList` boxes the
  // very list that is being assigned to.
  datatype Value =
    | Null
    | Plain(s: Scalar)
    | Object(fields: seq<Option<Value>>, positional: bool)
    | Managed(row: nat)
    | Many(elems: seq<Value>)
    | SameList
  {
    function Field(i: nat): Option<Value>
      requires Object?
    {
      if i < |fields| then fields[i] else None
    }
  }

  datatype Kind =
    | ScalarKind(ty: ScalarType)
    | LinkKind(target: nat)
    | ScalarListKind(ty: ScalarType)
    | LinkListKind(target: nat)
    | BacklinksKind
  {
    predicate IsArray() {
      ScalarListKind? || LinkListKind? || BacklinksKind?
    }

    predicate HasTarget() {
      LinkKind? || LinkListKind?
    }
  }

  datatype Property = Property(kind: Kind, nullable: bool, dflt: Option<Value>)

  datatype ObjectSchema = ObjectSchema(props: seq<Property>, primary: Option<nat>)

  type Schema = seq<ObjectSchema>

  ghost predicate ValidSchema(sch: Schema) {
    forall t | 0 <= t < |sch| ::
      && (sch[t].primary.Some? ==>
            && sch[t].primary.value < |sch[t].props|
            && sch[t].props[sch[t].primary.value].kind in {ScalarKind(IntType), ScalarKind(StringType)})
      && forall c | 0 <= c < |sch[t].props| ::
           && (sch[t].props[c].kind.HasTarget() ==> sch[t].props[c].kind.target < |sch|)
           && (sch[t].props[c].kind.IsArray() ==> !sch[t].props[c].nullable)
  }

  predicate Keyed(sch: Schema, t: nat)
    requires t < |sch|
  {
    sch[t].primary.Some?
  }

  // ----- Tables -----

  datatype Slot = Slot(t: nat, r: nat, c: nat)

  datatype RowId = RowId(t: nat, r: nat)

  datatype Item = Val(s: Scalar) | Row(r: nat)

  datatype Cell = One(s: Option<Scalar>) | Link(to: Option<nat>) | List(items: seq<Item>)

  // rows[t] counts the rows of table t; every column of every row has a cell.
  datatype Db = Db(rows: seq<nat>, cells: map<Slot, Cell>)

  datatype Event = Added(t: nat, r: nat) | Wrote(at: Slot, before: Cell, after: Cell)

  datatype State = State(db: Db, log: seq<Event>)

  predicate HasRow(db: Db, t: nat, r: nat) {
    t < |db.rows| && r < db.rows[t]
  }

  ghost predicate HasSlot(sch: Schema, rows: seq<nat>, s: Slot)
    requires |rows| == |sch|
  {
    s.t < |sch| && s.r < rows[s.t] && s.c < |sch[s.t].props|
  }

  ghost predicate ItemFits(kind: Kind, rows: seq<nat>, x: Item) {
    match kind
    case ScalarListKind(ty) => x.Val? && x.s.Type() == ty
    case LinkListKind(u) => x.Row? && u < |rows| && x.r < rows[u]
    case _ => false
  }

  ghost predicate CellFits(p: Property, rows: seq<nat>, cell: Cell) {
    match p.kind
    case ScalarKind(ty) => cell.One? && (if cell.s.None? then p.nullable else cell.s.value.Type() == ty)
    case LinkKind(u) => cell.Link? && (cell.to.Some? ==> u < |rows| && cell.to.value < rows[u])
    case ScalarListKind(_) => cell.List? && forall i | 0 <= i < |cell.items| :: ItemFits(p.kind, rows, cell.items[i])
    case LinkListKind(_) => cell.List? && forall i | 0 <= i < |cell.items| :: ItemFits(p.kind, rows, cell.items[i])
    case BacklinksKind => cell.List? && cell.items == []
  }

  ghost predicate Valid(sch: Schema, db: Db) {
    && ValidSchema(sch)
    && |db.rows| == |sch|
    && (forall s :: s in db.cells <==> HasSlot(sch, db.rows, s))
    && (forall s | s in db.cells :: CellFits(sch[s.t].props[s.c], db.rows, db.cells[s]))
  }

  // What well-formedness says about one slot.
  lemma {:induction false} CellOk(sch: Schema, db: Db, s: Slot)
    requires Valid(sch, db) && s.t < |sch| && HasRow(db, s.t, s.r) && s.c < |sch[s.t].props|
    ensures s in db.cells && CellFits(sch[s.t].props[s.c], db.rows, db.cells[s])
    ensures sch[s.t].props[s.c].kind.HasTarget() ==> sch[s.t].props[s.c].kind.target < |sch| == |db.rows|
  {
  }

  predicate IsKeySlot(sch: Schema, s: Slot) {
    s.t < |sch| && sch[s.t].primary == Some(s.c)
  }

  // The primary key of a row of a keyed table; None is the null key.
  function KeyAt(sch: Schema, db: Db, t: nat, r: nat): Option<Scalar>
    requires t < |sch| && Keyed(sch, t)
    requires Slot(t, r, sch[t].primary.value) in db.cells
    requires db.cells[Slot(t, r, sch[t].primary.value)].One?
  {
    db.cells[Slot(t, r, sch[t].primary.value)].s
  }

  lemma {:induction false} KeyOk(sch: Schema, db: Db, t: nat, r: nat)
    requires Valid(sch, db) && t < |sch| && HasRow(db, t, r) && Keyed(sch, t)
    ensures var s := Slot(t, r, sch[t].primary.value);
            IsKeySlot(sch, s) && s in db.cells && db.cells[s].One?
  {
    CellOk(sch, db, Slot(t, r, sch[t].primary.value));
  }

  // No two rows of a keyed table share a primary key.
  ghost predicate KeysDistinct(sch: Schema, db: Db)
    requires Valid(sch, db)
  {
    forall t, r, q | 0 <= t < |sch| && Keyed(sch, t) && 0 <= r < q < db.rows[t] ::
      KeyAt(sch, db, t, r) != KeyAt(sch, db, t, q)
  }

  // What every write keeps: the tables stay well formed, no row disappears,
  // no primary key changes, and distinct keys stay distinct.
  ghost predicate Evolves(sch: Schema, a: Db, b: Db)
    requires Valid(sch, a)
  {
    && Valid(sch, b)
    && (forall t | 0 <= t < |sch| :: a.rows[t] <= b.rows[t])
    && (forall s | s in a.cells && IsKeySlot(sch, s) :: s in b.cells && b.cells[s] == a.cells[s])
    && (KeysDistinct(sch, a) ==> KeysDistinct(sch, b))
  }

  lemma {:induction false} EvolvesTransitive(sch: Schema, a: Db, b: Db, c: Db)
    requires Valid(sch, a) && Evolves(sch, a, b) && Evolves(sch, b, c)
    ensures Evolves(sch, a, c)
  {
    forall s | s in a.cells && IsKeySlot(sch, s)
      ensures s in c.cells && c.cells[s] == a.cells[s]
    {
      assert s in b.cells && b.cells[s] == a.cells[s];
    }
  }

  // The log only grows, and a step that leaves it as it was changed nothing.
  ghost predicate Logged(a: State, b: State) {
    a.log <= b.log && (|a.log| == |b.log| ==> a == b)
  }

  // ----- Primitive writes -----

  function EmptyScalar(ty: ScalarType): Scalar {
    match ty
    case IntType => IntValue(0)
    case StringType => StringValue("")
    case OtherType => OtherValue(0)
  }

  // The content of a column in a freshly added row.
  function EmptyCell(p: Property): Cell {
    match p.kind
    case ScalarKind(ty) => if p.nullable then One(None) else One(Some(EmptyScalar(ty)))
    case LinkKind(_) => Link(None)
    case _ => List([])
  }

  // The row that Table::add_empty_row followed by set_unique leaves: empty
  // cells everywhere except for the key.
  function NewCell(os: ObjectSchema, c: nat, key: Option<Scalar>): Cell
    requires c < |os.props|
  {
    if os.primary == Some(c) then One(key) else EmptyCell(os.props[c])
  }

  function NewCells(os: ObjectSchema, t: nat, r: nat, key: Option<Scalar>): map<Slot, Cell> {
    map c | 0 <= c < |os.props| :: Slot(t, r, c) := NewCell(os, c, key)
  }

  ghost predicate KeyFits(os: ObjectSchema, key: Option<Scalar>) {
    os.primary.Some? && os.primary.value < |os.props| ==>
      CellFits(os.props[os.primary.value], [], One(key))
  }

  function AddRow(sch: Schema, st: State, t: nat, key: Option<Scalar>): (st': State)
    requires Valid(sch, st.db) && t < |sch| && KeyFits(sch[t], key)
    requires Keyed(sch, t) ==> forall r | 0 <= r < st.db.rows[t] :: KeyAt(sch, st.db, t, r) != key
    ensures Evolves(sch, st.db, st'.db)
  {
    var r := st.db.rows[t];
    AddRowEvolves(sch, st.db, t, key);
    State(WithRow(sch, st.db, t, key), st.log + [Added(t, r)])
  }

  function WithRow(sch: Schema, db: Db, t: nat, key: Option<Scalar>): Db
    requires |db.rows| == |sch| && t < |sch|
  {
    Db(db.rows[t := db.rows[t] + 1], db.cells + NewCells(sch[t], t, db.rows[t], key))
  }

  lemma {:induction false} NewCellsAt(os: ObjectSchema, t: nat, r: nat, key: Option<Scalar>, s: Slot)
    ensures s in NewCells(os, t, r, key) <==> s.t == t && s.r == r && s.c < |os.props|
    ensures s in NewCells(os, t, r, key) ==> NewCells(os, t, r, key)[s] == NewCell(os, s.c, key)
  {
  }

  lemma {:induction false} WithRowSlot(sch: Schema, db: Db, t: nat, key: Option<Scalar>, s: Slot)
    requires Valid(sch, db) && t < |sch| && KeyFits(sch[t], key)
    ensures var db' := WithRow(sch, db, t, key);
            && (s in db'.cells <==> HasSlot(sch, db'.rows, s))
            && (s in db'.cells ==> CellFits(sch[s.t].props[s.c], db'.rows, db'.cells[s]))
            && (s in db.cells ==> s in db'.cells && db'.cells[s] == db.cells[s])
            && (s in db'.cells && s !in db.cells ==>
                  s.t == t && s.r == db.rows[t] && db'.cells[s] == NewCell(sch[t], s.c, key))
  {
    NewCellsAt(sch[t], t, db.rows[t], key, s);
    if s in db.cells {
      assert CellFits(sch[s.t].props[s.c], db.rows, db.cells[s]);
    }
  }

  lemma {:induction false} AddRowEvolves(sch: Schema, db: Db, t: nat, key: Option<Scalar>)
    requires Valid(sch, db) && t < |sch| && KeyFits(sch[t], key)
    requires Keyed(sch, t) ==> forall r | 0 <= r < db.rows[t] :: KeyAt(sch, db, t, r) != key
    ensures Evolves(sch, db, WithRow(sch, db, t, key))
  {
    var db' := WithRow(sch, db, t, key);
    forall s
      ensures s in db'.cells <==> HasSlot(sch, db'.rows, s)
      ensures s in db'.cells ==> CellFits(sch[s.t].props[s.c], db'.rows, db'.cells[s])
      ensures s in db.cells ==> s in db'.cells && db'.cells[s] == db.cells[s]
    {
      WithRowSlot(sch, db, t, key, s);
    }
    AddRowKeys(sch, db, t, key);
  }

  lemma {:induction false} AddRowKeys(sch: Schema, db: Db, t: nat, key: Option<Scalar>)
    requires Valid(sch, db) && t < |sch|
    requires Keyed(sch, t) ==> forall r | 0 <= r < db.rows[t] :: KeyAt(sch, db, t, r) != key
    requires Valid(sch, WithRow(sch, db, t, key))
    ensures KeysDistinct(sch, db) ==> KeysDistinct(sch, WithRow(sch, db, t, key))
  {
    var db' := WithRow(sch, db, t, key);
    if KeysDistinct(sch, db) {
      forall u, r, q | 0 <= u < |sch| && Keyed(sch, u) && 0 <= r < q < db'.rows[u]
        ensures KeyAt(sch, db', u, r) != KeyAt(sch, db', u, q)
      {
        var c := sch[u].primary.value;
        NewCellsAt(sch[t], t, db.rows[t], key, Slot(u, r, c));
        NewCellsAt(sch[t], t, db.rows[t], key, Slot(u, q, c));
        assert KeyAt(sch, db', u, r) == KeyAt(sch, db, u, r);
        if u == t && q == db.rows[t] {
          assert KeyAt(sch, db', u, q) == key;
        } else {
          assert KeyAt(sch, db', u, q) == KeyAt(sch, db, u, q);
        }
      }
    }
  }

  lemma {:induction false} AddRowAt(sch: Schema, st: State, t: nat, key: Option<Scalar>, s: Slot)
    requires Valid(sch, st.db) && t < |sch| && KeyFits(sch[t], key)
    requires Keyed(sch, t) ==> forall r | 0 <= r < st.db.rows[t] :: KeyAt(sch, st.db, t, r) != key
    ensures var db' := AddRow(sch, st, t, key).db;
            && (s in st.db.cells ==> s in db'.cells && db'.cells[s] == st.db.cells[s])
            && (s in db'.cells && s !in st.db.cells <==> s.t == t && s.r == st.db.rows[t] && s.c < |sch[t].props|)
            && (s in db'.cells && s !in st.db.cells ==> db'.cells[s] == NewCell(sch[t], s.c, key))
  {
    WithRowSlot(sch, st.db, t, key, s);
  }

  lemma {:induction false} AddRowKey(sch: Schema, st: State, t: nat, key: Option<Scalar>)
    requires Valid(sch, st.db) && t < |sch| && KeyFits(sch[t], key)
    requires Keyed(sch, t) ==> forall r | 0 <= r < st.db.rows[t] :: KeyAt(sch, st.db, t, r) != key
    ensures HasRow(AddRow(sch, st, t, key).db, t, st.db.rows[t])
    ensures Keyed(sch, t) ==> KeyAt(sch, AddRow(sch, st, t, key).db, t, st.db.rows[t]) == key
  {
    if Keyed(sch, t) {
      AddRowAt(sch, st, t, key, Slot(t, st.db.rows[t], sch[t].primary.value));
    }
  }

  // Overwrites one cell that is not a primary key.
  function Put(sch: Schema, st: State, s: Slot, cell: Cell): (st': State)
    requires Valid(sch, st.db) && s in st.db.cells && !IsKeySlot(sch, s)
    requires CellFits(sch[s.t].props[s.c], st.db.rows, cell)
    ensures Evolves(sch, st.db, st'.db)
  {
    var db' := Db(st.db.rows, st.db.cells[s := cell]);
    assert KeysDistinct(sch, st.db) ==> KeysDistinct(sch, db') by {
      forall u, r | 0 <= u < |sch| && Keyed(sch, u) && 0 <= r < st.db.rows[u]
        ensures KeyAt(sch, db', u, r) == KeyAt(sch, st.db, u, r)
      {
      }
    }
    State(db', st.log + [Wrote(s, st.db.cells[s], cell)])
  }

  // ----- Lookup by primary key (Table::find_first) -----

  function FindFrom(sch: Schema, db: Db, t: nat, key: Option<Scalar>, from: nat): (found: Option<nat>)
    requires Valid(sch, db) && t < |sch| && Keyed(sch, t) && from <= db.rows[t]
    ensures found.Some? ==>
              && from <= found.value < db.rows[t]
              && KeyAt(sch, db, t, found.value) == key
              && forall r | from <= r < found.value :: KeyAt(sch, db, t, r) != key
    ensures found.None? ==> forall r | from <= r < db.rows[t] :: KeyAt(sch, db, t, r) != key
    decreases db.rows[t] - from
  {
    if from == db.rows[t] then None
    else if KeyAt(sch, db, t, from) == key then Some(from)
    else FindFrom(sch, db, t, key, from + 1)
  }

  function FindFirst(sch: Schema, db: Db, t: nat, key: Option<Scalar>): (found: Option<nat>)
    requires Valid(sch, db) && t < |sch| && Keyed(sch, t)
    ensures found.Some? ==>
              && found.value < db.rows[t]
              && KeyAt(sch, db, t, found.value) == key
              && forall r | 0 <= r < found.value :: KeyAt(sch, db, t, r) != key
    ensures found.None? ==> forall r | 0 <= r < db.rows[t] :: KeyAt(sch, db, t, r) != key
  {
    FindFrom(sch, db, t, key, 0)
  }
}
