// Values that give one key two contents that no row can hold at once: no
// database holds them, so upserting them never comes to rest.
module Clashes {
  import opened Wrappers
  import opened Store
  import opened Upsert
  import opened ReadBack
  import opened Occurrences

  // ----- Contents that exclude each other -----

  // No row of type t can hold both objects: their keys differ, or some column
  // that both supply cannot hold both.
  ghost predicate RowClash(sch: Schema, t: nat, a: Value, b: Value)
    requires ValidSchema(sch)
    decreases a, 1
  {
    && t < |sch| && a.Object? && b.Object?
    && ((Keyed(sch, t) && KeyOf(sch[t], a) != KeyOf(sch[t], b))
        || exists c :: 0 <= c < |sch[t].props| && ColumnClash(sch, t, a, b, c))
  }

  ghost predicate ColumnClash(sch: Schema, t: nat, a: Value, b: Value, c: nat)
    requires ValidSchema(sch) && t < |sch| && a.Object? && b.Object? && c < |sch[t].props|
    decreases a, 0
  {
    && sch[t].primary != Some(c) && a.Field(c).Some? && b.Field(c).Some?
    && CellClash(sch, sch[t].props[c].kind, a.Field(c).value, b.Field(c).value)
  }

  // Different primitives; a link that is there and one that is not; links whose
  // targets differ; lists of different lengths, or with such elements.
  ghost predicate CellClash(sch: Schema, kind: Kind, x: Value, y: Value)
    requires ValidSchema(sch)
    decreases x, 4
  {
    match kind
    case ScalarKind(_) => x != y
    case LinkKind(u) => x.Null? != y.Null? || (!x.Null? && ItemClash(sch, kind, x, y))
    case BacklinksKind => false
    case _ =>
      && !x.SameList? && !y.SameList?
      && (Size(x) != Size(y)
          || (x.Many? && y.Many? && exists i ::
                 0 <= i < |x.elems| && i < |y.elems| && ItemClash(sch, kind, x.elems[i], y.elems[i])))
  }

  ghost predicate ItemClash(sch: Schema, kind: Kind, x: Value, y: Value)
    requires ValidSchema(sch)
    decreases x, 3
  {
    match kind
    case ScalarListKind(_) => x != y
    case LinkKind(u) => TargetClash(sch, u, x, y)
    case LinkListKind(u) => TargetClash(sch, u, x, y)
    case _ => false
  }

  ghost predicate TargetClash(sch: Schema, u: nat, x: Value, y: Value)
    requires ValidSchema(sch)
    decreases x, 2
  {
    (x.Managed? && y.Managed? && x.row != y.row) || RowClash(sch, u, x, y)
  }

  function Size(z: Value): nat {
    if z.Many? then |z.elems| else 0
  }

  lemma {:induction false} RowHoldsOne(sch: Schema, db: Db, t: nat, r: nat, a: Value, b: Value)
    requires ValidSchema(sch) && Valid(sch, db) && Stored(sch, db, t, r, a) && Stored(sch, db, t, r, b)
    ensures !RowClash(sch, t, a, b)
    decreases a, 2
  {
    hide Valid, StoredCell, CellClash;
    forall c | 0 <= c < |sch[t].props|
      ensures !ColumnClash(sch, t, a, b, c)
    {
      if sch[t].primary != Some(c) && a.Field(c).Some? && b.Field(c).Some? {
        assert StoredColumn(sch, db, t, r, c, a.Field(c).value) && StoredColumn(sch, db, t, r, c, b.Field(c).value);
        CellHoldsOne(sch, db, sch[t].props[c], a.Field(c).value, b.Field(c).value, db.cells[Slot(t, r, c)]);
      }
    }
  }

  lemma {:induction false} CellHoldsOne(sch: Schema, db: Db, p: Property, x: Value, y: Value, cell: Cell)
    requires ValidSchema(sch) && Valid(sch, db) && StoredCell(sch, db, p, x, cell) && StoredCell(sch, db, p, y, cell)
    ensures !CellClash(sch, p.kind, x, y)
    decreases x, 4
  {
    hide Valid, StoredItem, ItemClash;
    match p.kind
    case LinkKind(u) =>
      if !x.Null? && !y.Null? {
        ItemHoldsOne(sch, db, p.kind, x, y, Row(cell.to.value));
      }
    case ScalarListKind(_) =>
      if x.Many? && y.Many? {
        forall i | 0 <= i < |x.elems| && i < |y.elems|
          ensures !ItemClash(sch, p.kind, x.elems[i], y.elems[i])
        {
          assert StoredItem(sch, db, p.kind, x.elems[i], cell.items[i])
              && StoredItem(sch, db, p.kind, y.elems[i], cell.items[i]);
          ItemHoldsOne(sch, db, p.kind, x.elems[i], y.elems[i], cell.items[i]);
        }
      }
    case LinkListKind(_) =>
      if x.Many? && y.Many? {
        forall i | 0 <= i < |x.elems| && i < |y.elems|
          ensures !ItemClash(sch, p.kind, x.elems[i], y.elems[i])
        {
          assert StoredItem(sch, db, p.kind, x.elems[i], cell.items[i])
              && StoredItem(sch, db, p.kind, y.elems[i], cell.items[i]);
          ItemHoldsOne(sch, db, p.kind, x.elems[i], y.elems[i], cell.items[i]);
        }
      }
    case _ =>
  }

  lemma {:induction false} ItemHoldsOne(sch: Schema, db: Db, kind: Kind, x: Value, y: Value, item: Item)
    requires ValidSchema(sch) && Valid(sch, db) && StoredItem(sch, db, kind, x, item)
             && StoredItem(sch, db, kind, y, item)
    ensures !ItemClash(sch, kind, x, y)
    decreases x, 3
  {
    hide Valid, RowClash;
    if kind.HasTarget() && !x.Managed? && !y.Managed? {
      RowHoldsOne(sch, db, kind.target, item.r, x, y);
    } else if kind.HasTarget() {
      ObjectsOnly(sch, kind.target, x, y);
    }
  }

  lemma {:induction false} ObjectsOnly(sch: Schema, t: nat, x: Value, y: Value)
    requires ValidSchema(sch)
    ensures RowClash(sch, t, x, y) ==> x.Object? && y.Object?
  {
  }

  // ----- What is stored below a stored value -----

  // Every object that a stored value supplies is stored somewhere.
  lemma {:induction false} OccursStored(sch: Schema, db: Db, t: nat, r: nat, v: Value, u: nat,
                                        w: Value) returns (q: nat)
    requires Valid(sch, db) && Stored(sch, db, t, r, v) && Occurs(sch, 0, t, v, u, w)
    ensures Stored(sch, db, u, q, w)
    decreases v, 2
  {
    hide Valid, StoredCell, OccursIn;
    if t == u && v == w {
      q := r;
    } else {
      var c :| 0 <= c < |sch[t].props| && OccursAt(sch, 0, t, v, c, u, w);
      assert StoredColumn(sch, db, t, r, c, v.Field(c).value);
      q := OccursInStored(sch, db, sch[t].props[c], v.Field(c).value, db.cells[Slot(t, r, c)], u, w);
    }
  }

  lemma {:induction false} OccursInStored(sch: Schema, db: Db, p: Property, z: Value, cell: Cell, u: nat,
                                          w: Value) returns (q: nat)
    requires Valid(sch, db) && StoredCell(sch, db, p, z, cell) && OccursIn(sch, 0, p.kind, z, u, w)
    ensures Stored(sch, db, u, q, w)
    decreases z, 4
  {
    hide Valid, Occurs;
    match p.kind
    case LinkKind(target) =>
      q := OccursStored(sch, db, target, cell.to.value, z, u, w);
    case LinkListKind(target) =>
      var i :| 0 <= i < |z.elems| && OccursElem(sch, 0, target, z.elems[i], u, w);
      assert StoredItem(sch, db, p.kind, z.elems[i], cell.items[i]);
      q := OccursStored(sch, db, target, cell.items[i].r, z.elems[i], u, w);
  }

  // ----- Main results -----

  // The value supplies two objects with one key that no row can hold both.
  ghost predicate Contradicts(sch: Schema, t: nat, v: Value, u: nat, a: Value, b: Value)
    requires ValidSchema(sch)
  {
    && u < |sch| && Keyed(sch, u) && a.Object? && b.Object?
    && Occurs(sch, 0, t, v, u, a) && Occurs(sch, 0, t, v, u, b)
    && KeyOf(sch[u], a) == KeyOf(sch[u], b) && RowClash(sch, u, a, b)
  }

  lemma {:induction false} ConflictIsNeverStored(sch: Schema, db: Db, t: nat, r: nat, v: Value, u: nat, a: Value,
                                                 b: Value)
    requires ValidSchema(sch) && Valid(sch, db) && KeysDistinct(sch, db) && Contradicts(sch, t, v, u, a, b)
    ensures !Stored(sch, db, t, r, v)
  {
    hide Valid, Occurs, RowClash;
    if Stored(sch, db, t, r, v) {
      var q := OccursStored(sch, db, t, r, v, u, a);
      var p := OccursStored(sch, db, t, r, v, u, b);
      UniqueKey(sch, db, u, q);
      UniqueKey(sch, db, u, p);
      RowHoldsOne(sch, db, u, q, a, b);
      assert false;
    }
  }

  // So no state is at rest under it: however often it has been upserted, the
  // next upsert fails or writes again.
  lemma {:induction false} UpsertNeverSettles(sch: Schema, depth: nat, st: State, t: nat, v: Value,
                                              current: Option<nat>, u: nat, a: Value, b: Value)
    requires Valid(sch, st.db) && KeysDistinct(sch, st.db) && t < |sch|
             && (current.Some? ==> HasRow(st.db, t, current.value))
    requires ValidSchema(sch) && Contradicts(sch, t, v, u, a, b)
    ensures var res := Create(sch, depth, st, t, v, UpdateModified, current);
            res.out.Done? ==> |st.log| < |res.st.log|
  {
    hide Valid, KeysDistinct, Create, Stored, Contradicts;
    var res := Create(sch, depth, st, t, v, UpdateModified, current);
    if res.out.Done? && |st.log| == |res.st.log| {
      assert res == Res(st, Done(res.out.value));
      QuietRow(sch, depth, st, t, v, current);
      UnchangedIffStored(sch, depth, st, t, res.out.value, v, current);
      ConflictIsNeverStored(sch, st.db, t, res.out.value, v, u, a, b);
      assert false;
    }
  }

  // A run on a type without keys that writes nothing was given its row.
  lemma {:induction false} QuietRow(sch: Schema, depth: nat, st: State, t: nat, v: Value, current: Option<nat>)
    requires Valid(sch, st.db) && t < |sch| && (current.Some? ==> HasRow(st.db, t, current.value))
    requires Create(sch, depth, st, t, v, UpdateModified, current).out.Done?
    requires Create(sch, depth, st, t, v, UpdateModified, current).st == st
    ensures !Keyed(sch, t) ==> current == Some(Create(sch, depth, st, t, v, UpdateModified, current).out.value)
  {
    hide Valid, KeysDistinct, Populate;
    var got := GetOrCreateRow(sch, st, t, v, UpdateModified, current);
  }
}
