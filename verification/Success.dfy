// When create and setting a property succeed, whatever the value nests: a condition
// on the schema and the value, without the loops and policies that carry it out.
module Success {
  import opened Wrappers
  import opened Store
  import opened Upsert
  import opened Leaving

  // Which condition is meant. The sure one takes every object to be new, wants the
  // managed rows to exist among the given ones, keeps lists apart from what is nested
  // in them, and leaves no keyed objects to ForceCreate. The other is what a
  // success cannot do without.
  datatype Asked = Asked(policy: Policy, sure: bool, rows: seq<nat>)

  // The key given, else the default, else null, is one the column can hold.
  predicate KeyReady(os: ObjectSchema, v: Value) {
    && v.Object? && os.primary.Some? && os.primary.value < |os.props|
    && var p := os.props[os.primary.value];
       match v.Field(os.primary.value)
       case Some(z) => FitsKey(p, z)
       case None => if p.dflt.Some? then FitsKey(p, p.dflt.value) else p.nullable
  }

  predicate FitsKey(p: Property, z: Value) {
    if z.Null? then p.nullable else z.Plain? && p.kind == ScalarKind(z.s.Type())
  }

  // The object is sure to be in a new row, so that its defaults are needed.
  predicate AsNew(sch: Schema, q: Asked, t: nat)
    requires t < |sch|
  {
    q.sure || q.policy == ForceCreate || (q.policy == UpdateAll && !Keyed(sch, t))
  }

  ghost predicate Ready(sch: Schema, d: nat, q: Asked, t: nat, v: Value)
    decreases d, v, 3
  {
    && t < |sch| && v.Object?
    && (Keyed(sch, t) ==> KeyReady(sch[t], v) && !(q.sure && q.policy == ForceCreate))
    && forall c | 0 <= c < |sch[t].props| && sch[t].primary != Some(c) :: ColumnReady(sch, d, q, t, v, c)
  }

  // What is given for the column, or else its default in a new row, can be set; a
  // required column of a new row may be left out only by an array of values.
  ghost predicate ColumnReady(sch: Schema, d: nat, q: Asked, t: nat, v: Value, c: nat)
    requires t < |sch| && v.Object? && c < |sch[t].props|
    decreases d, v, 2
  {
    var p := sch[t].props[c];
    if v.Field(c).Some? then ValueReady(sch, d, q, OwnerOf(sch, t, v), p, v.Field(c).value)
    else if !AsNew(sch, q, t) then true
    else if p.dflt.Some? then d > 0 && ValueReady(sch, d - 1, q, OwnerOf(sch, t, v), p, p.dflt.value)
    else p.nullable || p.kind.IsArray() || v.positional
  }

  ghost function OwnerOf(sch: Schema, t: nat, v: Value): Owner
    requires t < |sch| && v.Object?
  {
    Owner(t, if Keyed(sch, t) && KeyReady(sch[t], v) && sch[t].props[sch[t].primary.value].kind.ScalarKind?
             then KeyOf(sch[t], v).value
             else None)
  }

  ghost predicate ValueReady(sch: Schema, d: nat, q: Asked, own: Owner, p: Property, z: Value)
    decreases d, z, 5
  {
    match p.kind
    case ScalarKind(ty) => if z.Null? then p.nullable else z.Plain? && z.s.Type() == ty
    case ScalarListKind(ty) =>
      z.Null? || z.SameList? ||
      (z.Many? && forall i | 0 <= i < |z.elems| :: z.elems[i].Plain? && z.elems[i].s.Type() == ty)
    case LinkKind(u) => if z.Null? then p.nullable else ElementReady(sch, d, q, u, z)
    case LinkListKind(u) =>
      z.Null? || z.SameList? ||
      (z.Many? && forall i | 0 <= i < |z.elems| ::
         ElementReady(sch, d, q, u, z.elems[i]) && Aside(sch, d, q, own, u, z.elems[i]))
    case BacklinksKind => false
  }

  // A managed row, or an object that can be created.
  ghost predicate ElementReady(sch: Schema, d: nat, q: Asked, u: nat, z: Value)
    decreases d, z, 4
  {
    if z.Managed? then u < |sch| && (q.sure ==> u < |q.rows| && z.row < q.rows[u])
    else Ready(sch, d, q, u, z)
  }

  // No object in an element reaches the list it is an element of.
  ghost predicate Aside(sch: Schema, d: nat, q: Asked, own: Owner, u: nat, e: Value) {
    q.sure && q.policy == UpdateModified ==> Clear(sch, d, own, u, e)
  }

  ghost predicate AtMost(a: seq<nat>, b: seq<nat>) {
    |a| <= |b| && forall i | 0 <= i < |a| :: a[i] <= b[i]
  }

  lemma {:induction false} GrowsFrom(sch: Schema, q: Asked, a: Db, b: Db)
    requires Valid(sch, a) && Evolves(sch, a, b) && AtMost(q.rows, a.rows)
    ensures AtMost(q.rows, b.rows)
  {
    hide KeysDistinct;
  }

  lemma {:induction false} KeyDone(sch: Schema, t: nat, v: Value)
    requires ValidSchema(sch) && t < |sch| && Keyed(sch, t) && v.Object?
    ensures KeyReady(sch[t], v) <==> KeyOf(sch[t], v).Done?
    ensures KeyReady(sch[t], v) ==> OwnerOf(sch, t, v) == Owner(t, KeyOf(sch[t], v).value)
  {
  }

  // ----- The sure condition is enough -----

  lemma {:induction false} RowReady(sch: Schema, depth: nat, st: State, t: nat, v: Value, q: Asked,
                                    current: Option<nat>)
    requires Valid(sch, st.db) && (current.Some? ==> t < |sch| && HasRow(st.db, t, current.value))
    requires q.sure && Ready(sch, depth, q, t, v)
    ensures var got := GetOrCreateRow(sch, st, t, v, q.policy, current);
            got.out.Done? && Owns(sch, got.st.db, RowId(t, got.out.value.row), OwnerOf(sch, t, v))
  {
    hide KeysDistinct, FindFirst, ColumnReady;
    if Keyed(sch, t) {
      KeyDone(sch, t, v);
      var key := KeyOf(sch[t], v).value;
      if FindFirst(sch, st.db, t, key).None? {
        AddRowKey(sch, st, t, key);
      }
    }
  }

  lemma {:induction false} CreateSucceeds(sch: Schema, depth: nat, st: State, t: nat, v: Value, q: Asked,
                                          current: Option<nat>)
    requires Valid(sch, st.db) && (current.Some? ==> t < |sch| && HasRow(st.db, t, current.value))
    requires q.sure && AtMost(q.rows, st.db.rows) && Ready(sch, depth, q, t, v)
    ensures Create(sch, depth, st, t, v, q.policy, current).out.Done?
    decreases depth, v, 3, 0
  {
    hide Valid, KeysDistinct, Owns, OwnerOf, Populate, ColumnReady, AtMost;
    RowReady(sch, depth, st, t, v, q, current);
    var got := GetOrCreateRow(sch, st, t, v, q.policy, current);
    GrowsFrom(sch, q, st.db, got.st.db);
    PopulateSucceeds(sch, depth, got.st, t, got.out.value.row, v, got.out.value.created, q, 0);
  }

  lemma {:induction false} PopulateSucceeds(sch: Schema, depth: nat, st: State, t: nat, r: nat, v: Value, created: bool,
                                            q: Asked, i: nat)
    requires Valid(sch, st.db) && t < |sch| && HasRow(st.db, t, r) && v.Object? && i <= |sch[t].props|
    requires q.sure && AtMost(q.rows, st.db.rows) && Owns(sch, st.db, RowId(t, r), OwnerOf(sch, t, v))
    requires forall c | i <= c < |sch[t].props| && sch[t].primary != Some(c) :: ColumnReady(sch, depth, q, t, v, c)
    ensures Populate(sch, depth, st, t, r, v, created, q.policy, i).out.Done?
    decreases depth, v, 2, |sch[t].props| - i
  {
    hide Valid, KeysDistinct, Evolves, Owns, OwnerOf, PopulateOne, ColumnReady, AtMost;
    if i < |sch[t].props| {
      OneSucceeds(sch, depth, st, t, r, v, created, q, i);
      var step := PopulateOne(sch, depth, st, t, r, v, created, q.policy, i);
      GrowsFrom(sch, q, st.db, step.st.db);
      OwnsLater(sch, st.db, step.st.db, RowId(t, r), OwnerOf(sch, t, v));
      PopulateSucceeds(sch, depth, step.st, t, r, v, created, q, i + 1);
    }
  }

  lemma {:induction false} OneSucceeds(sch: Schema, depth: nat, st: State, t: nat, r: nat, v: Value, created: bool,
                                       q: Asked, i: nat)
    requires Valid(sch, st.db) && t < |sch| && HasRow(st.db, t, r) && v.Object? && i < |sch[t].props|
    requires q.sure && AtMost(q.rows, st.db.rows) && Owns(sch, st.db, RowId(t, r), OwnerOf(sch, t, v))
    requires sch[t].primary != Some(i) ==> ColumnReady(sch, depth, q, t, v, i)
    ensures PopulateOne(sch, depth, st, t, r, v, created, q.policy, i).out.Done?
    decreases depth, v, 1, 0
  {
    hide Valid, KeysDistinct, Evolves, Owns, OwnerOf, SetProperty, AtMost, ElementReady, Aside;
    var p, given := sch[t].props[i], v.Field(i);
    SchemaGiven(sch, st.db);
    if sch[t].primary != Some(i) {
      if given.Some? {
        SetSucceeds(sch, depth, st, Slot(t, r, i), given.value, q, false, OwnerOf(sch, t, v));
      } else if created && p.dflt.Some? {
        SetSucceeds(sch, depth - 1, st, Slot(t, r, i), p.dflt.value, q, true, OwnerOf(sch, t, v));
      }
    }
  }

  lemma {:induction false} SchemaGiven(sch: Schema, db: Db)
    requires Valid(sch, db)
    ensures ValidSchema(sch) && |db.rows| == |sch|
  {
  }

  lemma {:induction false} SetSucceeds(sch: Schema, depth: nat, st: State, s: Slot, z: Value, q: Asked,
                                       isDefault: bool, own: Owner)
    requires s.t < |sch| && Here(sch, st.db, s.t, s.r, s.c) && q.sure && AtMost(q.rows, st.db.rows)
    requires Owns(sch, st.db, RowId(s.t, s.r), own) && ValueReady(sch, depth, q, own, sch[s.t].props[s.c], z)
    ensures SetProperty(sch, depth, st, s.t, s.r, s.c, z, q.policy, isDefault).out.Done?
    decreases depth, z, 5, 0
  {
    hide Valid, KeysDistinct, Evolves, Owns, Unbox, Assign, AtMost, ElementReady, Aside;
    CellOk(sch, st.db, s);
    SchemaGiven(sch, st.db);
    var p := sch[s.t].props[s.c];
    if p.kind.LinkKind? && !z.Null? {
      UnboxSucceeds(sch, depth, st, p.kind, z, q, st.db.cells[s].to);
    } else if p.kind.ScalarListKind? || p.kind.LinkListKind? {
      AssignSucceeds(sch, depth, st, s, z, q, own);
    }
  }

  // The element of a list or the object of a link can be unboxed.
  ghost predicate ItemReady(sch: Schema, d: nat, q: Asked, kind: Kind, z: Value) {
    match kind
    case ScalarListKind(ty) => z.Plain? && z.s.Type() == ty
    case LinkKind(u) => ElementReady(sch, d, q, u, z)
    case LinkListKind(u) => ElementReady(sch, d, q, u, z)
    case _ => false
  }

  lemma {:induction false} UnboxSucceeds(sch: Schema, depth: nat, st: State, kind: Kind, z: Value, q: Asked,
                                         current: Option<nat>)
    requires Valid(sch, st.db) && (kind.HasTarget() ==> kind.target < |sch|)
    requires kind.HasTarget() || kind.ScalarListKind?
    requires kind.HasTarget() && current.Some? ==> HasRow(st.db, kind.target, current.value)
    requires q.sure && AtMost(q.rows, st.db.rows) && ItemReady(sch, depth, q, kind, z)
    ensures Unbox(sch, depth, st, kind, z, q.policy, current).out.Done?
    decreases depth, z, 4, 0
  {
    hide Valid, KeysDistinct, Evolves, Create, Ready;
    if kind.HasTarget() && !z.Managed? {
      CreateSucceeds(sch, depth, st, kind.target, z, q, current);
    }
  }

  lemma {:induction false} AssignSucceeds(sch: Schema, depth: nat, st: State, s: Slot, z: Value, q: Asked, own: Owner)
    requires s.t < |sch| && ListHere(sch, st.db, s) && q.sure && AtMost(q.rows, st.db.rows)
    requires Owns(sch, st.db, RowId(s.t, s.r), own) && ValueReady(sch, depth, q, own, sch[s.t].props[s.c], z)
    ensures Assign(sch, depth, st, s.t, s.r, s.c, z, q.policy).out.Done?
    decreases depth, z, 4, 1
  {
    hide Valid, KeysDistinct, Owns, AppendFrom, AssignInPlace, AtMost, ElementReady, Clear;
    CellOk(sch, st.db, s);
    if z.Many? {
      if q.policy == UpdateModified {
        InPlaceSucceeds(sch, depth, st, s, z, q, own, |Items(st, s)|, 0);
      } else {
        GrowsFrom(sch, q, st.db, RemoveAll(sch, st, s).db);
        AppendSucceeds(sch, depth, RemoveAll(sch, st, s), s, z, q, 0);
      }
    }
  }

  lemma {:induction false} AppendSucceeds(sch: Schema, depth: nat, st: State, s: Slot, z: Value, q: Asked, i: nat)
    requires s.t < |sch| && ListHere(sch, st.db, s) && z.Many? && i <= |z.elems|
    requires q.sure && AtMost(q.rows, st.db.rows)
    requires forall k | 0 <= k < |z.elems| :: ItemReady(sch, depth, q, sch[s.t].props[s.c].kind, z.elems[k])
    ensures AppendFrom(sch, depth, st, s, z, q.policy, i).out.Done?
    decreases depth, z, 2, |z.elems| - i
  {
    hide Valid, KeysDistinct, Evolves, Append, Unbox, AtMost, ItemReady;
    if i < |z.elems| {
      CellOk(sch, st.db, s);
      UnboxSucceeds(sch, depth, st, sch[s.t].props[s.c].kind, z.elems[i], q, None);
      AppendExact(sch, depth, st, s, z.elems[i], q.policy);
      var step := Append(sch, depth, st, s, z.elems[i], q.policy);
      GrowsFrom(sch, q, st.db, step.st.db);
      AppendSucceeds(sch, depth, step.st, s, z, q, i + 1);
    }
  }

  lemma {:induction false} InPlaceSucceeds(sch: Schema, depth: nat, st: State, s: Slot, z: Value, q: Asked, own: Owner,
                                           sz: nat, i: nat)
    requires s.t < |sch| && ListHere(sch, st.db, s) && z.Many? && i <= |z.elems|
    requires q.sure && q.policy == UpdateModified && AtMost(q.rows, st.db.rows)
    requires Owns(sch, st.db, RowId(s.t, s.r), own) && s in st.db.cells && st.db.cells[s].List?
    requires |Items(st, s)| == if i < sz then sz else i
    requires var kind := sch[s.t].props[s.c].kind;
             forall k | 0 <= k < |z.elems| ::
               ItemReady(sch, depth, q, kind, z.elems[k])
               && (kind.HasTarget() ==> Clear(sch, depth, own, kind.target, z.elems[k]))
    ensures AssignInPlace(sch, depth, st, s, z, sz, i).out.Done?
    decreases depth, z, 2, |z.elems| - i
  {
    hide Valid, KeysDistinct, Evolves, Owns, Append, SetIfDifferent, Trim, Unbox, AtMost, ItemReady, Clear;
    CellOk(sch, st.db, s);
    if i == |z.elems| {
      TrimExact(sch, st, s, i, sz);
    } else {
      ElementSucceeds(sch, depth, st, s, z.elems[i], q, own, sz, i);
      var step := if i < sz then SetIfDifferent(sch, depth, st, s, z.elems[i], i)
                  else Append(sch, depth, st, s, z.elems[i], UpdateModified);
      GrowsFrom(sch, q, st.db, step.st.db);
      OwnsLater(sch, st.db, step.st.db, RowId(s.t, s.r), own);
      InPlaceSucceeds(sch, depth, step.st, s, z, q, own, sz, i + 1);
    }
  }

  lemma {:induction false} ElementSucceeds(sch: Schema, depth: nat, st: State, s: Slot, e: Value, q: Asked, own: Owner,
                                           sz: nat, i: nat)
    requires s.t < |sch| && ListHere(sch, st.db, s)
    requires q.sure && q.policy == UpdateModified && AtMost(q.rows, st.db.rows)
    requires Owns(sch, st.db, RowId(s.t, s.r), own) && s in st.db.cells && st.db.cells[s].List?
    requires |Items(st, s)| == if i < sz then sz else i
    requires var kind := sch[s.t].props[s.c].kind;
             ItemReady(sch, depth, q, kind, e) && (kind.HasTarget() ==> Clear(sch, depth, own, kind.target, e))
    ensures var step := if i < sz then SetIfDifferent(sch, depth, st, s, e, i)
                        else Append(sch, depth, st, s, e, UpdateModified);
            && step.out.Done? && s in step.st.db.cells && step.st.db.cells[s].List?
            && |Items(step.st, s)| == if i + 1 < sz then sz else i + 1
    decreases depth, e, 6, 0
  {
    hide Valid, KeysDistinct, Evolves, Owns, Append, SetIfDifferent, Unbox, AtMost, ItemReady, Clear;
    var kind, items := sch[s.t].props[s.c].kind, Items(st, s);
    CellOk(sch, st.db, s);
    var current := if i < sz then CurrentRow(items[i]) else None;
    if i < sz {
      assert ItemFits(kind, st.db.rows, items[i]);
    }
    UnboxSucceeds(sch, depth, st, kind, e, q, current);
    UnboxLeaves(sch, depth, st, kind, e, UpdateModified, current, RowId(s.t, s.r), own);
    if i < sz {
      SetExact(sch, depth, st, s, e, i);
    } else {
      AppendExact(sch, depth, st, s, e, UpdateModified);
    }
  }

  // ----- No success without the other -----

  lemma {:induction false} CreateNeeds(sch: Schema, depth: nat, st: State, t: nat, v: Value, q: Asked,
                                       current: Option<nat>)
    requires Valid(sch, st.db) && t < |sch| && (current.Some? ==> HasRow(st.db, t, current.value)) && !q.sure
    requires Create(sch, depth, st, t, v, q.policy, current).out.Done?
    ensures Ready(sch, depth, q, t, v)
    decreases depth, v, 3, 0
  {
    hide Valid, KeysDistinct, Populate, ColumnReady;
    SchemaGiven(sch, st.db);
    var got := GetOrCreateRow(sch, st, t, v, q.policy, current);
    if Keyed(sch, t) {
      KeyDone(sch, t, v);
    }
    PopulateNeeds(sch, depth, got.st, t, got.out.value.row, v, got.out.value.created, q, 0);
  }

  lemma {:induction false} PopulateNeeds(sch: Schema, depth: nat, st: State, t: nat, r: nat, v: Value, created: bool,
                                         q: Asked, i: nat)
    requires Valid(sch, st.db) && t < |sch| && HasRow(st.db, t, r) && v.Object? && i <= |sch[t].props|
    requires !q.sure && (AsNew(sch, q, t) ==> created)
    requires Populate(sch, depth, st, t, r, v, created, q.policy, i).out.Done?
    ensures forall c | i <= c < |sch[t].props| && sch[t].primary != Some(c) :: ColumnReady(sch, depth, q, t, v, c)
    decreases depth, v, 2, |sch[t].props| - i
  {
    hide Valid, KeysDistinct, Evolves, PopulateOne, ColumnReady;
    if i < |sch[t].props| {
      OneNeeds(sch, depth, st, t, r, v, created, q, i);
      var step := PopulateOne(sch, depth, st, t, r, v, created, q.policy, i);
      PopulateNeeds(sch, depth, step.st, t, r, v, created, q, i + 1);
    }
  }

  lemma {:induction false} OneNeeds(sch: Schema, depth: nat, st: State, t: nat, r: nat, v: Value, created: bool,
                                    q: Asked, i: nat)
    requires Valid(sch, st.db) && t < |sch| && HasRow(st.db, t, r) && v.Object? && i < |sch[t].props|
    requires !q.sure && (AsNew(sch, q, t) ==> created)
    requires PopulateOne(sch, depth, st, t, r, v, created, q.policy, i).out.Done?
    ensures sch[t].primary != Some(i) ==> ColumnReady(sch, depth, q, t, v, i)
    decreases depth, v, 1, 0
  {
    hide Valid, KeysDistinct, Evolves, SetProperty, OwnerOf, ElementReady, Aside;
    var p, given := sch[t].props[i], v.Field(i);
    SchemaGiven(sch, st.db);
    if sch[t].primary != Some(i) {
      if given.Some? {
        SetNeeds(sch, depth, st, Slot(t, r, i), given.value, q, false, OwnerOf(sch, t, v));
      } else if created && p.dflt.Some? {
        SetNeeds(sch, depth - 1, st, Slot(t, r, i), p.dflt.value, q, true, OwnerOf(sch, t, v));
      }
    }
  }

  lemma {:induction false} SetNeeds(sch: Schema, depth: nat, st: State, s: Slot, z: Value, q: Asked,
                                    isDefault: bool, own: Owner)
    requires s.t < |sch| && Here(sch, st.db, s.t, s.r, s.c) && !q.sure
    requires SetProperty(sch, depth, st, s.t, s.r, s.c, z, q.policy, isDefault).out.Done?
    ensures ValueReady(sch, depth, q, own, sch[s.t].props[s.c], z)
    decreases depth, z, 5, 0
  {
    hide Valid, KeysDistinct, Evolves, Unbox, Assign, ElementReady;
    CellOk(sch, st.db, s);
    SchemaGiven(sch, st.db);
    var p := sch[s.t].props[s.c];
    if p.nullable && z.Null? {
    } else if p.kind.LinkKind? {
      UnboxNeeds(sch, depth, st, p.kind, z, q, st.db.cells[s].to);
      NotNull(sch, depth, q, p.kind.target, z);
    } else if p.kind.ScalarListKind? || p.kind.LinkListKind? {
      AssignNeeds(sch, depth, st, s, z, q);
    }
  }

  lemma {:induction false} NotNull(sch: Schema, d: nat, q: Asked, u: nat, z: Value)
    requires ElementReady(sch, d, q, u, z)
    ensures !z.Null?
  {
  }

  lemma {:induction false} UnboxNeeds(sch: Schema, depth: nat, st: State, kind: Kind, z: Value, q: Asked,
                                      current: Option<nat>)
    requires Valid(sch, st.db) && (kind.HasTarget() ==> kind.target < |sch|)
    requires kind.HasTarget() || kind.ScalarListKind?
    requires kind.HasTarget() && current.Some? ==> HasRow(st.db, kind.target, current.value)
    requires !q.sure && Unbox(sch, depth, st, kind, z, q.policy, current).out.Done?
    ensures ItemReady(sch, depth, q, kind, z)
    decreases depth, z, 4, 0
  {
    hide Valid, KeysDistinct, Evolves, Create, Ready;
    if kind.HasTarget() && !z.Managed? {
      CreateNeeds(sch, depth, st, kind.target, z, q, current);
    }
  }

  lemma {:induction false} AssignNeeds(sch: Schema, depth: nat, st: State, s: Slot, z: Value, q: Asked)
    requires s.t < |sch| && ListHere(sch, st.db, s) && !q.sure
    requires Assign(sch, depth, st, s.t, s.r, s.c, z, q.policy).out.Done?
    ensures z.Null? || z.SameList? || z.Many?
    ensures z.Many? ==> forall k | 0 <= k < |z.elems| ::
              ItemReady(sch, depth, q, sch[s.t].props[s.c].kind, z.elems[k])
    decreases depth, z, 4, 1
  {
    hide Valid, KeysDistinct, AppendFrom, AssignInPlace, ItemReady;
    CellOk(sch, st.db, s);
    if z.Many? {
      if q.policy == UpdateModified {
        InPlaceNeeds(sch, depth, st, s, z, q, |st.db.cells[s].items|, 0);
      } else {
        AppendNeeds(sch, depth, RemoveAll(sch, st, s), s, z, q, 0);
      }
    }
  }

  lemma {:induction false} AppendNeeds(sch: Schema, depth: nat, st: State, s: Slot, z: Value, q: Asked, i: nat)
    requires s.t < |sch| && ListHere(sch, st.db, s) && z.Many? && i <= |z.elems| && !q.sure
    requires AppendFrom(sch, depth, st, s, z, q.policy, i).out.Done?
    ensures forall k | i <= k < |z.elems| :: ItemReady(sch, depth, q, sch[s.t].props[s.c].kind, z.elems[k])
    decreases depth, z, 2, |z.elems| - i
  {
    hide Valid, KeysDistinct, Evolves, Append, Unbox, ItemReady;
    if i < |z.elems| {
      CellOk(sch, st.db, s);
      AppendExact(sch, depth, st, s, z.elems[i], q.policy);
      UnboxNeeds(sch, depth, st, sch[s.t].props[s.c].kind, z.elems[i], q, None);
      AppendNeeds(sch, depth, Append(sch, depth, st, s, z.elems[i], q.policy).st, s, z, q, i + 1);
    }
  }

  lemma {:induction false} InPlaceNeeds(sch: Schema, depth: nat, st: State, s: Slot, z: Value, q: Asked, sz: nat,
                                        i: nat)
    requires s.t < |sch| && ListHere(sch, st.db, s) && z.Many? && i <= |z.elems|
    requires !q.sure && q.policy == UpdateModified
    requires AssignInPlace(sch, depth, st, s, z, sz, i).out.Done?
    ensures forall k | i <= k < |z.elems| :: ItemReady(sch, depth, q, sch[s.t].props[s.c].kind, z.elems[k])
    decreases depth, z, 2, |z.elems| - i
  {
    hide Valid, KeysDistinct, Evolves, Append, SetIfDifferent, Trim, Unbox, ItemReady;
    if i < |z.elems| {
      ElementNeeds(sch, depth, st, s, z.elems[i], q, sz, i);
      var step := if i < sz then SetIfDifferent(sch, depth, st, s, z.elems[i], i)
                  else Append(sch, depth, st, s, z.elems[i], UpdateModified);
      InPlaceNeeds(sch, depth, step.st, s, z, q, sz, i + 1);
    }
  }

  lemma {:induction false} ElementNeeds(sch: Schema, depth: nat, st: State, s: Slot, e: Value, q: Asked, sz: nat,
                                        i: nat)
    requires s.t < |sch| && ListHere(sch, st.db, s) && !q.sure && q.policy == UpdateModified
    requires (if i < sz then SetIfDifferent(sch, depth, st, s, e, i)
              else Append(sch, depth, st, s, e, UpdateModified)).out.Done?
    ensures ItemReady(sch, depth, q, sch[s.t].props[s.c].kind, e)
    decreases depth, e, 6, 0
  {
    hide Valid, KeysDistinct, Evolves, Unbox, ItemReady;
    var kind := sch[s.t].props[s.c].kind;
    CellOk(sch, st.db, s);
    var items := st.db.cells[s].items;
    if i >= sz {
      AppendExact(sch, depth, st, s, e, UpdateModified);
      UnboxNeeds(sch, depth, st, kind, e, q, None);
    } else {
      assert i < |items| ==> ItemFits(kind, st.db.rows, items[i]);
      UnboxNeeds(sch, depth, st, kind, e, q, CurrentRow(items[i]));
    }
  }

  // ----- Where the two meet -----

  // No object of the value or of a default it draws in has a primary key, and its
  // managed rows exist.
  ghost predicate Unkeyed(sch: Schema, d: nat, rows: seq<nat>, t: nat, v: Value)
    decreases d, v, 3
  {
    t < |sch| && v.Object? ==>
      && !Keyed(sch, t)
      && forall c | 0 <= c < |sch[t].props| :: UnkeyedAt(sch, d, rows, t, v, c)
  }

  ghost predicate UnkeyedAt(sch: Schema, d: nat, rows: seq<nat>, t: nat, v: Value, c: nat)
    requires t < |sch| && v.Object? && c < |sch[t].props|
    decreases d, v, 2
  {
    var p := sch[t].props[c];
    if v.Field(c).Some? then UnkeyedIn(sch, d, rows, p.kind, v.Field(c).value)
    else p.dflt.Some? && d > 0 ==> UnkeyedIn(sch, d - 1, rows, p.kind, p.dflt.value)
  }

  ghost predicate UnkeyedIn(sch: Schema, d: nat, rows: seq<nat>, kind: Kind, z: Value)
    decreases d, z, 5
  {
    match kind
    case LinkKind(u) => UnkeyedElement(sch, d, rows, u, z)
    case LinkListKind(u) => z.Many? ==> forall i | 0 <= i < |z.elems| :: UnkeyedElement(sch, d, rows, u, z.elems[i])
    case _ => true
  }

  ghost predicate UnkeyedElement(sch: Schema, d: nat, rows: seq<nat>, u: nat, z: Value)
    decreases d, z, 4
  {
    if z.Managed? then u < |rows| && z.row < rows[u] else Unkeyed(sch, d, rows, u, z)
  }

  ghost predicate Meet(q: Asked, sure: Asked) {
    !q.sure && sure == Asked(q.policy, true, sure.rows) && q.policy != UpdateModified
  }

  lemma {:induction false} SureObject(sch: Schema, d: nat, q: Asked, sure: Asked, t: nat, v: Value)
    requires Meet(q, sure) && Ready(sch, d, q, t, v) && Unkeyed(sch, d, sure.rows, t, v)
    ensures Ready(sch, d, sure, t, v)
    decreases d, v, 3
  {
    forall c | 0 <= c < |sch[t].props| && sch[t].primary != Some(c)
      ensures ColumnReady(sch, d, sure, t, v, c)
    {
      SureColumn(sch, d, q, sure, t, v, c);
    }
  }

  lemma {:induction false} SureColumn(sch: Schema, d: nat, q: Asked, sure: Asked, t: nat, v: Value, c: nat)
    requires Meet(q, sure) && t < |sch| && v.Object? && c < |sch[t].props| && !Keyed(sch, t)
    requires ColumnReady(sch, d, q, t, v, c) && UnkeyedAt(sch, d, sure.rows, t, v, c)
    ensures ColumnReady(sch, d, sure, t, v, c)
    decreases d, v, 2
  {
    hide ValueReady, UnkeyedIn;
    var p := sch[t].props[c];
    if v.Field(c).Some? {
      SureValue(sch, d, q, sure, OwnerOf(sch, t, v), p, v.Field(c).value);
    } else if p.dflt.Some? {
      SureValue(sch, d - 1, q, sure, OwnerOf(sch, t, v), p, p.dflt.value);
    }
  }

  lemma {:induction false} SureValue(sch: Schema, d: nat, q: Asked, sure: Asked, own: Owner, p: Property, z: Value)
    requires Meet(q, sure) && ValueReady(sch, d, q, own, p, z) && UnkeyedIn(sch, d, sure.rows, p.kind, z)
    ensures ValueReady(sch, d, sure, own, p, z)
    decreases d, z, 5
  {
    hide Clear, ElementReady, UnkeyedElement;
    if p.kind.LinkKind? && !z.Null? {
      SureElement(sch, d, q, sure, p.kind.target, z);
    } else if p.kind.LinkListKind? && z.Many? {
      forall i | 0 <= i < |z.elems|
        ensures ElementReady(sch, d, sure, p.kind.target, z.elems[i])
      {
        SureElement(sch, d, q, sure, p.kind.target, z.elems[i]);
      }
    }
  }

  lemma {:induction false} SureElement(sch: Schema, d: nat, q: Asked, sure: Asked, u: nat, z: Value)
    requires Meet(q, sure) && ElementReady(sch, d, q, u, z) && UnkeyedElement(sch, d, sure.rows, u, z)
    ensures ElementReady(sch, d, sure, u, z)
    decreases d, z, 4
  {
    hide Ready, Unkeyed;
    if !z.Managed? {
      SureObject(sch, d, q, sure, u, z);
    }
  }

  // Under UpdateAll and ForceCreate a value without keyed objects can be created
  // exactly if it is ready, in any state that has the rows it refers to.
  lemma {:induction false} CreateSucceedsIff(sch: Schema, depth: nat, st: State, t: nat, v: Value, policy: Policy,
                                             current: Option<nat>)
    requires Valid(sch, st.db) && t < |sch| && (current.Some? ==> HasRow(st.db, t, current.value))
    requires policy != UpdateModified && Unkeyed(sch, depth, st.db.rows, t, v)
    ensures Create(sch, depth, st, t, v, policy, current).out.Done? <==>
            Ready(sch, depth, Asked(policy, false, []), t, v)
  {
    hide Valid, KeysDistinct, Create, Ready, Unkeyed;
    var q, sure := Asked(policy, false, []), Asked(policy, true, st.db.rows);
    if Create(sch, depth, st, t, v, policy, current).out.Done? {
      CreateNeeds(sch, depth, st, t, v, q, current);
    }
    if Ready(sch, depth, q, t, v) {
      SureObject(sch, depth, q, sure, t, v);
      CreateSucceeds(sch, depth, st, t, v, sure, current);
    }
  }

  lemma {:induction false} SetSucceedsIff(sch: Schema, depth: nat, st: State, s: Slot, z: Value, policy: Policy)
    requires s.t < |sch| && Here(sch, st.db, s.t, s.r, s.c) && policy != UpdateModified
    requires UnkeyedIn(sch, depth, st.db.rows, sch[s.t].props[s.c].kind, z)
    ensures SetProperty(sch, depth, st, s.t, s.r, s.c, z, policy, false).out.Done? <==>
            ValueReady(sch, depth, Asked(policy, false, []), Owner(s.t, None), sch[s.t].props[s.c], z)
  {
    hide Valid, KeysDistinct, SetProperty, ValueReady, UnkeyedIn;
    var p, own := sch[s.t].props[s.c], OwnerAt(sch, st.db, s.t, s.r);
    var q, sure := Asked(policy, false, []), Asked(policy, true, st.db.rows);
    OtherOwner(sch, depth, q, Owner(s.t, None), own, p, z);
    if SetProperty(sch, depth, st, s.t, s.r, s.c, z, policy, false).out.Done? {
      SetNeeds(sch, depth, st, s, z, q, false, own);
    }
    if ValueReady(sch, depth, q, own, p, z) {
      SureValue(sch, depth, q, sure, own, p, z);
      SetSucceeds(sch, depth, st, s, z, sure, false, own);
    }
  }

  ghost function OwnerAt(sch: Schema, db: Db, t: nat, r: nat): (own: Owner)
    requires Valid(sch, db) && t < |sch| && HasRow(db, t, r)
    ensures Owns(sch, db, RowId(t, r), own)
  {
    Owner(t, if Keyed(sch, t) then KeyAt(sch, db, t, r) else None)
  }

  lemma {:induction false} OtherOwner(sch: Schema, d: nat, q: Asked, a: Owner, b: Owner, p: Property, z: Value)
    requires !q.sure
    ensures ValueReady(sch, d, q, a, p, z) <==> ValueReady(sch, d, q, b, p, z)
  {
    hide Clear, ElementReady;
  }
}
