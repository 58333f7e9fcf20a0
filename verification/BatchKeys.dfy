// When a batch update succeeds. Every matching row creates the objects of the
// value anew, so an object with a primary key, wherever it is in the value or in
// a default value it draws in, is refused on the second row.
module BatchKeys {
  import opened Wrappers
  import opened Store
  import opened Upsert
  import opened ReadBack
  import opened FlatCreate
  import opened ForceCreates
  import opened Occurrences
  import opened Results

  // ----- What is created had a free key, and its key is taken afterwards -----

  ghost predicate KeyFree(sch: Schema, db: Db, u: nat, w: Value)
    requires Valid(sch, db) && u < |sch| && Keyed(sch, u) && ValidSchema(sch)
  {
    w.Object? && KeyOf(sch[u], w).Done? && FindFirst(sch, db, u, KeyOf(sch[u], w).value).None?
  }

  ghost predicate KeyUsed(sch: Schema, db: Db, u: nat, w: Value)
    requires Valid(sch, db) && u < |sch| && Keyed(sch, u) && ValidSchema(sch)
  {
    w.Object? && KeyOf(sch[u], w).Done? && FindFirst(sch, db, u, KeyOf(sch[u], w).value).Some?
  }

  // A key that is in use stays in use.
  lemma {:induction false} UsedLater(sch: Schema, a: Db, b: Db, u: nat, w: Value)
    requires Valid(sch, a) && Evolves(sch, a, b) && u < |sch| && Keyed(sch, u) && ValidSchema(sch)
    ensures KeyUsed(sch, a, u, w) ==> KeyUsed(sch, b, u, w)
    ensures KeyFree(sch, b, u, w) ==> KeyFree(sch, a, u, w)
  {
    hide KeysDistinct;
    if KeyUsed(sch, a, u, w) {
      var r := FindFirst(sch, a, u, KeyOf(sch[u], w).value).value;
      KeyOk(sch, a, u, r);
      KeyOk(sch, b, u, r);
      assert KeyAt(sch, b, u, r) == KeyAt(sch, a, u, r);
    }
  }

  // Keys were free at the start, and are used at the end, of a step between.
  ghost predicate Taken(sch: Schema, a: Db, b: Db, u: nat, w: Value)
    requires Valid(sch, a) && Valid(sch, b) && u < |sch| && Keyed(sch, u) && ValidSchema(sch)
  {
    KeyFree(sch, a, u, w) && KeyUsed(sch, b, u, w)
  }

  lemma {:induction false} TakenBefore(sch: Schema, a: Db, b: Db, c: Db, u: nat, w: Value)
    requires Valid(sch, a) && Evolves(sch, a, b) && Evolves(sch, b, c)
    requires u < |sch| && Keyed(sch, u) && ValidSchema(sch) && Taken(sch, b, c, u, w)
    ensures Taken(sch, a, c, u, w)
  {
    hide Valid, KeysDistinct, KeyFree, KeyUsed;
    UsedLater(sch, a, b, u, w);
  }

  lemma {:induction false} TakenAfter(sch: Schema, a: Db, b: Db, c: Db, u: nat, w: Value)
    requires Valid(sch, a) && Evolves(sch, a, b) && Evolves(sch, b, c)
    requires u < |sch| && Keyed(sch, u) && ValidSchema(sch) && Taken(sch, a, b, u, w)
    ensures Taken(sch, a, c, u, w)
  {
    hide Valid, KeysDistinct, KeyFree, KeyUsed;
    UsedLater(sch, b, c, u, w);
  }

  lemma {:induction false} CreateTakes(sch: Schema, depth: nat, st: State, t: nat, v: Value, current: Option<nat>,
                                       u: nat, w: Value)
    requires Valid(sch, st.db) && t < |sch| && (current.Some? ==> HasRow(st.db, t, current.value))
    requires ValidSchema(sch) && u < |sch| && Keyed(sch, u) && v.Object? && Occurs(sch, depth, t, v, u, w)
    requires Create(sch, depth, st, t, v, ForceCreate, current).out.Done?
    ensures Taken(sch, st.db, Create(sch, depth, st, t, v, ForceCreate, current).st.db, u, w)
    decreases depth, v, 3, 0
  {
    hide Valid, KeysDistinct, Populate, OccursAt, Taken;
    var got := GetOrCreateRow(sch, st, t, v, ForceCreate, current);
    var r := got.out.value.row;
    var res := Populate(sch, depth, got.st, t, r, v, true, ForceCreate, 0);
    ForceRow(sch, st, t, v, current);
    if t == u && v == w {
      RowTakes(sch, st, t, v, current, res.st.db);
    } else {
      var c :| 0 <= c < |sch[t].props| && OccursAt(sch, depth, t, v, c, u, w);
      PopulateTakes(sch, depth, got.st, t, r, v, 0, c, u, w);
      TakenBefore(sch, st.db, got.st.db, res.st.db, u, w);
    }
  }

  lemma {:induction false} RowTakes(sch: Schema, st: State, t: nat, v: Value, current: Option<nat>, db: Db)
    requires Valid(sch, st.db) && t < |sch| && Keyed(sch, t) && v.Object? && ValidSchema(sch)
    requires current.Some? ==> HasRow(st.db, t, current.value)
    requires GetOrCreateRow(sch, st, t, v, ForceCreate, current).out.Done?
    requires Evolves(sch, GetOrCreateRow(sch, st, t, v, ForceCreate, current).st.db, db)
    ensures Taken(sch, st.db, db, t, v)
  {
    hide KeysDistinct;
    ForceKey(sch, st, t, v, current, db);
    var r := GetOrCreateRow(sch, st, t, v, ForceCreate, current).out.value.row;
    KeyOk(sch, db, t, r);
    assert KeyAt(sch, db, t, r) == KeyOf(sch[t], v).value;
  }

  lemma {:induction false} PopulateTakes(sch: Schema, depth: nat, st: State, t: nat, r: nat, v: Value, i: nat, c: nat,
                                         u: nat, w: Value)
    requires Valid(sch, st.db) && t < |sch| && HasRow(st.db, t, r) && v.Object? && i <= c < |sch[t].props|
    requires ValidSchema(sch) && u < |sch| && Keyed(sch, u) && OccursAt(sch, depth, t, v, c, u, w)
    requires Populate(sch, depth, st, t, r, v, true, ForceCreate, i).out.Done?
    ensures Taken(sch, st.db, Populate(sch, depth, st, t, r, v, true, ForceCreate, i).st.db, u, w)
    decreases depth, v, 2, |sch[t].props| - i
  {
    hide Valid, KeysDistinct, PopulateOne, OccursAt, Taken;
    var step := PopulateOne(sch, depth, st, t, r, v, true, ForceCreate, i);
    var res := Populate(sch, depth, step.st, t, r, v, true, ForceCreate, i + 1);
    if i == c {
      OneTakes(sch, depth, st, t, r, v, c, u, w);
      TakenAfter(sch, st.db, step.st.db, res.st.db, u, w);
    } else {
      PopulateTakes(sch, depth, step.st, t, r, v, i + 1, c, u, w);
      TakenBefore(sch, st.db, step.st.db, res.st.db, u, w);
    }
  }

  lemma {:induction false} OneTakes(sch: Schema, depth: nat, st: State, t: nat, r: nat, v: Value, c: nat, u: nat,
                                    w: Value)
    requires Valid(sch, st.db) && t < |sch| && HasRow(st.db, t, r) && v.Object? && c < |sch[t].props|
    requires ValidSchema(sch) && u < |sch| && Keyed(sch, u) && OccursAt(sch, depth, t, v, c, u, w)
    requires PopulateOne(sch, depth, st, t, r, v, true, ForceCreate, c).out.Done?
    ensures Taken(sch, st.db, PopulateOne(sch, depth, st, t, r, v, true, ForceCreate, c).st.db, u, w)
    decreases depth, v, 1, 0
  {
    hide KeysDistinct, Evolves, SetProperty, OccursIn, Taken;
    if v.Field(c).Some? {
      SetTakes(sch, depth, st, Slot(t, r, c), v.Field(c).value, false, u, w);
    } else {
      SetTakes(sch, depth - 1, st, Slot(t, r, c), sch[t].props[c].dflt.value, true, u, w);
    }
  }

  lemma {:induction false} SetTakes(sch: Schema, depth: nat, st: State, s: Slot, z: Value, isDefault: bool, u: nat,
                                    w: Value)
    requires s.t < |sch| && Here(sch, st.db, s.t, s.r, s.c)
    requires ValidSchema(sch) && u < |sch| && Keyed(sch, u) && OccursIn(sch, depth, sch[s.t].props[s.c].kind, z, u, w)
    requires SetProperty(sch, depth, st, s.t, s.r, s.c, z, ForceCreate, isDefault).out.Done?
    ensures Taken(sch, st.db, SetProperty(sch, depth, st, s.t, s.r, s.c, z, ForceCreate, isDefault).st.db, u, w)
    decreases depth, z, 5, 0
  {
    hide Valid, KeysDistinct, Evolves, UpdateLink, Assign, Taken, OccursElem;
    match sch[s.t].props[s.c].kind
    case LinkKind(target) => LinkTakes(sch, depth, st, s, z, u, w);
    case LinkListKind(target) => ListTakes(sch, depth, st, s, z, u, w);
    case _ =>
  }

  lemma {:induction false} LinkTakes(sch: Schema, depth: nat, st: State, s: Slot, z: Value, u: nat, w: Value)
    requires s.t < |sch| && Here(sch, st.db, s.t, s.r, s.c) && sch[s.t].props[s.c].kind.LinkKind? && z.Object?
    requires ValidSchema(sch) && u < |sch| && Keyed(sch, u)
    requires Occurs(sch, depth, sch[s.t].props[s.c].kind.target, z, u, w)
    requires UpdateLink(sch, depth, st, s.t, s.r, s.c, z, ForceCreate).out.Done?
    ensures Taken(sch, st.db, UpdateLink(sch, depth, st, s.t, s.r, s.c, z, ForceCreate).st.db, u, w)
    decreases depth, z, 4, 0
  {
    hide Valid, KeysDistinct, Create, Taken;
    var target := sch[s.t].props[s.c].kind.target;
    LinkDone(sch, depth, st, s, z);
    assert SetProperty(sch, depth, st, s.t, s.r, s.c, z, ForceCreate, false) ==
           UpdateLink(sch, depth, st, s.t, s.r, s.c, z, ForceCreate);
    var made := Create(sch, depth, st, target, z, ForceCreate, None);
    CreateTakes(sch, depth, st, target, z, None, u, w);
    TakenAfter(sch, st.db, made.st.db, UpdateLink(sch, depth, st, s.t, s.r, s.c, z, ForceCreate).st.db, u, w);
  }

  lemma {:induction false} ListTakes(sch: Schema, depth: nat, st: State, s: Slot, z: Value, u: nat, w: Value)
    requires s.t < |sch| && ListHere(sch, st.db, s) && sch[s.t].props[s.c].kind.LinkListKind? && z.Many?
    requires ValidSchema(sch) && u < |sch| && Keyed(sch, u) && OccursIn(sch, depth, sch[s.t].props[s.c].kind, z, u, w)
    requires Assign(sch, depth, st, s.t, s.r, s.c, z, ForceCreate).out.Done?
    ensures Taken(sch, st.db, Assign(sch, depth, st, s.t, s.r, s.c, z, ForceCreate).st.db, u, w)
    decreases depth, z, 4, 0
  {
    hide Valid, KeysDistinct, AppendFrom, Taken, OccursElem;
    var target := sch[s.t].props[s.c].kind.target;
    var k :| 0 <= k < |z.elems| && OccursElem(sch, depth, target, z.elems[k], u, w);
    var st' := RemoveAll(sch, st, s);
    ListStays(sch, st.db, st'.db, s);
    AppendTakes(sch, depth, st', s, z, 0, k, u, w);
    var res := AppendFrom(sch, depth, st', s, z, ForceCreate, 0);
    TakenBefore(sch, st.db, st'.db, res.st.db, u, w);
  }

  lemma {:induction false} ListStays(sch: Schema, a: Db, b: Db, s: Slot)
    requires s.t < |sch| && ListHere(sch, a, s) && Evolves(sch, a, b)
    ensures ListHere(sch, b, s)
  {
  }

  lemma {:induction false} AppendTakes(sch: Schema, depth: nat, st: State, s: Slot, z: Value, i: nat, k: nat, u: nat,
                                       w: Value)
    requires s.t < |sch| && ListHere(sch, st.db, s) && sch[s.t].props[s.c].kind.LinkListKind? && z.Many?
             && i <= k < |z.elems|
    requires ValidSchema(sch) && u < |sch| && Keyed(sch, u)
    requires OccursElem(sch, depth, sch[s.t].props[s.c].kind.target, z.elems[k], u, w)
    requires AppendFrom(sch, depth, st, s, z, ForceCreate, i).out.Done?
    ensures Taken(sch, st.db, AppendFrom(sch, depth, st, s, z, ForceCreate, i).st.db, u, w)
    decreases depth, z, 2, |z.elems| - i
  {
    hide Valid, KeysDistinct, Append, Taken, OccursElem;
    var step := Append(sch, depth, st, s, z.elems[i], ForceCreate);
    var res := AppendFrom(sch, depth, step.st, s, z, ForceCreate, i + 1);
    if i == k {
      ElementTakes(sch, depth, st, s, z.elems[i], u, w);
      TakenAfter(sch, st.db, step.st.db, res.st.db, u, w);
    } else {
      AppendTakes(sch, depth, step.st, s, z, i + 1, k, u, w);
      TakenBefore(sch, st.db, step.st.db, res.st.db, u, w);
    }
  }

  lemma {:induction false} ElementTakes(sch: Schema, depth: nat, st: State, s: Slot, e: Value, u: nat, w: Value)
    requires s.t < |sch| && ListHere(sch, st.db, s) && sch[s.t].props[s.c].kind.LinkListKind?
    requires ValidSchema(sch) && u < |sch| && Keyed(sch, u)
    requires OccursElem(sch, depth, sch[s.t].props[s.c].kind.target, e, u, w)
    requires Append(sch, depth, st, s, e, ForceCreate).out.Done?
    ensures Taken(sch, st.db, Append(sch, depth, st, s, e, ForceCreate).st.db, u, w)
    decreases depth, e, 6, 0
  {
    hide KeysDistinct, Create, Taken, Append;
    var kind := sch[s.t].props[s.c].kind;
    AppendExact(sch, depth, st, s, e, ForceCreate);
    var made := Unbox(sch, depth, st, kind, e, ForceCreate, None);
    assert made.st == Create(sch, depth, st, kind.target, e, ForceCreate, None).st;
    CreateTakes(sch, depth, st, kind.target, e, None, u, w);
    PutEvolves(sch, made.st, s, List(Items(made.st, s) + [made.out.value]));
    TakenAfter(sch, st.db, made.st.db, Append(sch, depth, st, s, e, ForceCreate).st.db, u, w);
  }

  // ----- What succeeded once succeeds again, or meets a key that is taken -----

  ghost predicate HoldsKeyed(sch: Schema, d: nat, t: nat, v: Value) {
    exists u: nat, w: Value :: u < |sch| && Keyed(sch, u) && Occurs(sch, d, t, v, u, w)
  }

  // The second of two runs of the same step. There are at least as many rows
  // in every table, before and after.
  ghost predicate Again<T>(a: Res<T>, b: Res<T>, keyed: bool) {
    if b.out.Done? then AtMost(a.st.db.rows, b.st.db.rows) else b.out == Fail(Duplicate) && keyed
  }

  lemma {:induction false} CreateAgain(sch: Schema, depth: nat, a: State, b: State, t: nat, v: Value,
                                       curA: Option<nat>, curB: Option<nat>)
    requires Valid(sch, a.db) && Valid(sch, b.db) && AtMost(a.db.rows, b.db.rows) && t < |sch|
    requires (curA.Some? ==> HasRow(a.db, t, curA.value)) && (curB.Some? ==> HasRow(b.db, t, curB.value))
    requires Create(sch, depth, a, t, v, ForceCreate, curA).out.Done?
    ensures Again(Create(sch, depth, a, t, v, ForceCreate, curA), Create(sch, depth, b, t, v, ForceCreate, curB),
                  HoldsKeyed(sch, depth, t, v))
    decreases depth, v, 3, 0
  {
    hide Valid, KeysDistinct, Populate, OccursAt;
    ForceRow(sch, a, t, v, curA);
    ForceRow(sch, b, t, v, curB);
    var gotA := GetOrCreateRow(sch, a, t, v, ForceCreate, curA);
    var gotB := GetOrCreateRow(sch, b, t, v, ForceCreate, curB);
    if gotB.out.Done? {
      PopulateAgain(sch, depth, gotA.st, gotB.st, t, gotA.out.value.row, gotB.out.value.row, v, 0);
    } else {
      assert Occurs(sch, depth, t, v, t, v);
    }
  }

  lemma {:induction false} PopulateAgain(sch: Schema, depth: nat, a: State, b: State, t: nat, r: nat, q: nat, v: Value,
                                         i: nat)
    requires Valid(sch, a.db) && Valid(sch, b.db) && AtMost(a.db.rows, b.db.rows) && t < |sch|
    requires HasRow(a.db, t, r) && HasRow(b.db, t, q) && v.Object? && i <= |sch[t].props|
    requires Populate(sch, depth, a, t, r, v, true, ForceCreate, i).out.Done?
    ensures Again(Populate(sch, depth, a, t, r, v, true, ForceCreate, i),
                  Populate(sch, depth, b, t, q, v, true, ForceCreate, i),
                  HoldsKeyed(sch, depth, t, v))
    decreases depth, v, 2, |sch[t].props| - i
  {
    hide Valid, KeysDistinct, PopulateOne, HoldsKeyed;
    if i < |sch[t].props| {
      OneAgain(sch, depth, a, b, t, r, q, v, i);
      var stepA := PopulateOne(sch, depth, a, t, r, v, true, ForceCreate, i);
      var stepB := PopulateOne(sch, depth, b, t, q, v, true, ForceCreate, i);
      if stepB.out.Done? {
        PopulateAgain(sch, depth, stepA.st, stepB.st, t, r, q, v, i + 1);
      }
    }
  }

  lemma {:induction false} OneAgain(sch: Schema, depth: nat, a: State, b: State, t: nat, r: nat, q: nat, v: Value,
                                    i: nat)
    requires Valid(sch, a.db) && Valid(sch, b.db) && AtMost(a.db.rows, b.db.rows) && t < |sch|
    requires HasRow(a.db, t, r) && HasRow(b.db, t, q) && v.Object? && i < |sch[t].props|
    requires PopulateOne(sch, depth, a, t, r, v, true, ForceCreate, i).out.Done?
    ensures Again(PopulateOne(sch, depth, a, t, r, v, true, ForceCreate, i),
                  PopulateOne(sch, depth, b, t, q, v, true, ForceCreate, i), HoldsKeyed(sch, depth, t, v))
    decreases depth, v, 1, 0
  {
    hide Valid, KeysDistinct, Evolves, SetProperty, HoldsKeyed, ReachesKeyed;
    var p, given := sch[t].props[i], v.Field(i);
    if sch[t].primary != Some(i) {
      if given.Some? {
        SetAgain(sch, depth, a, b, Slot(t, r, i), Slot(t, q, i), given.value, false);
        KeyedBelow(sch, depth, t, v, i);
      } else if p.dflt.Some? {
        SetAgain(sch, depth - 1, a, b, Slot(t, r, i), Slot(t, q, i), p.dflt.value, true);
        KeyedBelow(sch, depth, t, v, i);
      }
    }
  }

  lemma {:induction false} KeyedBelow(sch: Schema, d: nat, t: nat, v: Value, i: nat)
    requires t < |sch| && v.Object? && i < |sch[t].props| && sch[t].primary != Some(i)
    ensures v.Field(i).Some? && ReachesKeyed(sch, d, sch[t].props[i].kind, v.Field(i).value) ==>
            HoldsKeyed(sch, d, t, v)
    ensures v.Field(i).None? && d > 0 && sch[t].props[i].dflt.Some? ==>
              ReachesKeyed(sch, d - 1, sch[t].props[i].kind, sch[t].props[i].dflt.value) ==> HoldsKeyed(sch, d, t, v)
  {
    hide OccursIn;
    if v.Field(i).Some? && ReachesKeyed(sch, d, sch[t].props[i].kind, v.Field(i).value) {
      var u: nat, w: Value :| OccursKeyed(sch, d, sch[t].props[i].kind, v.Field(i).value, u, w);
      assert OccursAt(sch, d, t, v, i, u, w);
      assert Occurs(sch, d, t, v, u, w);
    }
    if v.Field(i).None? && d > 0 && sch[t].props[i].dflt.Some?
       && ReachesKeyed(sch, d - 1, sch[t].props[i].kind, sch[t].props[i].dflt.value) {
      var u: nat, w: Value :| OccursKeyed(sch, d - 1, sch[t].props[i].kind, sch[t].props[i].dflt.value, u, w);
      assert OccursAt(sch, d, t, v, i, u, w);
      assert Occurs(sch, d, t, v, u, w);
    }
  }

  lemma {:induction false} SetAgain(sch: Schema, depth: nat, a: State, b: State, s: Slot, x: Slot, z: Value,
                                    isDefault: bool)
    requires s.t == x.t < |sch| && s.c == x.c && Here(sch, a.db, s.t, s.r, s.c) && Here(sch, b.db, x.t, x.r, x.c)
    requires AtMost(a.db.rows, b.db.rows)
    requires SetProperty(sch, depth, a, s.t, s.r, s.c, z, ForceCreate, isDefault).out.Done?
    ensures Again(SetProperty(sch, depth, a, s.t, s.r, s.c, z, ForceCreate, isDefault),
                  SetProperty(sch, depth, b, x.t, x.r, x.c, z, ForceCreate, isDefault),
                  ReachesKeyed(sch, depth, sch[s.t].props[s.c].kind, z))
    decreases depth, z, 5, 0
  {
    hide Valid, KeysDistinct, Evolves, UpdateLink, Assign, ReachesKeyed;
    CellOk(sch, a.db, s);
    CellOk(sch, b.db, x);
    var p := sch[s.t].props[s.c];
    if p.nullable && z.Null? {
    } else if p.kind.LinkKind? {
      LinkAgain(sch, depth, a, b, s, x, z);
    } else if p.kind.ScalarListKind? || p.kind.LinkListKind? {
      AssignAgain(sch, depth, a, b, s, x, z);
    }
  }

  lemma {:induction false} LinkAgain(sch: Schema, depth: nat, a: State, b: State, s: Slot, x: Slot, z: Value)
    requires s.t == x.t < |sch| && s.c == x.c && Here(sch, a.db, s.t, s.r, s.c) && Here(sch, b.db, x.t, x.r, x.c)
    requires sch[s.t].props[s.c].kind.LinkKind? && AtMost(a.db.rows, b.db.rows)
    requires UpdateLink(sch, depth, a, s.t, s.r, s.c, z, ForceCreate).out.Done?
    ensures Again(UpdateLink(sch, depth, a, s.t, s.r, s.c, z, ForceCreate),
                  UpdateLink(sch, depth, b, x.t, x.r, x.c, z, ForceCreate),
                  ReachesKeyed(sch, depth, sch[s.t].props[s.c].kind, z))
    decreases depth, z, 4, 1
  {
    hide Valid, KeysDistinct, Evolves, Unbox, ReachesKeyed;
    CellOk(sch, a.db, s);
    CellOk(sch, b.db, x);
    UnboxAgain(sch, depth, a, b, sch[s.t].props[s.c].kind, z, a.db.cells[s].to, b.db.cells[x].to);
    if z.Object? && HoldsKeyed(sch, depth, sch[s.t].props[s.c].kind.target, z) {
      KeyedLink(sch, depth, sch[s.t].props[s.c].kind, z);
    }
  }

  lemma {:induction false} UnboxAgain(sch: Schema, depth: nat, a: State, b: State, kind: Kind, z: Value,
                                      curA: Option<nat>, curB: Option<nat>)
    requires Valid(sch, a.db) && Valid(sch, b.db) && AtMost(a.db.rows, b.db.rows)
             && (kind.HasTarget() || kind.ScalarListKind?)
    requires kind.HasTarget() ==> kind.target < |sch| == |a.db.rows|
    requires kind.HasTarget() && curA.Some? ==> HasRow(a.db, kind.target, curA.value)
    requires kind.HasTarget() && curB.Some? ==> HasRow(b.db, kind.target, curB.value)
    requires Unbox(sch, depth, a, kind, z, ForceCreate, curA).out.Done?
    ensures Again(Unbox(sch, depth, a, kind, z, ForceCreate, curA), Unbox(sch, depth, b, kind, z, ForceCreate, curB),
                  kind.HasTarget() && z.Object? && HoldsKeyed(sch, depth, kind.target, z))
    decreases depth, z, 4, 0
  {
    hide Valid, KeysDistinct, Evolves, Create, HoldsKeyed;
    if kind.HasTarget() && !z.Managed? {
      CreateIsObject(sch, depth, a, kind.target, z, curA);
      CreateAgain(sch, depth, a, b, kind.target, z, curA, curB);
    }
  }

  lemma {:induction false} CreateIsObject(sch: Schema, depth: nat, st: State, t: nat, v: Value, current: Option<nat>)
    requires Valid(sch, st.db) && t < |sch| && (current.Some? ==> HasRow(st.db, t, current.value))
    requires Create(sch, depth, st, t, v, ForceCreate, current).out.Done?
    ensures v.Object?
  {
    hide Valid, KeysDistinct, Populate;
  }

  lemma {:induction false} AssignAgain(sch: Schema, depth: nat, a: State, b: State, s: Slot, x: Slot, z: Value)
    requires s.t == x.t < |sch| && s.c == x.c && ListHere(sch, a.db, s) && ListHere(sch, b.db, x)
    requires AtMost(a.db.rows, b.db.rows) && Assign(sch, depth, a, s.t, s.r, s.c, z, ForceCreate).out.Done?
    ensures Again(Assign(sch, depth, a, s.t, s.r, s.c, z, ForceCreate),
                  Assign(sch, depth, b, x.t, x.r, x.c, z, ForceCreate),
                  ReachesKeyed(sch, depth, sch[s.t].props[s.c].kind, z))
    decreases depth, z, 4, 1
  {
    hide Valid, KeysDistinct, AppendFrom, ReachesKeyed;
    CellOk(sch, a.db, s);
    CellOk(sch, b.db, x);
    if z.Many? {
      AppendAgain(sch, depth, RemoveAll(sch, a, s), RemoveAll(sch, b, x), s, x, z, 0);
    }
  }

  lemma {:induction false} AppendAgain(sch: Schema, depth: nat, a: State, b: State, s: Slot, x: Slot, z: Value, i: nat)
    requires s.t == x.t < |sch| && s.c == x.c && ListHere(sch, a.db, s) && ListHere(sch, b.db, x) && z.Many?
             && i <= |z.elems|
    requires AtMost(a.db.rows, b.db.rows) && AppendFrom(sch, depth, a, s, z, ForceCreate, i).out.Done?
    ensures Again(AppendFrom(sch, depth, a, s, z, ForceCreate, i), AppendFrom(sch, depth, b, x, z, ForceCreate, i),
                  ReachesKeyed(sch, depth, sch[s.t].props[s.c].kind, z))
    decreases depth, z, 2, |z.elems| - i
  {
    hide Valid, KeysDistinct, Evolves, Append, ReachesKeyed;
    if i < |z.elems| {
      var kind := sch[s.t].props[s.c].kind;
      ElementAgain(sch, depth, a, b, s, x, z.elems[i]);
      if kind.LinkListKind? && z.elems[i].Object? && HoldsKeyed(sch, depth, kind.target, z.elems[i]) {
        KeyedElement(sch, depth, kind, z, i);
      }
      var stepA := Append(sch, depth, a, s, z.elems[i], ForceCreate);
      var stepB := Append(sch, depth, b, x, z.elems[i], ForceCreate);
      if stepB.out.Done? {
        AppendAgain(sch, depth, stepA.st, stepB.st, s, x, z, i + 1);
      }
    }
  }

  lemma {:induction false} ElementAgain(sch: Schema, depth: nat, a: State, b: State, s: Slot, x: Slot, e: Value)
    requires s.t == x.t < |sch| && s.c == x.c && ListHere(sch, a.db, s) && ListHere(sch, b.db, x)
    requires AtMost(a.db.rows, b.db.rows) && Append(sch, depth, a, s, e, ForceCreate).out.Done?
    ensures var kind := sch[s.t].props[s.c].kind;
            Again(Append(sch, depth, a, s, e, ForceCreate), Append(sch, depth, b, x, e, ForceCreate),
                  kind.LinkListKind? && e.Object? && HoldsKeyed(sch, depth, kind.target, e))
    decreases depth, e, 6, 0
  {
    hide Valid, KeysDistinct, Evolves, Append, Unbox, HoldsKeyed;
    CellOk(sch, a.db, s);
    AppendExact(sch, depth, a, s, e, ForceCreate);
    AppendExact(sch, depth, b, x, e, ForceCreate);
    UnboxAgain(sch, depth, a, b, sch[s.t].props[s.c].kind, e, None, None);
  }

  lemma {:induction false} KeyedElement(sch: Schema, d: nat, kind: Kind, z: Value, i: nat)
    requires kind.LinkListKind? && z.Many? && i < |z.elems| && z.elems[i].Object?
             && HoldsKeyed(sch, d, kind.target, z.elems[i])
    ensures ReachesKeyed(sch, d, kind, z)
  {
    hide Occurs;
    var u: nat, w: Value :| u < |sch| && Keyed(sch, u) && Occurs(sch, d, kind.target, z.elems[i], u, w);
    assert OccursElem(sch, d, kind.target, z.elems[i], u, w);
    assert OccursKeyed(sch, d, kind, z, u, w);
  }

  lemma {:induction false} KeyedLink(sch: Schema, d: nat, kind: Kind, z: Value)
    requires kind.LinkKind? && z.Object? && HoldsKeyed(sch, d, kind.target, z)
    ensures ReachesKeyed(sch, d, kind, z)
  {
    hide Occurs;
    var u: nat, w: Value :| u < |sch| && Keyed(sch, u) && Occurs(sch, d, kind.target, z, u, w);
    assert OccursKeyed(sch, d, kind, z, u, w);
  }

  // ----- The whole batch -----

  // Without objects that have keys, what the first row accepted every row does.
  lemma {:induction false} AllSucceed(sch: Schema, depth: nat, first: State, st: State, t: nat, c: nat, v: Value,
                                      rows: seq<nat>, i: nat)
    requires Valid(sch, first.db) && Valid(sch, st.db) && AtMost(first.db.rows, st.db.rows) && |first.db.rows| == |sch|
    requires t < |sch| && c < |sch[t].props| && sch[t].primary != Some(c) && 0 < |rows| && i <= |rows|
    requires forall k | 0 <= k < |rows| :: rows[k] < first.db.rows[t]
    requires SetProperty(sch, depth, first, t, rows[0], c, v, ForceCreate, false).out.Done?
    requires !ReachesKeyed(sch, depth, sch[t].props[c].kind, v)
    ensures SetFrom(sch, depth, st, t, c, v, rows, i).out.Done?
    decreases |rows| - i
  {
    hide Valid, KeysDistinct, SetProperty, ReachesKeyed;
    if i < |rows| {
      SetAgain(sch, depth, first, st, Slot(t, rows[0], c), Slot(t, rows[i], c), v, false);
      var step := SetProperty(sch, depth, st, t, rows[i], c, v, ForceCreate, false);
      Grown(sch, st.db, step.st.db);
      AllSucceed(sch, depth, first, step.st, t, c, v, rows, i + 1);
    }
  }

  // With one, the second row is refused; the first keeps what it was given.
  lemma {:induction false} SecondRowRefused(sch: Schema, depth: nat, st: State, t: nat, c: nat, v: Value,
                                            rows: seq<nat>)
    requires Valid(sch, st.db) && |st.db.rows| == |sch|
    requires t < |sch| && c < |sch[t].props| && sch[t].primary != Some(c) && 2 <= |rows| && rows[0] != rows[1]
    requires forall k | 0 <= k < |rows| :: rows[k] < st.db.rows[t]
    requires SetProperty(sch, depth, st, t, rows[0], c, v, ForceCreate, false).out.Done?
    requires ReachesKeyed(sch, depth, sch[t].props[c].kind, v)
    ensures var res := SetFrom(sch, depth, st, t, c, v, rows, 0);
            res.out == Fail(Duplicate) && Holds(sch, res.st.db, st.db.rows, t, rows[0], c, v)
  {
    hide Valid, KeysDistinct, SetProperty, ReachesKeyed, Holds, StoredCell, FreshCell;
    var s, x := Slot(t, rows[0], c), Slot(t, rows[1], c);
    var one := SetProperty(sch, depth, st, t, rows[0], c, v, ForceCreate, false);
    Grown(sch, st.db, one.st.db);
    SecondFails(sch, depth, st, s, x, v);
    CellOk(sch, st.db, s);
    var two := SetProperty(sch, depth, one.st, t, rows[1], c, v, ForceCreate, false);
    assert SetFrom(sch, depth, one.st, t, c, v, rows, 1) == two;
    ForceSetStores(sch, depth, st, s, v);
    ForceSetKeeps(sch, depth, one.st, x, v, false);
    SlotStays(sch, st.db, one.st.db, s);
    FirstHolds(sch, st.db, one.st.db, two.st.db, t, c, v, rows[0], [rows[1]]);
  }

  lemma {:induction false} SecondFails(sch: Schema, depth: nat, st: State, s: Slot, x: Slot, v: Value)
    requires s.t == x.t < |sch| && s.c == x.c && Here(sch, st.db, s.t, s.r, s.c) && Here(sch, st.db, x.t, x.r, x.c)
    requires SetProperty(sch, depth, st, s.t, s.r, s.c, v, ForceCreate, false).out.Done?
    requires ReachesKeyed(sch, depth, sch[s.t].props[s.c].kind, v)
    ensures var one := SetProperty(sch, depth, st, s.t, s.r, s.c, v, ForceCreate, false);
            && Here(sch, one.st.db, x.t, x.r, x.c)
            && SetProperty(sch, depth, one.st, x.t, x.r, x.c, v, ForceCreate, false).out == Fail(Duplicate)
  {
    hide Valid, KeysDistinct, SetProperty, OccursIn, Taken;
    var one := SetProperty(sch, depth, st, s.t, s.r, s.c, v, ForceCreate, false);
    Grown(sch, st.db, one.st.db);
    SetAgain(sch, depth, st, one.st, s, x, v, false);
    var two := SetProperty(sch, depth, one.st, x.t, x.r, x.c, v, ForceCreate, false);
    var u: nat, w: Value :| OccursKeyed(sch, depth, sch[s.t].props[s.c].kind, v, u, w);
    SchemaValid(sch, st.db);
    SetTakes(sch, depth, st, s, v, false, u, w);
    if two.out.Done? {
      SetTakes(sch, depth, one.st, x, v, false, u, w);
      NotTwice(sch, st.db, one.st.db, two.st.db, u, w);
      assert false;
    }
  }

  lemma {:induction false} NotTwice(sch: Schema, a: Db, b: Db, c: Db, u: nat, w: Value)
    requires Valid(sch, a) && Valid(sch, b) && Valid(sch, c) && u < |sch| && Keyed(sch, u) && ValidSchema(sch)
    requires Taken(sch, a, b, u, w)
    ensures !Taken(sch, b, c, u, w)
  {
  }

  // For any table, filter, property and value: the batch succeeds exactly if
  // nothing matches, or the first matching row can be set and it is the only one
  // or no object with a primary key is reached, neither in the value nor in the
  // default values it draws in. Otherwise, if the first row can be set, the
  // batch throws on the second and leaves the first one set.
  lemma {:induction false} BatchSucceeds(sch: Schema, depth: nat, st: State, t: nat, query: Query, c: nat, v: Value)
    requires Valid(sch, st.db) && t < |sch| && c < |sch[t].props| && sch[t].primary != Some(c)
    ensures |st.db.rows| == |sch|
    ensures var rows := Matching(st.db, t, query, 0);
            var res := BatchSet(sch, depth, st, t, query, c, v);
            var keyed := ReachesKeyed(sch, depth, sch[t].props[c].kind, v);
            if rows == [] then res.out.Done?
            else
              var settable := SetProperty(sch, depth, st, t, rows[0], c, v, ForceCreate, false).out.Done?;
              && (res.out.Done? <==> settable && (|rows| == 1 || !keyed))
              && (settable && 2 <= |rows| && keyed ==>
                    res.out == Fail(Duplicate) && Holds(sch, res.st.db, st.db.rows, t, rows[0], c, v))
  {
    hide Valid, KeysDistinct, SetProperty, Matching, ReachesKeyed, Holds, SetFrom;
    SchemaValid(sch, st.db);
    var rows := Matching(st.db, t, query, 0);
    FewRows(sch, depth, st, t, c, v, rows);
    if rows != [] {
      FirstDecides(sch, depth, st, t, c, v, rows);
      if SetProperty(sch, depth, st, t, rows[0], c, v, ForceCreate, false).out.Done? {
        if !ReachesKeyed(sch, depth, sch[t].props[c].kind, v) {
          AllSucceed(sch, depth, st, st, t, c, v, rows, 0);
        } else if 2 <= |rows| {
          SecondRowRefused(sch, depth, st, t, c, v, rows);
        }
      }
    }
  }

  lemma {:induction false} FirstDecides(sch: Schema, depth: nat, st: State, t: nat, c: nat, v: Value, rows: seq<nat>)
    requires Valid(sch, st.db) && |st.db.rows| == |sch|
    requires t < |sch| && c < |sch[t].props| && sch[t].primary != Some(c) && 0 < |rows|
    requires forall k | 0 <= k < |rows| :: rows[k] < st.db.rows[t]
    ensures SetProperty(sch, depth, st, t, rows[0], c, v, ForceCreate, false).out.Fail? ==>
              SetFrom(sch, depth, st, t, c, v, rows, 0).out.Fail?
  {
    hide Valid, KeysDistinct, SetProperty;
  }
}
