// Object::create and everything it calls, as functions from one state of the
// tables to the next. The methods of class Group carry out the same steps in
// place and are proved equal to these functions.
//
// `depth` bounds how deeply default values that are themselves objects may
// expand into further default values: the source recurses without limit here.
// It is never consumed by the input value, whose nesting is finite.
module Upsert {
  import opened Wrappers
  import opened Store

  datatype Policy = ForceCreate | UpdateAll | UpdateModified

  datatype Error =
    | BadValue            // the boxed value is not of the property's type
    | MissingProperty     // MissingPropertyValueException
    | NullKey             // null for a non-nullable primary key
    | Duplicate           // ForceCreate met an existing primary key
    | ReadOnly            // ReadOnlyPropertyException
    | OutOfBounds         // List::OutOfBoundsIndexException
    | ModifyPrimaryKey    // ModifyPrimaryKeyException
    | TooDeep             // default values expand beyond `depth`

  // The state a call leaves (also when it throws) and how it ended.
  datatype Res<+T> = Res(st: State, out: Outcome<T, Error>)

  datatype Target = Target(row: nat, created: bool)

  ghost predicate Here(sch: Schema, db: Db, t: nat, r: nat, c: nat) {
    Valid(sch, db) && HasRow(db, t, r) && c < |sch[t].props| && sch[t].primary != Some(c)
  }

  // ----- Finding or adding the row to write -----

  // The primary key a value supplies: its own field, else the default, else null.
  function KeyOf(os: ObjectSchema, v: Value): (key: Outcome<Option<Scalar>, Error>)
    requires v.Object? && os.primary.Some? && os.primary.value < |os.props|
    requires os.props[os.primary.value].kind.ScalarKind?
    ensures key.Done? ==> KeyFits(os, key.value)
  {
    var p := os.props[os.primary.value];
    var given := v.Field(os.primary.value);
    var boxed := if given.Some? then given else p.dflt;
    if boxed.None? then
      if p.nullable then Done(None) else Fail(MissingProperty)
    else if boxed.value.Null? then
      if p.nullable then Done(None) else Fail(NullKey)
    else if boxed.value.Plain? && boxed.value.s.Type() == p.kind.ty then
      Done(Some(boxed.value.s))
    else
      Fail(BadValue)
  }

  function GetOrCreateRow(sch: Schema, st: State, t: nat, v: Value, policy: Policy,
                          current: Option<nat>): (res: Res<Target>)
    requires Valid(sch, st.db) && t < |sch| && v.Object?
    requires current.Some? ==> HasRow(st.db, t, current.value)
    ensures Evolves(sch, st.db, res.st.db) && Logged(st, res.st)
    ensures res.out.Done? ==> HasRow(res.st.db, t, res.out.value.row)
  {
    if Keyed(sch, t) then
      var key := KeyOf(sch[t], v);
      if key.Fail? then
        Res(st, Fail(key.error))
      else
        var found := FindFirst(sch, st.db, t, key.value);
        if found.None? then
          Res(AddRow(sch, st, t, key.value), Done(Target(st.db.rows[t], true)))
        else if policy == ForceCreate then
          Res(st, Fail(Duplicate))
        else
          Res(st, Done(Target(found.value, false)))
    else if policy == UpdateModified && current.Some? then
      Res(st, Done(Target(current.value, false)))
    else
      Res(AddRow(sch, st, t, None), Done(Target(st.db.rows[t], true)))
  }

  // ----- Object::create -----

  function Create(sch: Schema, depth: nat, st: State, t: nat, v: Value, policy: Policy,
                  current: Option<nat>): (res: Res<nat>)
    requires Valid(sch, st.db) && t < |sch|
    requires current.Some? ==> HasRow(st.db, t, current.value)
    ensures Evolves(sch, st.db, res.st.db) && Logged(st, res.st)
    ensures res.out.Done? ==> HasRow(res.st.db, t, res.out.value)
    decreases depth, v, 3, 0
  {
    if !v.Object? then
      Res(st, Fail(BadValue))
    else
      var got := GetOrCreateRow(sch, st, t, v, policy, current);
      if got.out.Fail? then
        Res(got.st, Fail(got.out.error))
      else
        var res := Populate(sch, depth, got.st, t, got.out.value.row, v, got.out.value.created, policy, 0);
        EvolvesTransitive(sch, st.db, got.st.db, res.st.db);
        res
  }

  // The property loop of create, from persisted property i on.
  function Populate(sch: Schema, depth: nat, st: State, t: nat, r: nat, v: Value, created: bool, policy: Policy,
                    i: nat): (res: Res<nat>)
    requires Valid(sch, st.db) && HasRow(st.db, t, r) && v.Object? && i <= |sch[t].props|
    ensures Evolves(sch, st.db, res.st.db) && Logged(st, res.st)
    ensures res.out.Done? ==> res.out.value == r && HasRow(res.st.db, t, r)
    decreases depth, v, 2, |sch[t].props| - i
  {
    if i == |sch[t].props| then
      Res(st, Done(r))
    else
      var step := PopulateOne(sch, depth, st, t, r, v, created, policy, i);
      if step.out.Fail? then
        step
      else
        var res := Populate(sch, depth, step.st, t, r, v, created, policy, i + 1);
        EvolvesTransitive(sch, st.db, step.st.db, res.st.db);
        res
  }

  // One round of that loop.
  function PopulateOne(sch: Schema, depth: nat, st: State, t: nat, r: nat, v: Value, created: bool, policy: Policy,
                       i: nat): (res: Res<nat>)
    requires Valid(sch, st.db) && HasRow(st.db, t, r) && v.Object? && i < |sch[t].props|
    ensures Evolves(sch, st.db, res.st.db) && Logged(st, res.st)
    ensures Valid(sch, res.st.db) && HasRow(res.st.db, t, r)
    ensures res.out.Done? ==> res.out.value == r
    decreases depth, v, 1, 0
  {
    var p := sch[t].props[i];
    var given := v.Field(i);
    if sch[t].primary == Some(i) || (given.None? && !created) then
      Res(st, Done(r))
    else
      var isDefault := given.None?;
      var x := if isDefault then p.dflt else given;
      if (x.None? || x.value.Null?) && !p.nullable && !p.kind.IsArray() && !v.positional then
        Res(st, Fail(MissingProperty))
      else if x.None? then
        Res(st, Done(r))
      else if isDefault && depth == 0 then
        Res(st, Fail(TooDeep))
      else
        SetProperty(sch, if isDefault then depth - 1 else depth, st, t, r, i, x.value, policy, isDefault)
  }

  // ----- Object::set_property_value_impl and ValueUpdater -----

  function SetProperty(sch: Schema, depth: nat, st: State, t: nat, r: nat, c: nat, v: Value, policy: Policy,
                       isDefault: bool): (res: Res<nat>)
    requires Here(sch, st.db, t, r, c)
    ensures Evolves(sch, st.db, res.st.db) && Logged(st, res.st)
    ensures res.out.Done? ==> res.out.value == r
    decreases depth, v, 5, 0
  {
    var p := sch[t].props[c];
    if p.nullable && v.Null? then
      Res(Nullify(sch, st, t, r, c, policy, isDefault), Done(r))
    else
      match p.kind
      case BacklinksKind => Res(st, Fail(ReadOnly))
      case ScalarListKind(_) => Assign(sch, depth, st, t, r, c, v, policy)
      case LinkListKind(_) => Assign(sch, depth, st, t, r, c, v, policy)
      case LinkKind(u) => UpdateLink(sch, depth, st, t, r, c, v, policy)
      case ScalarKind(ty) => UpdateScalar(sch, st, t, r, c, v, policy)
  }

  function Nullify(sch: Schema, st: State, t: nat, r: nat, c: nat, policy: Policy, isDefault: bool): (st': State)
    requires Here(sch, st.db, t, r, c) && sch[t].props[c].nullable
    ensures Evolves(sch, st.db, st'.db) && Logged(st, st')
  {
    var s := Slot(t, r, c);
    if sch[t].props[c].kind.LinkKind? then
      if (policy != UpdateModified || st.db.cells[s] != Link(None)) && !isDefault then Put(sch, st, s, Link(None))
          else st
    else
      if policy != UpdateModified || st.db.cells[s] != One(None) then Put(sch, st, s, One(None)) else st
  }

  function UpdateScalar(sch: Schema, st: State, t: nat, r: nat, c: nat, v: Value, policy: Policy): (res: Res<nat>)
    requires Here(sch, st.db, t, r, c) && sch[t].props[c].kind.ScalarKind?
    ensures Evolves(sch, st.db, res.st.db) && Logged(st, res.st)
    ensures res.out.Done? ==> res.out.value == r
  {
    var s := Slot(t, r, c);
    if !v.Plain? || v.s.Type() != sch[t].props[c].kind.ty then
      Res(st, Fail(BadValue))
    else if policy != UpdateModified || st.db.cells[s] != One(Some(v.s)) then
      Res(Put(sch, st, s, One(Some(v.s))), Done(r))
    else
      Res(st, Done(r))
  }

  // The old link is read before the nested object is created and compared after.
  function UpdateLink(sch: Schema, depth: nat, st: State, t: nat, r: nat, c: nat, v: Value,
                      policy: Policy): (res: Res<nat>)
    requires Here(sch, st.db, t, r, c) && sch[t].props[c].kind.LinkKind?
    ensures Evolves(sch, st.db, res.st.db) && Logged(st, res.st)
    ensures res.out.Done? ==> res.out.value == r
    decreases depth, v, 4, 1
  {
    var s := Slot(t, r, c);
    assert CellFits(sch[t].props[c], st.db.rows, st.db.cells[s]);
    var current := st.db.cells[s].to;
    var made := Unbox(sch, depth, st, sch[t].props[c].kind, v, policy, current);
    if made.out.Fail? then
      Res(made.st, Fail(made.out.error))
    else if policy != UpdateModified || current != Some(made.out.value.r) then
      var st' := Put(sch, made.st, s, Link(Some(made.out.value.r)));
      EvolvesTransitive(sch, st.db, made.st.db, st'.db);
      Res(st', Done(r))
    else
      Res(made.st, Done(r))
  }

  // ContextType::unbox for a link or for one element of a list. For anything
  // that is not a managed row, a link element is a nested create.
  function Unbox(sch: Schema, depth: nat, st: State, kind: Kind, v: Value, policy: Policy,
                 current: Option<nat>): (res: Res<Item>)
    requires Valid(sch, st.db)
    requires kind.HasTarget() ==> kind.target < |sch|
    requires kind.HasTarget() && current.Some? ==> HasRow(st.db, kind.target, current.value)
    requires kind.HasTarget() || kind.ScalarListKind?
    ensures Evolves(sch, st.db, res.st.db) && Logged(st, res.st)
    ensures res.out.Done? && kind.HasTarget() ==> res.out.value.Row? && HasRow(res.st.db, kind.target, res.out.value.r)
    ensures res.out.Done? && kind.ScalarListKind? ==> ItemFits(kind, res.st.db.rows, res.out.value)
    decreases depth, v, 4, 0
  {
    if kind.ScalarListKind? then
      if v.Plain? && v.s.Type() == kind.ty then Res(st, Done(Val(v.s))) else Res(st, Fail(BadValue))
    else if v.Managed? then
      if v.row < st.db.rows[kind.target] then Res(st, Done(Row(v.row))) else Res(st, Fail(BadValue))
    else
      var made := Create(sch, depth, st, kind.target, v, policy, current);
      Res(made.st, if made.out.Fail? then Fail(made.out.error) else Done(Row(made.out.value)))
  }

  // ----- List::assign -----

  ghost predicate ListHere(sch: Schema, db: Db, s: Slot) {
    && Here(sch, db, s.t, s.r, s.c)
    && (sch[s.t].props[s.c].kind.ScalarListKind? || sch[s.t].props[s.c].kind.LinkListKind?)
  }

  // Clearing a list that is already empty changes nothing and is not a write.
  function RemoveAll(sch: Schema, st: State, s: Slot): (st': State)
    requires ListHere(sch, st.db, s)
    ensures Evolves(sch, st.db, st'.db) && Logged(st, st')
  {
    assert CellFits(sch[s.t].props[s.c], st.db.rows, st.db.cells[s]);
    if st.db.cells[s].items == [] then st else Put(sch, st, s, List([]))
  }

  function Assign(sch: Schema, depth: nat, st: State, t: nat, r: nat, c: nat, v: Value, policy: Policy): (res: Res<nat>)
    requires ListHere(sch, st.db, Slot(t, r, c))
    ensures Evolves(sch, st.db, res.st.db) && Logged(st, res.st)
    ensures res.out.Done? ==> res.out.value == r
    decreases depth, v, 4, 1
  {
    var s := Slot(t, r, c);
    assert CellFits(sch[t].props[c], st.db.rows, st.db.cells[s]);
    if v.SameList? then
      Res(st, Done(r))
    else if v.Null? then
      Res(RemoveAll(sch, st, s), Done(r))
    else if policy == UpdateModified then
      if !v.Many? then Res(st, Fail(BadValue))
      else AssignInPlace(sch, depth, st, s, v, |st.db.cells[s].items|, 0)
    else
      var st' := RemoveAll(sch, st, s);
      if !v.Many? then
        Res(st', Fail(BadValue))
      else
        var res := AppendFrom(sch, depth, st', s, v, policy, 0);
        EvolvesTransitive(sch, st.db, st'.db, res.st.db);
        res
  }

  // The UpdateModified branch, from element i on; sz is the size at its start.
  function AssignInPlace(sch: Schema, depth: nat, st: State, s: Slot, v: Value, sz: nat, i: nat): (res: Res<nat>)
    requires ListHere(sch, st.db, s) && v.Many? && i <= |v.elems|
    ensures Evolves(sch, st.db, res.st.db) && Logged(st, res.st)
    ensures res.out.Done? ==> res.out.value == s.r
    decreases depth, v, 2, |v.elems| - i
  {
    if i == |v.elems| then
      Trim(sch, st, s, i, sz)
    else
      var step := if i < sz then SetIfDifferent(sch, depth, st, s, v.elems[i], i)
                  else Append(sch, depth, st, s, v.elems[i], UpdateModified);
      if step.out.Fail? then
        step
      else
        var res := AssignInPlace(sch, depth, step.st, s, v, sz, i + 1);
        EvolvesTransitive(sch, st.db, step.st.db, res.st.db);
        res
  }

  // The other branch, after remove_all, from element i on.
  function AppendFrom(sch: Schema, depth: nat, st: State, s: Slot, v: Value, policy: Policy, i: nat): (res: Res<nat>)
    requires ListHere(sch, st.db, s) && v.Many? && i <= |v.elems|
    ensures Evolves(sch, st.db, res.st.db) && Logged(st, res.st)
    ensures res.out.Done? ==> res.out.value == s.r
    decreases depth, v, 2, |v.elems| - i
  {
    if i == |v.elems| then
      Res(st, Done(s.r))
    else
      var step := Append(sch, depth, st, s, v.elems[i], policy);
      if step.out.Fail? then
        step
      else
        var res := AppendFrom(sch, depth, step.st, s, v, policy, i + 1);
        EvolvesTransitive(sch, st.db, step.st.db, res.st.db);
        res
  }

  // The row a list element refers to, which a nested create may reuse.
  function CurrentRow(x: Item): Option<nat> {
    if x.Row? then Some(x.r) else None
  }

  function SetIfDifferent(sch: Schema, depth: nat, st: State, s: Slot, e: Value, i: nat): (res: Res<nat>)
    requires ListHere(sch, st.db, s)
    ensures Evolves(sch, st.db, res.st.db) && Logged(st, res.st)
    ensures ListHere(sch, res.st.db, s)
    ensures res.out.Done? ==> res.out.value == s.r
    decreases depth, e, 6, 0
  {
    assert CellFits(sch[s.t].props[s.c], st.db.rows, st.db.cells[s]);
    var items := st.db.cells[s].items;
    if i >= |items| then
      Res(st, Fail(OutOfBounds))
    else
      assert ItemFits(sch[s.t].props[s.c].kind, st.db.rows, items[i]);
      var made := Unbox(sch, depth, st, sch[s.t].props[s.c].kind, e, UpdateModified, CurrentRow(items[i]));
      if made.out.Fail? then
        Res(made.st, Fail(made.out.error))
      else if made.out.value == items[i] then
        Res(made.st, Done(s.r))
      else
        assert CellFits(sch[s.t].props[s.c], made.st.db.rows, made.st.db.cells[s]);
        var now := made.st.db.cells[s].items;
        if i >= |now| then
          Res(made.st, Fail(OutOfBounds))
        else
          var st' := Put(sch, made.st, s, List(now[i := made.out.value]));
          EvolvesTransitive(sch, st.db, made.st.db, st'.db);
          Res(st', Done(s.r))
  }

  function Append(sch: Schema, depth: nat, st: State, s: Slot, e: Value, policy: Policy): (res: Res<nat>)
    requires ListHere(sch, st.db, s)
    ensures Evolves(sch, st.db, res.st.db) && Logged(st, res.st)
    ensures ListHere(sch, res.st.db, s)
    ensures res.out.Done? ==> res.out.value == s.r
    decreases depth, e, 6, 0
  {
    var made := Unbox(sch, depth, st, sch[s.t].props[s.c].kind, e, policy, None);
    if made.out.Fail? then
      Res(made.st, Fail(made.out.error))
    else
      assert CellFits(sch[s.t].props[s.c], made.st.db.rows, made.st.db.cells[s]);
      var st' := Put(sch, made.st, s, List(made.st.db.cells[s].items + [made.out.value]));
      EvolvesTransitive(sch, st.db, made.st.db, st'.db);
      Res(st', Done(s.r))
  }

  function RemoveAt(sch: Schema, st: State, s: Slot, i: nat): (res: Res<nat>)
    requires ListHere(sch, st.db, s)
    ensures Evolves(sch, st.db, res.st.db) && Logged(st, res.st)
    ensures ListHere(sch, res.st.db, s)
    ensures res.out.Done? ==> res.out.value == s.r
  {
    assert CellFits(sch[s.t].props[s.c], st.db.rows, st.db.cells[s]);
    var items := st.db.cells[s].items;
    if i >= |items| then Res(st, Fail(OutOfBounds))
    else Res(Put(sch, st, s, List(items[..i] + items[i + 1..])), Done(s.r))
  }

  // The trailing remove loop, which takes elements off the end.
  function Trim(sch: Schema, st: State, s: Slot, keep: nat, sz: nat): (res: Res<nat>)
    requires ListHere(sch, st.db, s)
    ensures Evolves(sch, st.db, res.st.db) && Logged(st, res.st)
    ensures res.out.Done? ==> res.out.value == s.r
    decreases sz
  {
    if keep >= sz then
      Res(st, Done(s.r))
    else
      var step := RemoveAt(sch, st, s, sz - 1);
      if step.out.Fail? then
        step
      else
        var res := Trim(sch, step.st, s, keep, sz - 1);
        EvolvesTransitive(sch, st.db, step.st.db, res.st.db);
        res
  }

  // ----- Object::set_property_value -----

  function SetPropertyValue(sch: Schema, depth: nat, st: State, t: nat, r: nat, c: nat, v: Value,
                            policy: Policy): (res: Res<nat>)
    requires Valid(sch, st.db) && HasRow(st.db, t, r) && c < |sch[t].props|
    ensures Evolves(sch, st.db, res.st.db) && Logged(st, res.st)
  {
    if sch[t].primary == Some(c) then
      Res(st, Fail(ModifyPrimaryKey))
    else
      SetProperty(sch, depth, st, t, r, c, v, policy, false)
  }

  // ----- What the list steps leave -----

  function Items(st: State, s: Slot): seq<Item>
    requires s in st.db.cells && st.db.cells[s].List?
  {
    st.db.cells[s].items
  }

  // What Append and SetIfDifferent leave, given the item that was unboxed.
  ghost function AfterPut(st: State, s: Slot, cell: Cell): State
    requires s in st.db.cells
  {
    State(Db(st.db.rows, st.db.cells[s := cell]), st.log + [Wrote(s, st.db.cells[s], cell)])
  }

  lemma {:induction false} AppendExact(sch: Schema, depth: nat, st: State, s: Slot, e: Value, policy: Policy)
    requires ListHere(sch, st.db, s)
    ensures var made := Unbox(sch, depth, st, sch[s.t].props[s.c].kind, e, policy, None);
            && s in made.st.db.cells && made.st.db.cells[s].List?
            && Append(sch, depth, st, s, e, policy) ==
               if made.out.Fail? then Res(made.st, Fail(made.out.error))
               else Res(AfterPut(made.st, s, List(Items(made.st, s) + [made.out.value])), Done(s.r))
  {
    hide Store.KeysDistinct, Unbox;
    CellOk(sch, Unbox(sch, depth, st, sch[s.t].props[s.c].kind, e, policy, None).st.db, s);
  }

  lemma {:induction false} SetExact(sch: Schema, depth: nat, st: State, s: Slot, e: Value, i: nat)
    requires ListHere(sch, st.db, s) && s in st.db.cells && st.db.cells[s].List? && i < |Items(st, s)|
    requires ItemFits(sch[s.t].props[s.c].kind, st.db.rows, Items(st, s)[i])
    ensures var made := Unbox(sch, depth, st, sch[s.t].props[s.c].kind, e, UpdateModified, CurrentRow(Items(st, s)[i]));
            made.out.Fail? ==> SetIfDifferent(sch, depth, st, s, e, i) == Res(made.st, Fail(made.out.error))
    ensures var made := Unbox(sch, depth, st, sch[s.t].props[s.c].kind, e, UpdateModified, CurrentRow(Items(st, s)[i]));
            made.out.Done? && s in made.st.db.cells && made.st.db.cells[s] == st.db.cells[s] ==>
              SetIfDifferent(sch, depth, st, s, e, i) ==
              Res(if made.out.value == Items(st, s)[i] then made.st
                  else AfterPut(made.st, s, List(Items(st, s)[i := made.out.value])), Done(s.r))
  {
    hide Store.KeysDistinct, Unbox;
  }

  lemma {:induction false} RemoveAtExact(sch: Schema, st: State, s: Slot, i: nat)
    requires ListHere(sch, st.db, s) && s in st.db.cells && st.db.cells[s].List? && i < |Items(st, s)|
    ensures RemoveAt(sch, st, s, i).out == Done(s.r)
    ensures RemoveAt(sch, st, s, i).st.db ==
            Db(st.db.rows, st.db.cells[s := List(Items(st, s)[..i] + Items(st, s)[i + 1..])])
  {
  }

  lemma {:induction false} TrimExact(sch: Schema, st: State, s: Slot, keep: nat, sz: nat)
    requires ListHere(sch, st.db, s) && s in st.db.cells && st.db.cells[s].List?
    requires |Items(st, s)| == if keep < sz then sz else keep
    ensures Trim(sch, st, s, keep, sz).out == Done(s.r)
    ensures Trim(sch, st, s, keep, sz).st.db == Db(st.db.rows, st.db.cells[s := List(Items(st, s)[..keep])])
    decreases sz
  {
    hide Store.Valid, Store.Evolves, RemoveAt;
    if keep >= sz {
      assert Items(st, s)[..keep] == Items(st, s);
      assert st.db.cells[s := List(Items(st, s)[..keep])] == st.db.cells;
    } else {
      RemoveAtExact(sch, st, s, sz - 1);
      var step := RemoveAt(sch, st, s, sz - 1);
      assert Items(step.st, s) == Items(st, s)[..sz - 1];
      TrimExact(sch, step.st, s, keep, sz - 1);
      assert Items(step.st, s)[..keep] == Items(st, s)[..keep];
    }
  }
}
