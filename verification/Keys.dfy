// Primary keys over whole runs: what callers may rely on when they look an
// object up after any sequence of creates and property writes.
module Keys {
  import opened Wrappers
  import opened Store
  import opened Upsert
  import opened ReadBack

  datatype Call =
    | CreateCall(t: nat, v: Value, policy: Policy)
    | SetCall(t: nat, r: nat, c: nat, v: Value, policy: Policy)

  // One call from outside. A call that throws leaves what it wrote so far:
  // rolling it back could only make the invariant easier.
  function Step(sch: Schema, depth: nat, st: State, call: Call): (st': State)
    requires Valid(sch, st.db)
    ensures Evolves(sch, st.db, st'.db)
  {
    match call
    case CreateCall(t, v, policy) =>
      if t < |sch| then Create(sch, depth, st, t, v, policy, None).st else st
    case SetCall(t, r, c, v, policy) =>
      if t < |sch| && HasRow(st.db, t, r) && c < |sch[t].props|
      then SetPropertyValue(sch, depth, st, t, r, c, v, policy).st
      else st
  }

  function Run(sch: Schema, depth: nat, st: State, calls: seq<Call>): (st': State)
    requires Valid(sch, st.db)
    ensures Evolves(sch, st.db, st'.db)
    decreases |calls|
  {
    if calls == [] then st
    else
      var next := Step(sch, depth, st, calls[0]);
      var last := Run(sch, depth, next, calls[1..]);
      EvolvesTransitive(sch, st.db, next.db, last.db);
      last
  }

  function EmptyDb(sch: Schema): Db {
    Db(seq(|sch|, _ => 0), map[])
  }

  // From an empty Realm on, no run ever puts two rows under one key, changes
  // the key of a row, or loses a row that another call can see.
  lemma {:induction false} KeysStayDistinct(sch: Schema, depth: nat, before: seq<Call>, after: seq<Call>)
    requires ValidSchema(sch)
    ensures Valid(sch, EmptyDb(sch))
    ensures var mid := Run(sch, depth, State(EmptyDb(sch), []), before);
            var end := Run(sch, depth, mid, after);
            && KeysDistinct(sch, mid.db) && KeysDistinct(sch, end.db)
            && forall t, r | 0 <= t < |sch| && Keyed(sch, t) && 0 <= r < mid.db.rows[t] ::
                 && HasRow(end.db, t, r)
                 && KeyAt(sch, end.db, t, r) == KeyAt(sch, mid.db, t, r)
                 && FindFirst(sch, end.db, t, KeyAt(sch, mid.db, t, r)) == Some(r)
  {
    hide Run;
    var mid := Run(sch, depth, State(EmptyDb(sch), []), before);
    var end := Run(sch, depth, mid, after);
    forall t, r | 0 <= t < |sch| && Keyed(sch, t) && 0 <= r < mid.db.rows[t]
      ensures HasRow(end.db, t, r)
      ensures KeyAt(sch, end.db, t, r) == KeyAt(sch, mid.db, t, r)
      ensures FindFirst(sch, end.db, t, KeyAt(sch, mid.db, t, r)) == Some(r)
    {
      KeyStays(sch, mid.db, end.db, t, r);
    }
  }

  lemma {:induction false} KeyStays(sch: Schema, a: Db, b: Db, t: nat, r: nat)
    requires Valid(sch, a) && Evolves(sch, a, b) && KeysDistinct(sch, b)
    requires t < |sch| && Keyed(sch, t) && HasRow(a, t, r)
    ensures HasRow(b, t, r) && KeyAt(sch, b, t, r) == KeyAt(sch, a, t, r)
    ensures FindFirst(sch, b, t, KeyAt(sch, a, t, r)) == Some(r)
  {
    hide KeysDistinct;
    KeyOk(sch, a, t, r);
    KeyOk(sch, b, t, r);
    UniqueKey(sch, b, t, r);
  }

  // ----- Object::get_for_primary_key -----

  datatype LookupError = MissingPrimaryKey | InvalidNull | WrongType

  function GetForPrimaryKey(sch: Schema, db: Db, t: nat, boxed: Value): Outcome<Option<nat>, LookupError>
    requires Valid(sch, db) && t < |sch|
  {
    if !Keyed(sch, t) then Fail(MissingPrimaryKey)
    else
      var p := sch[t].props[sch[t].primary.value];
      if boxed.Null? then
        if p.nullable then Done(FindFirst(sch, db, t, None)) else Fail(InvalidNull)
      else if boxed.Plain? && boxed.s.Type() == p.kind.ty then
        Done(FindFirst(sch, db, t, Some(boxed.s)))
      else
        Fail(WrongType)
  }

  // The key that a boxed value is looked up by.
  ghost predicate NamesKey(p: Property, boxed: Value, key: Option<Scalar>) {
    if boxed.Null? then p.nullable && key == None
    else boxed.Plain? && p.kind == ScalarKind(boxed.s.Type()) && key == Some(boxed.s)
  }

  // A lookup finds the first row with the key named, and nothing exactly if no row
  // has it; which input is refused, and how.
  lemma {:induction false} GetExact(sch: Schema, db: Db, t: nat, boxed: Value)
    requires Valid(sch, db) && t < |sch|
    ensures var got := GetForPrimaryKey(sch, db, t, boxed);
            && (got == Fail(MissingPrimaryKey) <==> !Keyed(sch, t))
            && (got == Fail(InvalidNull) <==>
                  Keyed(sch, t) && boxed.Null? && !sch[t].props[sch[t].primary.value].nullable)
            && (got == Fail(WrongType) <==>
                  && Keyed(sch, t) && !boxed.Null?
                  && !(boxed.Plain? && ScalarKind(boxed.s.Type()) == sch[t].props[sch[t].primary.value].kind))
            && (got == Done(None) ==> forall key, r | NamesKey(sch[t].props[sch[t].primary.value], boxed, key)
                                                   && 0 <= r < db.rows[t] :: KeyAt(sch, db, t, r) != key)
            && (got.Done? && got.value.Some? ==>
                  && HasRow(db, t, got.value.value)
                  && NamesKey(sch[t].props[sch[t].primary.value], boxed, KeyAt(sch, db, t, got.value.value))
                  && forall r | 0 <= r < got.value.value ::
                       KeyAt(sch, db, t, r) != KeyAt(sch, db, t, got.value.value))
  {
    hide KeysDistinct;
  }

  // ----- Which key create uses -----

  // The key given; without one the default; without either, null. A null key only
  // for a nullable column.
  lemma {:induction false} CreateKey(sch: Schema, depth: nat, st: State, t: nat, v: Value, policy: Policy,
                                     current: Option<nat>)
    requires Valid(sch, st.db) && t < |sch| && Keyed(sch, t) && (current.Some? ==> HasRow(st.db, t, current.value))
    requires Create(sch, depth, st, t, v, policy, current).out.Done?
    ensures var res, c := Create(sch, depth, st, t, v, policy, current), sch[t].primary.value;
            var p, key := sch[t].props[c], KeyAt(sch, res.st.db, t, res.out.value);
            && v.Object?
            && match v.Field(c)
               case Some(Plain(s)) => key == Some(s) && p.kind == ScalarKind(s.Type())
               case Some(z) => z.Null? && p.nullable && key == None
               case None =>
                 match p.dflt
                 case Some(Plain(s)) => key == Some(s) && p.kind == ScalarKind(s.Type())
                 case Some(z) => z.Null? && p.nullable && key == None
                 case None => p.nullable && key == None
  {
    hide KeysDistinct, Populate, Valid, FindFirst;
    var res := Create(sch, depth, st, t, v, policy, current);
    var got := GetOrCreateRow(sch, st, t, v, policy, current);
    RowHasKey(sch, st, t, v, policy, current);
    SchemaHere(sch, st.db);
    KeyLater(sch, got.st.db, res.st.db, t, res.out.value);
  }

  lemma {:induction false} KeyLater(sch: Schema, a: Db, b: Db, t: nat, r: nat)
    requires Valid(sch, a) && Evolves(sch, a, b) && t < |sch| && Keyed(sch, t) && HasRow(a, t, r)
    ensures HasRow(b, t, r) && KeyAt(sch, b, t, r) == KeyAt(sch, a, t, r)
  {
    KeyOk(sch, a, t, r);
    KeyOk(sch, b, t, r);
  }

  // A key that is not well formed is refused before anything is written.
  lemma {:induction false} KeyRefused(sch: Schema, depth: nat, st: State, t: nat, v: Value, policy: Policy,
                                      current: Option<nat>)
    requires Valid(sch, st.db) && t < |sch| && Keyed(sch, t) && v.Object?
    requires current.Some? ==> HasRow(st.db, t, current.value)
    ensures var res, p := Create(sch, depth, st, t, v, policy, current), sch[t].props[sch[t].primary.value];
            var boxed := if v.Field(sch[t].primary.value).Some? then v.Field(sch[t].primary.value) else p.dflt;
            match boxed
            case None => !p.nullable ==> res == Res(st, Fail(MissingProperty))
            case Some(z) =>
              && (z.Null? && !p.nullable ==> res == Res(st, Fail(NullKey)))
              && (!z.Null? && !(z.Plain? && p.kind == ScalarKind(z.s.Type())) ==> res == Res(st, Fail(BadValue)))
  {
    hide KeysDistinct, Populate, FindFirst;
  }

  // With any other key there is a row, unless ForceCreate meets the key.
  lemma {:induction false} KeyAccepted(sch: Schema, st: State, t: nat, v: Value, policy: Policy, current: Option<nat>)
    requires Valid(sch, st.db) && t < |sch| && Keyed(sch, t) && v.Object?
    requires current.Some? ==> HasRow(st.db, t, current.value)
    ensures var p := sch[t].props[sch[t].primary.value];
            var boxed := if v.Field(sch[t].primary.value).Some? then v.Field(sch[t].primary.value) else p.dflt;
            var fits := if boxed.None? || boxed.value.Null? then p.nullable
                        else boxed.value.Plain? && p.kind == ScalarKind(boxed.value.s.Type());
            fits ==>
              var got := GetOrCreateRow(sch, st, t, v, policy, current);
              got.out.Done? || (policy == ForceCreate && got == Res(st, Fail(Duplicate)))
  {
    hide KeysDistinct, FindFirst;
  }

  lemma {:induction false} RowHasKey(sch: Schema, st: State, t: nat, v: Value, policy: Policy, current: Option<nat>)
    requires Valid(sch, st.db) && t < |sch| && Keyed(sch, t) && v.Object?
    requires current.Some? ==> HasRow(st.db, t, current.value)
    requires GetOrCreateRow(sch, st, t, v, policy, current).out.Done?
    ensures var got := GetOrCreateRow(sch, st, t, v, policy, current);
            KeyOf(sch[t], v) == Done(KeyAt(sch, got.st.db, t, got.out.value.row))
  {
    var key := KeyOf(sch[t], v).value;
    if FindFirst(sch, st.db, t, key).None? {
      AddRowKey(sch, st, t, key);
    }
  }

  // What create returns is what a lookup finds afterwards by the key the value
  // gave, or else by the default or null, however much nested creates did to the
  // same table; and every key that resolved before still resolves to the same row.
  lemma {:induction false} CreateThenGet(sch: Schema, depth: nat, st: State, t: nat, v: Value, policy: Policy,
                                         current: Option<nat>)
    requires Valid(sch, st.db) && KeysDistinct(sch, st.db) && t < |sch| && Keyed(sch, t)
    requires current.Some? ==> HasRow(st.db, t, current.value)
    requires Create(sch, depth, st, t, v, policy, current).out.Done?
    ensures var res, c := Create(sch, depth, st, t, v, policy, current), sch[t].primary.value;
            && v.Object?
            && (var boxed := if v.Field(c).Some? then v.Field(c).value
                             else if sch[t].props[c].dflt.Some? then sch[t].props[c].dflt.value
                             else Null;
                GetForPrimaryKey(sch, res.st.db, t, boxed) == Done(Some(res.out.value)))
            && forall key, r | FindFirst(sch, st.db, t, key) == Some(r) :: FindFirst(sch, res.st.db, t, key) == Some(r)
  {
    hide KeysDistinct, Populate, FindFirst, Valid;
    var res := Create(sch, depth, st, t, v, policy, current);
    var got := GetOrCreateRow(sch, st, t, v, policy, current);
    CreateKey(sch, depth, st, t, v, policy, current);
    SchemaHere(sch, st.db);
    KeyStays(sch, got.st.db, res.st.db, t, res.out.value);
    forall key, r | FindFirst(sch, st.db, t, key) == Some(r)
      ensures FindFirst(sch, res.st.db, t, key) == Some(r)
    {
      KeyStays(sch, st.db, res.st.db, t, r);
    }
  }

  // ForceCreate refuses a key exactly when it is taken, and then writes nothing.
  lemma {:induction false} ForceCreateIffNew(sch: Schema, depth: nat, st: State, t: nat, v: Value, current: Option<nat>)
    requires Valid(sch, st.db) && t < |sch| && Keyed(sch, t) && v.Object?
    requires current.Some? ==> HasRow(st.db, t, current.value)
    requires KeyOf(sch[t], v).Done?
    ensures Create(sch, depth, st, t, v, ForceCreate, current) == Res(st, Fail(Duplicate)) <==>
            FindFirst(sch, st.db, t, KeyOf(sch[t], v).value).Some?
  {
    hide KeysDistinct, Populate, Valid;
  }
}
