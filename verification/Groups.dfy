// The tables of one Realm, updated in place. Every method leaves exactly the
// state, and returns exactly the outcome, of the function of the same name.
module Groups {
  import opened Wrappers
  import opened Store
  import U = Upsert

  class Group {
    const sch: Schema
    var rows: seq<nat>
    var cells: map<Slot, Cell>
    ghost var log: seq<Event>

    ghost function Now(): State
      reads this
    {
      State(Db(rows, cells), log)
    }

    ghost predicate Valid()
      reads this
    {
      Store.Valid(sch, Db(rows, cells))
    }

    constructor (sch: Schema)
      requires ValidSchema(sch)
      ensures Valid() && this.sch == sch && Now() == State(Db(seq(|sch|, _ => 0), map[]), [])
    {
      this.sch := sch;
      rows := seq(|sch|, _ => 0);
      cells := map[];
      log := [];
    }

    // ----- Primitive writes -----

    method AddRow(t: nat, key: Option<Scalar>) returns (r: nat)
      requires Valid() && t < |sch| && KeyFits(sch[t], key)
      requires Keyed(sch, t) ==> forall r | 0 <= r < rows[t] :: KeyAt(sch, Db(rows, cells), t, r) != key
      modifies this
      ensures Valid() && Now() == Store.AddRow(sch, old(Now()), t, key) && r == old(rows)[t]
    {
      hide KeysDistinct, NewCells;
      r := rows[t];
      ghost var before := Now();
      AddRowEvolves(sch, before.db, t, key);
      rows, cells := rows[t := r + 1], cells + NewCells(sch[t], t, r, key);
      log := log + [Added(t, r)];
      assert Db(rows, cells) == WithRow(sch, before.db, t, key);
    }

    method Put(s: Slot, cell: Cell)
      requires Valid() && s in cells && !IsKeySlot(sch, s)
      requires CellFits(sch[s.t].props[s.c], rows, cell)
      modifies this
      ensures Valid() && Now() == Store.Put(sch, old(Now()), s, cell)
    {
      ghost var after := Store.Put(sch, Now(), s, cell);
      log := log + [Wrote(s, cells[s], cell)];
      cells := cells[s := cell];
    }

    method FindFirst(t: nat, key: Option<Scalar>) returns (found: Option<nat>)
      requires Valid() && t < |sch| && Keyed(sch, t)
      ensures found == Store.FindFirst(sch, Db(rows, cells), t, key)
    {
      var c := sch[t].primary.value;
      var r := 0;
      while r < rows[t]
        invariant 0 <= r <= rows[t]
        invariant Store.FindFirst(sch, Db(rows, cells), t, key) == FindFrom(sch, Db(rows, cells), t, key, r)
      {
        assert CellFits(sch[t].props[c], rows, cells[Slot(t, r, c)]);
        if cells[Slot(t, r, c)].s == key {
          return Some(r);
        }
        r := r + 1;
      }
      found := None;
    }

    // ----- Object::create -----

    method Create(depth: nat, t: nat, v: Value, policy: U.Policy, current: Option<nat>)
      returns (out: Outcome<nat, U.Error>)
      requires Valid() && t < |sch| && (current.Some? ==> HasRow(Db(rows, cells), t, current.value))
      modifies this
      ensures Valid() && U.Res(Now(), out) == U.Create(sch, depth, old(Now()), t, v, policy, current)
      decreases depth, v, 3
    {
      ghost var spec := U.Create(sch, depth, Now(), t, v, policy, current);
      if !v.Object? {
        return Fail(U.BadValue);
      }
      var target := GetOrCreateRow(t, v, policy, current);
      if target.Fail? {
        return Fail(target.error);
      }
      out := Populate(depth, t, target.value.row, v, target.value.created, policy);
    }

    method Populate(depth: nat, t: nat, r: nat, v: Value, created: bool, policy: U.Policy)
      returns (out: Outcome<nat, U.Error>)
      requires Valid() && t < |sch| && HasRow(Db(rows, cells), t, r) && v.Object?
      modifies this
      ensures Valid() && U.Res(Now(), out) == U.Populate(sch, depth, old(Now()), t, r, v, created, policy, 0)
      decreases depth, v, 2
    {
      hide Store.Valid, Store.Evolves, U.PopulateOne;
      ghost var spec := U.Populate(sch, depth, Now(), t, r, v, created, policy, 0);
      for i := 0 to |sch[t].props|
        invariant Valid() && HasRow(Db(rows, cells), t, r) && t < |sch|
        invariant U.Populate(sch, depth, Now(), t, r, v, created, policy, i) == spec
      {
        ghost var step := U.PopulateOne(sch, depth, Now(), t, r, v, created, policy, i);
        assert U.Populate(sch, depth, Now(), t, r, v, created, policy, i) ==
               if step.out.Fail? then step else U.Populate(sch, depth, step.st, t, r, v, created, policy, i + 1);
        out := PopulateOne(depth, t, r, v, created, policy, i);
        if out.Fail? {
          return;
        }
      }
      out := Done(r);
    }

    method PopulateOne(depth: nat, t: nat, r: nat, v: Value, created: bool, policy: U.Policy, i: nat)
      returns (out: Outcome<nat, U.Error>)
      requires Valid() && HasRow(Db(rows, cells), t, r) && v.Object? && i < |sch[t].props|
      modifies this
      ensures Valid() && U.Res(Now(), out) == U.PopulateOne(sch, depth, old(Now()), t, r, v, created, policy, i)
      decreases depth, v, 1
    {
      if sch[t].primary == Some(i) {
        return Done(r);
      }
      var p := sch[t].props[i];
      var x := v.Field(i);
      if !created && x.None? {
        return Done(r);
      }
      var isDefault := false;
      if x.None? {
        x := p.dflt;
        isDefault := true;
      }
      if (x.None? || x.value.Null?) && !p.nullable && !p.kind.IsArray() {
        if !v.positional {
          return Fail(U.MissingProperty);
        }
      }
      if x.None? {
        return Done(r);
      }
      if isDefault && depth == 0 {
        return Fail(U.TooDeep);
      }
      out := SetProperty(if isDefault then depth - 1 else depth, t, r, i, x.value, policy, isDefault);
    }

    method GetOrCreateRow(t: nat, v: Value, policy: U.Policy, current: Option<nat>)
      returns (out: Outcome<U.Target, U.Error>)
      requires Valid() && t < |sch| && v.Object?
      requires current.Some? ==> HasRow(Db(rows, cells), t, current.value)
      modifies this
      ensures Valid() && U.Res(Now(), out) == U.GetOrCreateRow(sch, old(Now()), t, v, policy, current)
    {
      if Keyed(sch, t) {
        var key := U.KeyOf(sch[t], v);
        if key.Fail? {
          return Fail(key.error);
        }
        var found := FindFirst(t, key.value);
        if found.None? {
          var r := AddRow(t, key.value);
          return Done(U.Target(r, true));
        }
        if policy == U.ForceCreate {
          return Fail(U.Duplicate);
        }
        return Done(U.Target(found.value, false));
      }
      if policy == U.UpdateModified && current.Some? {
        return Done(U.Target(current.value, false));
      }
      var r := AddRow(t, None);
      out := Done(U.Target(r, true));
    }

    // ----- Object::set_property_value, its implementation and ValueUpdater -----

    method SetPropertyValue(depth: nat, t: nat, r: nat, c: nat, v: Value, policy: U.Policy)
      returns (out: Outcome<nat, U.Error>)
      requires Valid() && HasRow(Db(rows, cells), t, r) && c < |sch[t].props|
      modifies this
      ensures Valid() && U.Res(Now(), out) == U.SetPropertyValue(sch, depth, old(Now()), t, r, c, v, policy)
    {
      if sch[t].primary == Some(c) {
        return Fail(U.ModifyPrimaryKey);
      }
      out := SetProperty(depth, t, r, c, v, policy, false);
    }

    method SetProperty(depth: nat, t: nat, r: nat, c: nat, v: Value, policy: U.Policy, isDefault: bool)
      returns (out: Outcome<nat, U.Error>)
      requires U.Here(sch, Db(rows, cells), t, r, c)
      modifies this
      ensures Valid() && U.Res(Now(), out) == U.SetProperty(sch, depth, old(Now()), t, r, c, v, policy, isDefault)
      decreases depth, v, 5
    {
      hide KeysDistinct, Store.Valid, U.Nullify, U.Assign, U.UpdateLink, U.UpdateScalar;
      var s := Slot(t, r, c);
      PropertyOk(s);
      var p := sch[t].props[c];
      if p.nullable && v.Null? {
        Nullify(s, policy, isDefault);
        return Done(r);
      }
      if p.kind.IsArray() {
        if p.kind.BacklinksKind? {
          return Fail(U.ReadOnly);
        }
        out := Assign(depth, s, v, policy);
        return;
      }
      if p.kind.LinkKind? {
        out := UpdateLink(depth, s, v, policy);
      } else {
        out := UpdateScalar(s, v, policy);
      }
    }

    lemma {:induction false} PropertyOk(s: Slot)
      requires U.Here(sch, Db(rows, cells), s.t, s.r, s.c)
      ensures s.t < |sch| && s.c < |sch[s.t].props| && Valid()
      ensures sch[s.t].props[s.c].kind.IsArray() ==> !sch[s.t].props[s.c].nullable
    {
    }

    // The branch for null.
    method Nullify(s: Slot, policy: U.Policy, isDefault: bool)
      requires U.Here(sch, Db(rows, cells), s.t, s.r, s.c) && sch[s.t].props[s.c].nullable
      modifies this
      ensures Valid() && Now() == U.Nullify(sch, old(Now()), s.t, s.r, s.c, policy, isDefault)
    {
      hide KeysDistinct;
      assert CellFits(sch[s.t].props[s.c], rows, cells[s]);
      var isNull := cells[s] == Link(None) || cells[s] == One(None);
      if policy != U.UpdateModified || !isNull {
        if sch[s.t].props[s.c].kind.LinkKind? {
          if !isDefault {
            Put(s, Link(None));
          }
        } else {
          Put(s, One(None));
        }
      }
    }

    method UpdateScalar(s: Slot, v: Value, policy: U.Policy) returns (out: Outcome<nat, U.Error>)
      requires U.Here(sch, Db(rows, cells), s.t, s.r, s.c) && sch[s.t].props[s.c].kind.ScalarKind?
      modifies this
      ensures Valid() && U.Res(Now(), out) == U.UpdateScalar(sch, old(Now()), s.t, s.r, s.c, v, policy)
    {
      if !v.Plain? || v.s.Type() != sch[s.t].props[s.c].kind.ty {
        return Fail(U.BadValue);
      }
      if policy != U.UpdateModified || cells[s] != One(Some(v.s)) {
        Put(s, One(Some(v.s)));
      }
      out := Done(s.r);
    }

    method UpdateLink(depth: nat, s: Slot, v: Value, policy: U.Policy) returns (out: Outcome<nat, U.Error>)
      requires U.Here(sch, Db(rows, cells), s.t, s.r, s.c) && sch[s.t].props[s.c].kind.LinkKind?
      modifies this
      ensures Valid() && U.Res(Now(), out) == U.UpdateLink(sch, depth, old(Now()), s.t, s.r, s.c, v, policy)
      decreases depth, v, 4, 1
    {
      ghost var spec := U.UpdateLink(sch, depth, Now(), s.t, s.r, s.c, v, policy);
      assert CellFits(sch[s.t].props[s.c], rows, cells[s]);
      var current := cells[s].to;
      var link := Unbox(depth, sch[s.t].props[s.c].kind, v, policy, current);
      if link.Fail? {
        return Fail(link.error);
      }
      if policy != U.UpdateModified || current != Some(link.value.r) {
        Put(s, Link(Some(link.value.r)));
      }
      out := Done(s.r);
    }

    method Unbox(depth: nat, kind: Kind, v: Value, policy: U.Policy, current: Option<nat>)
      returns (out: Outcome<Item, U.Error>)
      requires Valid()
      requires kind.HasTarget() ==> kind.target < |sch|
      requires kind.HasTarget() && current.Some? ==> HasRow(Db(rows, cells), kind.target, current.value)
      requires kind.HasTarget() || kind.ScalarListKind?
      modifies this
      ensures Valid() && U.Res(Now(), out) == U.Unbox(sch, depth, old(Now()), kind, v, policy, current)
      decreases depth, v, 4, 0
    {
      if kind.ScalarListKind? {
        return if v.Plain? && v.s.Type() == kind.ty then Done(Val(v.s)) else Fail(U.BadValue);
      }
      if v.Managed? {
        return if v.row < rows[kind.target] then Done(Row(v.row)) else Fail(U.BadValue);
      }
      var made := Create(depth, kind.target, v, policy, current);
      out := if made.Fail? then Fail(made.error) else Done(Row(made.value));
    }

    // ----- List::assign and set_if_different -----

    method Assign(depth: nat, s: Slot, v: Value, policy: U.Policy) returns (out: Outcome<nat, U.Error>)
      requires U.ListHere(sch, Db(rows, cells), s)
      modifies this
      ensures Valid() && U.Res(Now(), out) == U.Assign(sch, depth, old(Now()), s.t, s.r, s.c, v, policy)
      decreases depth, v, 4, 1
    {
      ghost var spec := U.Assign(sch, depth, Now(), s.t, s.r, s.c, v, policy);
      assert CellFits(sch[s.t].props[s.c], rows, cells[s]);
      if v.SameList? {
        return Done(s.r);
      }
      if v.Null? {
        RemoveAll(s);
        return Done(s.r);
      }
      if policy == U.UpdateModified {
        if !v.Many? {
          return Fail(U.BadValue);
        }
        out := AssignInPlace(depth, s, v, |cells[s].items|);
      } else {
        RemoveAll(s);
        if !v.Many? {
          return Fail(U.BadValue);
        }
        out := AppendAll(depth, s, v, policy);
      }
    }

    method AssignInPlace(depth: nat, s: Slot, v: Value, size: nat) returns (out: Outcome<nat, U.Error>)
      requires U.ListHere(sch, Db(rows, cells), s) && v.Many?
      modifies this
      ensures Valid() && U.Res(Now(), out) == U.AssignInPlace(sch, depth, old(Now()), s, v, size, 0)
      decreases depth, v, 4, 0
    {
      hide Store.Valid, Store.Evolves, U.SetIfDifferent, U.Append;
      ghost var spec := U.AssignInPlace(sch, depth, Now(), s, v, size, 0);
      var index := 0;
      while index < |v.elems|
        invariant 0 <= index <= |v.elems|
        invariant U.ListHere(sch, Db(rows, cells), s)
        invariant U.AssignInPlace(sch, depth, Now(), s, v, size, index) == spec
      {
        ghost var step := if index < size then U.SetIfDifferent(sch, depth, Now(), s, v.elems[index], index)
                          else U.Append(sch, depth, Now(), s, v.elems[index], U.UpdateModified);
        assert U.AssignInPlace(sch, depth, Now(), s, v, size, index) ==
               if step.out.Fail? then step else U.AssignInPlace(sch, depth, step.st, s, v, size, index + 1);
        if index < size {
          out := SetIfDifferent(depth, s, v.elems[index], index);
        } else {
          out := Append(depth, s, v.elems[index], U.UpdateModified);
        }
        if out.Fail? {
          return;
        }
        index := index + 1;
      }
      out := Trim(s, index, size);
    }

    method Trim(s: Slot, keep: nat, size: nat) returns (out: Outcome<nat, U.Error>)
      requires U.ListHere(sch, Db(rows, cells), s)
      modifies this
      ensures Valid() && U.Res(Now(), out) == U.Trim(sch, old(Now()), s, keep, size)
    {
      hide Store.Valid, Store.Evolves;
      ghost var spec := U.Trim(sch, Now(), s, keep, size);
      var sz := size;
      while keep < sz
        invariant U.ListHere(sch, Db(rows, cells), s)
        invariant U.Trim(sch, Now(), s, keep, sz) == spec
        decreases sz
      {
        ghost var step := U.RemoveAt(sch, Now(), s, sz - 1);
        assert U.Trim(sch, Now(), s, keep, sz) == if step.out.Fail? then step
            else U.Trim(sch, step.st, s, keep, sz - 1);
        sz := sz - 1;
        out := RemoveAt(s, sz);
        if out.Fail? {
          return;
        }
      }
      out := Done(s.r);
    }

    method RemoveAt(s: Slot, i: nat) returns (out: Outcome<nat, U.Error>)
      requires U.ListHere(sch, Db(rows, cells), s)
      modifies this
      ensures Valid() && U.Res(Now(), out) == U.RemoveAt(sch, old(Now()), s, i)
    {
      assert CellFits(sch[s.t].props[s.c], rows, cells[s]);
      var items := cells[s].items;
      if i >= |items| {
        return Fail(U.OutOfBounds);
      }
      Put(s, List(items[..i] + items[i + 1..]));
      out := Done(s.r);
    }

    method AppendAll(depth: nat, s: Slot, v: Value, policy: U.Policy) returns (out: Outcome<nat, U.Error>)
      requires U.ListHere(sch, Db(rows, cells), s) && v.Many?
      modifies this
      ensures Valid() && U.Res(Now(), out) == U.AppendFrom(sch, depth, old(Now()), s, v, policy, 0)
      decreases depth, v, 4, 0
    {
      ghost var spec := U.AppendFrom(sch, depth, Now(), s, v, policy, 0);
      for i := 0 to |v.elems|
        invariant U.ListHere(sch, Db(rows, cells), s)
        invariant U.AppendFrom(sch, depth, Now(), s, v, policy, i) == spec
      {
        out := Append(depth, s, v.elems[i], policy);
        if out.Fail? {
          return;
        }
      }
      out := Done(s.r);
    }

    method RemoveAll(s: Slot)
      requires U.ListHere(sch, Db(rows, cells), s)
      modifies this
      ensures Valid() && Now() == U.RemoveAll(sch, old(Now()), s)
    {
      assert CellFits(sch[s.t].props[s.c], rows, cells[s]);
      if cells[s].items != [] {
        Put(s, List([]));
      }
    }

    method SetIfDifferent(depth: nat, s: Slot, e: Value, index: nat) returns (out: Outcome<nat, U.Error>)
      requires U.ListHere(sch, Db(rows, cells), s)
      modifies this
      ensures Valid() && U.Res(Now(), out) == U.SetIfDifferent(sch, depth, old(Now()), s, e, index)
      decreases depth, e, 6
    {
      ghost var spec := U.SetIfDifferent(sch, depth, Now(), s, e, index);
      assert CellFits(sch[s.t].props[s.c], rows, cells[s]);
      if index >= |cells[s].items| {
        return Fail(U.OutOfBounds);
      }
      var oldItem := cells[s].items[index];
      assert ItemFits(sch[s.t].props[s.c].kind, rows, oldItem);
      var newItem := Unbox(depth, sch[s.t].props[s.c].kind, e, U.UpdateModified, U.CurrentRow(oldItem));
      if newItem.Fail? {
        return Fail(newItem.error);
      }
      if newItem.value != oldItem {
        assert CellFits(sch[s.t].props[s.c], rows, cells[s]);
        if index >= |cells[s].items| {
          return Fail(U.OutOfBounds);
        }
        Put(s, List(cells[s].items[index := newItem.value]));
      }
      out := Done(s.r);
    }

    method Append(depth: nat, s: Slot, e: Value, policy: U.Policy) returns (out: Outcome<nat, U.Error>)
      requires U.ListHere(sch, Db(rows, cells), s)
      modifies this
      ensures Valid() && U.Res(Now(), out) == U.Append(sch, depth, old(Now()), s, e, policy)
      decreases depth, e, 6
    {
      ghost var spec := U.Append(sch, depth, Now(), s, e, policy);
      var item := Unbox(depth, sch[s.t].props[s.c].kind, e, policy, None);
      if item.Fail? {
        return Fail(item.error);
      }
      assert CellFits(sch[s.t].props[s.c], rows, cells[s]);
      Put(s, List(cells[s].items + [item.value]));
      out := Done(s.r);
    }
  }
}
