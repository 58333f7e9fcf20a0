// UpdateAll and ForceCreate write what they are given whether or not it is there
// already: the log of a create has a write for every column that is given.
module Writes {
  import opened Wrappers
  import opened Store
  import opened Upsert

  // The log from `from` on has a write to slot s.
  ghost predicate WroteAt(log: seq<Event>, from: nat, s: Slot) {
    exists k :: from <= k < |log| && log[k].Wrote? && log[k].at == s
  }

  lemma {:induction false} WroteLater(a: seq<Event>, b: seq<Event>, from: nat, s: Slot)
    requires WroteAt(a, from, s) && a <= b
    ensures WroteAt(b, from, s)
  {
    var k :| from <= k < |a| && a[k].Wrote? && a[k].at == s;
    assert b[k] == a[k];
  }

  lemma {:induction false} WroteSince(log: seq<Event>, from: nat, since: nat, s: Slot)
    requires WroteAt(log, since, s) && from <= since
    ensures WroteAt(log, from, s)
  {
    var k :| since <= k < |log| && log[k].Wrote? && log[k].at == s;
  }

  // Setting z makes a write: anything but a list, or a list with elements.
  predicate Writes(p: Property, z: Value) {
    p.kind.ScalarKind? || p.kind.LinkKind? || (p.kind.IsArray() && z.Many? && z.elems != [])
  }

  lemma {:induction false} SetWrites(sch: Schema, depth: nat, st: State, s: Slot, z: Value, policy: Policy)
    requires s.t < |sch| && Here(sch, st.db, s.t, s.r, s.c) && policy != UpdateModified
    requires Writes(sch[s.t].props[s.c], z)
    requires SetProperty(sch, depth, st, s.t, s.r, s.c, z, policy, false).out.Done?
    ensures WroteAt(SetProperty(sch, depth, st, s.t, s.r, s.c, z, policy, false).st.log, |st.log|, s)
  {
    hide Valid, KeysDistinct, Unbox, Assign;
    CellOk(sch, st.db, s);
    SchemaThere(sch, st.db);
    var p := sch[s.t].props[s.c];
    var res := SetProperty(sch, depth, st, s.t, s.r, s.c, z, policy, false);
    if p.kind.ScalarListKind? || p.kind.LinkListKind? {
      AssignWrites(sch, depth, st, s, z, policy);
    } else {
      assert res.st.log[|res.st.log| - 1].at == s;
    }
  }

  lemma {:induction false} SchemaThere(sch: Schema, db: Db)
    requires Valid(sch, db)
    ensures ValidSchema(sch)
  {
  }

  lemma {:induction false} AssignWrites(sch: Schema, depth: nat, st: State, s: Slot, z: Value, policy: Policy)
    requires s.t < |sch| && ListHere(sch, st.db, s) && policy != UpdateModified && z.Many? && z.elems != []
    requires Assign(sch, depth, st, s.t, s.r, s.c, z, policy).out.Done?
    ensures WroteAt(Assign(sch, depth, st, s.t, s.r, s.c, z, policy).st.log, |st.log|, s)
  {
    hide Valid, KeysDistinct, AppendFrom, Append, Unbox;
    CellOk(sch, st.db, s);
    var st' := RemoveAll(sch, st, s);
    FirstAppended(sch, depth, st', s, z, policy);
    WroteSince(Assign(sch, depth, st, s.t, s.r, s.c, z, policy).st.log, |st.log|, |st'.log|, s);
  }

  lemma {:induction false} FirstAppended(sch: Schema, depth: nat, st: State, s: Slot, z: Value, policy: Policy)
    requires s.t < |sch| && ListHere(sch, st.db, s) && z.Many? && z.elems != []
    requires AppendFrom(sch, depth, st, s, z, policy, 0).out.Done?
    ensures WroteAt(AppendFrom(sch, depth, st, s, z, policy, 0).st.log, |st.log|, s)
  {
    hide Valid, KeysDistinct, Evolves, Append, Unbox;
    AppendExact(sch, depth, st, s, z.elems[0], policy);
    var step := Append(sch, depth, st, s, z.elems[0], policy);
    assert step.st.log[|step.st.log| - 1].at == s;
    WroteLater(step.st.log, AppendFrom(sch, depth, step.st, s, z, policy, 1).st.log, |st.log|, s);
  }

  lemma {:induction false} PopulateWrites(sch: Schema, depth: nat, st: State, t: nat, r: nat, v: Value, created: bool,
                                          policy: Policy, i: nat, c: nat)
    requires Valid(sch, st.db) && t < |sch| && HasRow(st.db, t, r) && v.Object? && i <= c < |sch[t].props|
    requires policy != UpdateModified && sch[t].primary != Some(c)
    requires v.Field(c).Some? && Writes(sch[t].props[c], v.Field(c).value)
    requires Populate(sch, depth, st, t, r, v, created, policy, i).out.Done?
    ensures WroteAt(Populate(sch, depth, st, t, r, v, created, policy, i).st.log, |st.log|, Slot(t, r, c))
    decreases c - i
  {
    hide Valid, KeysDistinct, Evolves, SetProperty, Writes, WroteAt;
    var step := PopulateOne(sch, depth, st, t, r, v, created, policy, i);
    var res := Populate(sch, depth, step.st, t, r, v, created, policy, i + 1);
    if i == c {
      SetWrites(sch, depth, st, Slot(t, r, c), v.Field(c).value, policy);
      WroteLater(step.st.log, res.st.log, |st.log|, Slot(t, r, c));
    } else {
      PopulateWrites(sch, depth, step.st, t, r, v, created, policy, i + 1, c);
      WroteSince(res.st.log, |st.log|, |step.st.log|, Slot(t, r, c));
    }
  }

  // Every column given to create, but the key and empty lists, is written.
  lemma {:induction false} CreateWrites(sch: Schema, depth: nat, st: State, t: nat, v: Value, policy: Policy,
                                        current: Option<nat>, c: nat)
    requires Valid(sch, st.db) && t < |sch| && (current.Some? ==> HasRow(st.db, t, current.value))
    requires Create(sch, depth, st, t, v, policy, current).out.Done? && policy != UpdateModified
    requires v.Object? && c < |sch[t].props| && sch[t].primary != Some(c)
    requires v.Field(c).Some? && Writes(sch[t].props[c], v.Field(c).value)
    ensures var res := Create(sch, depth, st, t, v, policy, current);
            WroteAt(res.st.log, |st.log|, Slot(t, res.out.value, c))
  {
    hide Valid, KeysDistinct, Populate, Writes, WroteAt;
    var got := GetOrCreateRow(sch, st, t, v, policy, current);
    var res := Create(sch, depth, st, t, v, policy, current);
    PopulateWrites(sch, depth, got.st, t, got.out.value.row, v, got.out.value.created, policy, 0, c);
    WroteSince(res.st.log, |st.log|, |got.st.log|, Slot(t, res.out.value, c));
  }
}
