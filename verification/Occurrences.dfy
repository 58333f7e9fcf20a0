// The objects a value supplies, at any depth. Up to d levels of default values
// are counted in; with d == 0 that is the value alone.
module Occurrences {
  import opened Wrappers
  import opened Store

  // w occurs as an object of type u in v, an object of type t.
  ghost predicate Occurs(sch: Schema, d: nat, t: nat, v: Value, u: nat, w: Value)
    decreases d, v, 2
  {
    || (t == u && v == w)
    || (t < |sch| && v.Object? && exists c :: 0 <= c < |sch[t].props| && OccursAt(sch, d, t, v, c, u, w))
  }

  ghost predicate OccursAt(sch: Schema, d: nat, t: nat, v: Value, c: nat, u: nat, w: Value)
    requires t < |sch| && v.Object? && c < |sch[t].props|
    decreases d, v, 1
  {
    var p := sch[t].props[c];
    sch[t].primary != Some(c) &&
    if v.Field(c).Some? then OccursIn(sch, d, p.kind, v.Field(c).value, u, w)
    else d > 0 && p.dflt.Some? && OccursIn(sch, d - 1, p.kind, p.dflt.value, u, w)
  }

  // w occurs below a property of the given kind that is set to z.
  ghost predicate OccursIn(sch: Schema, d: nat, kind: Kind, z: Value, u: nat, w: Value)
    decreases d, z, 4
  {
    match kind
    case LinkKind(target) => z.Object? && Occurs(sch, d, target, z, u, w)
    case LinkListKind(target) =>
      z.Many? && exists i :: 0 <= i < |z.elems| && OccursElem(sch, d, target, z.elems[i], u, w)
    case _ => false
  }

  ghost predicate OccursElem(sch: Schema, d: nat, target: nat, e: Value, u: nat, w: Value)
    decreases d, e, 3
  {
    e.Object? && Occurs(sch, d, target, e, u, w)
  }

  // An object with a primary key is among them.
  ghost predicate ReachesKeyed(sch: Schema, d: nat, kind: Kind, z: Value) {
    exists u: nat, w: Value :: OccursKeyed(sch, d, kind, z, u, w)
  }

  ghost predicate OccursKeyed(sch: Schema, d: nat, kind: Kind, z: Value, u: nat, w: Value) {
    u < |sch| && Keyed(sch, u) && OccursIn(sch, d, kind, z, u, w)
  }
}
