// The plan of a value, computed: the objects of the value and of the default
// values it draws in, each with the row it lands on and ranked by its height.
// Idempotence then rests on two checks over that computation: the defaults come
// to an end, and no row is given two contents.
module Plans {
  import opened Wrappers
  import opened Store
  import opened Upsert
  import opened ReadBack
  import opened Idempotence

  ghost function Max(a: nat, b: nat): nat {
    if a < b then b else a
  }

  // The tables before the run, with no plan yet.
  ghost function Bare(sch: Schema, db: Db, policy: Policy): World {
    World(sch, db, map[], policy)
  }

  ghost function VisitOf(sch: Schema, db: Db, policy: Policy, u: nat, v: Value, current: Option<nat>): Visit
    requires Valid(sch, db) && u < |sch| && v.Object?
  {
    Visit(u, v, Landing(Bare(sch, db, policy), u, v, current))
  }

  // What a value reaches: its visits, the height of their tree, and whether all
  // default values in it could be expanded.
  datatype Reach = Reach(visits: set<Visit>, height: nat, closed: bool)

  const NOWHERE := Reach({}, 0, true)

  ghost function Join(a: Reach, b: Reach): Reach {
    Reach(a.visits + b.visits, Max(a.height, b.height), a.closed && b.closed)
  }

  // d bounds how deeply defaults may expand into further defaults.
  ghost function Reached(sch: Schema, db: Db, policy: Policy, d: nat, x: Visit): Reach
    requires Valid(sch, db) && x.t < |sch| && x.v.Object?
    decreases d, x.v, 2, 0
  {
    var below := ColumnsReach(sch, db, policy, d, x, |sch[x.t].props|);
    Reach({x} + below.visits, 1 + below.height, below.closed)
  }

  // Below the first n columns of x.
  ghost function ColumnsReach(sch: Schema, db: Db, policy: Policy, d: nat, x: Visit, n: nat): Reach
    requires Valid(sch, db) && x.t < |sch| && x.v.Object? && n <= |sch[x.t].props|
    decreases d, x.v, 1, n
  {
    if n == 0 then NOWHERE
    else Join(ColumnsReach(sch, db, policy, d, x, n - 1), ColumnReach(sch, db, policy, d, x, n - 1))
  }

  ghost function ColumnReach(sch: Schema, db: Db, policy: Policy, d: nat, x: Visit, c: nat): Reach
    requires Valid(sch, db) && x.t < |sch| && x.v.Object? && c < |sch[x.t].props|
    decreases d, x.v, 0, 0
  {
    var kind, z, was := sch[x.t].props[c].kind, Supplied(sch[x.t], x, c), OldCell(Bare(sch, db, policy), x, c);
    if z.None? then NOWHERE
    else if x.v.Field(c).Some? then ValueReach(sch, db, policy, d, kind, x.v.Field(c).value, was)
    else if d == 0 then Reach({}, 0, !kind.HasTarget())
    else ValueReach(sch, db, policy, d - 1, kind, z.value, was)
  }

  ghost function ValueReach(sch: Schema, db: Db, policy: Policy, d: nat, kind: Kind, z: Value, was: Cell): Reach
    requires Valid(sch, db)
    decreases d, z, 4, 0
  {
    if kind.LinkKind? && kind.target < |sch| && z.Object? then
      Reached(sch, db, policy, d, VisitOf(sch, db, policy, kind.target, z, OldLink(was)))
    else if kind.LinkListKind? && kind.target < |sch| && z.Many? then
      ElemsReach(sch, db, policy, d, kind.target, z, was, |z.elems|)
    else
      NOWHERE
  }

  ghost function ElemsReach(sch: Schema, db: Db, policy: Policy, d: nat, u: nat, z: Value, was: Cell, n: nat): Reach
    requires Valid(sch, db) && u < |sch| && z.Many? && n <= |z.elems|
    decreases d, z, 3, n
  {
    if n == 0 then NOWHERE
    else
      Join(ElemsReach(sch, db, policy, d, u, z, was, n - 1),
           if z.elems[n - 1].Object?
           then Reached(sch, db, policy, d, VisitOf(sch, db, policy, u, z.elems[n - 1], OldItem(was, n - 1)))
           else NOWHERE)
  }

  ghost function PlanOf(sch: Schema, db: Db, policy: Policy, d: nat, x: Visit): map<Visit, nat>
    requires Valid(sch, db) && x.t < |sch| && x.v.Object?
    ensures x in PlanOf(sch, db, policy, d, x)
  {
    map y | y in Reached(sch, db, policy, d, x).visits :: HeightOf(sch, db, policy, d, y)
  }

  ghost function HeightOf(sch: Schema, db: Db, policy: Policy, d: nat, y: Visit): nat
    requires Valid(sch, db)
  {
    if y.t < |sch| && y.v.Object? then Reached(sch, db, policy, d, y).height else 0
  }

  // ----- Room for more defaults changes nothing once all are expanded -----

  lemma {:induction false} ReachedStable(sch: Schema, db: Db, policy: Policy, d: nat, e: nat, x: Visit)
    requires Valid(sch, db) && x.t < |sch| && x.v.Object? && d <= e && Reached(sch, db, policy, d, x).closed
    ensures Reached(sch, db, policy, e, x) == Reached(sch, db, policy, d, x)
    decreases d, x.v, 2, 0
  {
    hide Valid, OldCell, Landing;
    ColumnsStable(sch, db, policy, d, e, x, |sch[x.t].props|);
  }

  lemma {:induction false} ColumnsStable(sch: Schema, db: Db, policy: Policy, d: nat, e: nat, x: Visit, n: nat)
    requires Valid(sch, db) && x.t < |sch| && x.v.Object? && n <= |sch[x.t].props| && d <= e
    requires ColumnsReach(sch, db, policy, d, x, n).closed
    ensures ColumnsReach(sch, db, policy, e, x, n) == ColumnsReach(sch, db, policy, d, x, n)
    decreases d, x.v, 1, n
  {
    hide Valid, OldCell, Landing, ValueReach;
    if n > 0 {
      ColumnsStable(sch, db, policy, d, e, x, n - 1);
      ColumnStable(sch, db, policy, d, e, x, n - 1);
    }
  }

  lemma {:induction false} ColumnStable(sch: Schema, db: Db, policy: Policy, d: nat, e: nat, x: Visit, c: nat)
    requires Valid(sch, db) && x.t < |sch| && x.v.Object? && c < |sch[x.t].props| && d <= e
    requires ColumnReach(sch, db, policy, d, x, c).closed
    ensures ColumnReach(sch, db, policy, e, x, c) == ColumnReach(sch, db, policy, d, x, c)
    decreases d, x.v, 0, 0
  {
    hide Valid, OldCell, Landing, Reached, ElemsReach;
    var kind, z, was := sch[x.t].props[c].kind, Supplied(sch[x.t], x, c), OldCell(Bare(sch, db, policy), x, c);
    if x.v.Field(c).Some? {
      ValueStable(sch, db, policy, d, e, kind, x.v.Field(c).value, was);
    } else if z.Some? && d > 0 {
      ValueStable(sch, db, policy, d - 1, e - 1, kind, z.value, was);
    }
  }

  lemma {:induction false} ValueStable(sch: Schema, db: Db, policy: Policy, d: nat, e: nat, kind: Kind, z: Value,
                                       was: Cell)
    requires Valid(sch, db) && d <= e && ValueReach(sch, db, policy, d, kind, z, was).closed
    ensures ValueReach(sch, db, policy, e, kind, z, was) == ValueReach(sch, db, policy, d, kind, z, was)
    decreases d, z, 4, 0
  {
    hide Valid, Landing, ColumnsReach;
    if kind.LinkKind? && kind.target < |sch| && z.Object? {
      ReachedStable(sch, db, policy, d, e, VisitOf(sch, db, policy, kind.target, z, OldLink(was)));
    } else if kind.LinkListKind? && kind.target < |sch| && z.Many? {
      ElemsStable(sch, db, policy, d, e, kind.target, z, was, |z.elems|);
    }
  }

  lemma {:induction false} ElemsStable(sch: Schema, db: Db, policy: Policy, d: nat, e: nat, u: nat, z: Value, was: Cell,
                                       n: nat)
    requires Valid(sch, db) && u < |sch| && z.Many? && n <= |z.elems| && d <= e
             && ElemsReach(sch, db, policy, d, u, z, was, n).closed
    ensures ElemsReach(sch, db, policy, e, u, z, was, n) == ElemsReach(sch, db, policy, d, u, z, was, n)
    decreases d, z, 3, n
  {
    hide Valid, Landing, ColumnsReach;
    if n > 0 {
      ElemsStable(sch, db, policy, d, e, u, z, was, n - 1);
      if z.elems[n - 1].Object? {
        ReachedStable(sch, db, policy, d, e, VisitOf(sch, db, policy, u, z.elems[n - 1], OldItem(was, n - 1)));
      }
    }
  }

  // ----- The computed plan is closed -----

  // y is a proper visit, fully expanded, whose own visits all lie in all.
  ghost predicate Inside(sch: Schema, db: Db, policy: Policy, d: nat, y: Visit, all: set<Visit>)
    requires Valid(sch, db)
  {
    && y.t < |sch| && y.v.Object?
    && (y.at.Some? ==> HasRow(db, y.t, y.at.value))
    && y.at == Landing(Bare(sch, db, policy), y.t, y.v, y.at)
    && Reached(sch, db, policy, d, y).closed && Reached(sch, db, policy, d, y).visits <= all
  }

  lemma {:induction false} LandsInside(sch: Schema, db: Db, policy: Policy, u: nat, v: Value, current: Option<nat>)
    requires Valid(sch, db) && u < |sch| && v.Object? && (current.Some? ==> HasRow(db, u, current.value))
    ensures var y := VisitOf(sch, db, policy, u, v, current);
            && (y.at.Some? ==> HasRow(db, u, y.at.value))
            && y.at == Landing(Bare(sch, db, policy), u, v, y.at)
  {
  }

  ghost predicate CellInRange(db: Db, kind: Kind, was: Cell) {
    kind.HasTarget() ==>
      && (OldLink(was).Some? ==> HasRow(db, kind.target, OldLink(was).value))
      && forall i: nat :: OldItem(was, i).Some? ==> HasRow(db, kind.target, OldItem(was, i).value)
  }

  lemma {:induction false} OldCellInRange(sch: Schema, db: Db, policy: Policy, x: Visit, c: nat)
    requires Valid(sch, db) && x.t < |sch| && c < |sch[x.t].props|
    ensures CellInRange(db, sch[x.t].props[c].kind, OldCell(Bare(sch, db, policy), x, c))
  {
    var was := OldCell(Bare(sch, db, policy), x, c);
    if x.at.Some? && Slot(x.t, x.at.value, c) in db.cells {
      CellOk(sch, db, Slot(x.t, x.at.value, c));
      forall i: nat | OldItem(was, i).Some? && sch[x.t].props[c].kind.HasTarget()
        ensures HasRow(db, sch[x.t].props[c].kind.target, OldItem(was, i).value)
      {
        assert ItemFits(sch[x.t].props[c].kind, db.rows, was.items[i]);
      }
    }
  }

  // Every visit of a closed reach is inside it; e is the bound the plan uses.
  lemma {:induction false} VisitsInside(sch: Schema, db: Db, policy: Policy, d: nat, e: nat, x: Visit, y: Visit)
    requires Valid(sch, db) && x.t < |sch| && x.v.Object? && d <= e
    requires Reached(sch, db, policy, d, x).closed && y in Reached(sch, db, policy, d, x).visits
    requires (x.at.Some? ==> HasRow(db, x.t, x.at.value)) && x.at == Landing(Bare(sch, db, policy), x.t, x.v, x.at)
    ensures Inside(sch, db, policy, e, y, Reached(sch, db, policy, d, x).visits)
    decreases d, x.v, 2, 0
  {
    hide Valid, Landing, OldCell;
    ReachedStable(sch, db, policy, d, e, x);
    if y != x {
      ColumnsInside(sch, db, policy, d, e, x, |sch[x.t].props|, y);
    }
  }

  lemma {:induction false} ColumnsInside(sch: Schema, db: Db, policy: Policy, d: nat, e: nat, x: Visit, n: nat,
                                         y: Visit)
    requires Valid(sch, db) && x.t < |sch| && x.v.Object? && n <= |sch[x.t].props| && d <= e
    requires ColumnsReach(sch, db, policy, d, x, n).closed && y in ColumnsReach(sch, db, policy, d, x, n).visits
    ensures Inside(sch, db, policy, e, y, ColumnsReach(sch, db, policy, d, x, n).visits)
    decreases d, x.v, 1, n
  {
    hide Valid, Landing, OldCell, Reached, ColumnReach;
    if y in ColumnsReach(sch, db, policy, d, x, n - 1).visits {
      ColumnsInside(sch, db, policy, d, e, x, n - 1, y);
    } else {
      ColumnInside(sch, db, policy, d, e, x, n - 1, y);
    }
  }

  lemma {:induction false} ColumnInside(sch: Schema, db: Db, policy: Policy, d: nat, e: nat, x: Visit, c: nat, y: Visit)
    requires Valid(sch, db) && x.t < |sch| && x.v.Object? && c < |sch[x.t].props| && d <= e
    requires ColumnReach(sch, db, policy, d, x, c).closed && y in ColumnReach(sch, db, policy, d, x, c).visits
    ensures Inside(sch, db, policy, e, y, ColumnReach(sch, db, policy, d, x, c).visits)
    decreases d, x.v, 0, 0
  {
    hide Valid, Landing, OldCell, Reached, ValueReach;
    var kind, z, was := sch[x.t].props[c].kind, Supplied(sch[x.t], x, c), OldCell(Bare(sch, db, policy), x, c);
    OldCellInRange(sch, db, policy, x, c);
    if x.v.Field(c).Some? {
      ValueInside(sch, db, policy, d, e, kind, x.v.Field(c).value, was, y);
    } else {
      ValueInside(sch, db, policy, d - 1, e, kind, z.value, was, y);
    }
  }

  lemma {:induction false} ValueInside(sch: Schema, db: Db, policy: Policy, d: nat, e: nat, kind: Kind, z: Value,
                                       was: Cell, y: Visit)
    requires Valid(sch, db) && CellInRange(db, kind, was) && d <= e
    requires ValueReach(sch, db, policy, d, kind, z, was).closed
             && y in ValueReach(sch, db, policy, d, kind, z, was).visits
    ensures Inside(sch, db, policy, e, y, ValueReach(sch, db, policy, d, kind, z, was).visits)
    decreases d, z, 4, 0
  {
    hide Valid, Landing, Reached, ElemsReach;
    if kind.LinkKind? {
      LandsInside(sch, db, policy, kind.target, z, OldLink(was));
      VisitsInside(sch, db, policy, d, e, VisitOf(sch, db, policy, kind.target, z, OldLink(was)), y);
    } else {
      ElemsInside(sch, db, policy, d, e, kind, z, was, |z.elems|, y);
    }
  }

  lemma {:induction false} ElemsInside(sch: Schema, db: Db, policy: Policy, d: nat, e: nat, kind: Kind, z: Value,
                                       was: Cell, n: nat, y: Visit)
    requires Valid(sch, db) && kind.LinkListKind? && kind.target < |sch| && z.Many? && n <= |z.elems| && d <= e
    requires CellInRange(db, kind, was)
    requires ElemsReach(sch, db, policy, d, kind.target, z, was, n).closed
             && y in ElemsReach(sch, db, policy, d, kind.target, z, was, n).visits
    ensures Inside(sch, db, policy, e, y, ElemsReach(sch, db, policy, d, kind.target, z, was, n).visits)
    decreases d, z, 3, n
  {
    hide Valid, Landing, Reached;
    if y in ElemsReach(sch, db, policy, d, kind.target, z, was, n - 1).visits {
      ElemsInside(sch, db, policy, d, e, kind, z, was, n - 1, y);
    } else {
      LandsInside(sch, db, policy, kind.target, z.elems[n - 1], OldItem(was, n - 1));
      VisitsInside(sch, db, policy, d, e, VisitOf(sch, db, policy, kind.target, z.elems[n - 1], OldItem(was, n - 1)),
          y);
    }
  }

  // ----- The visits below a visit are planned -----

  lemma {:induction false} ColumnIn(sch: Schema, db: Db, policy: Policy, d: nat, x: Visit, c: nat, n: nat)
    requires Valid(sch, db) && x.t < |sch| && x.v.Object? && c < n <= |sch[x.t].props|
    ensures ColumnReach(sch, db, policy, d, x, c).visits <= ColumnsReach(sch, db, policy, d, x, n).visits
    ensures ColumnReach(sch, db, policy, d, x, c).height <= ColumnsReach(sch, db, policy, d, x, n).height
    ensures ColumnsReach(sch, db, policy, d, x, n).closed ==> ColumnReach(sch, db, policy, d, x, c).closed
    decreases n
  {
    hide Valid, ColumnReach;
    if c < n - 1 {
      ColumnIn(sch, db, policy, d, x, c, n - 1);
    }
  }

  lemma {:induction false} ElemIn(sch: Schema, db: Db, policy: Policy, d: nat, u: nat, z: Value, was: Cell, i: nat,
                                  n: nat)
    requires Valid(sch, db) && u < |sch| && z.Many? && i < n <= |z.elems| && z.elems[i].Object?
    ensures var r := Reached(sch, db, policy, d, VisitOf(sch, db, policy, u, z.elems[i], OldItem(was, i)));
            var all := ElemsReach(sch, db, policy, d, u, z, was, n);
            r.visits <= all.visits && r.height <= all.height && (all.closed ==> r.closed)
    decreases n
  {
    hide Valid, Landing, Reached;
    if i < n - 1 {
      ElemIn(sch, db, policy, d, u, z, was, i, n - 1);
    }
  }

  // A visit that is reached with d to go has the rank it has with e to go.
  lemma {:induction false} RankedBelow(w: World, d: nat, e: nat, y: Visit, child: Visit)
    requires Valid(w.sch, w.db) && y in w.plan && child.t < |w.sch| && child.v.Object? && d <= e
    requires var r := Reached(w.sch, w.db, w.policy, d, child);
             r.closed && r.height < w.plan[y] && forall x | x in r.visits ::
                 x in w.plan && w.plan[x] == HeightOf(w.sch, w.db, w.policy, e, x)
    ensures child in w.plan && w.plan[child] < w.plan[y]
  {
    hide Valid, ColumnsReach;
    ReachedStable(w.sch, w.db, w.policy, d, e, child);
    assert child in Reached(w.sch, w.db, w.policy, d, child).visits;
  }

  lemma {:induction false} ValueIsPlanned(w: World, d: nat, e: nat, y: Visit, kind: Kind, z: Value, was: Cell)
    requires Valid(w.sch, w.db) && y in w.plan && d <= e
    requires var r := ValueReach(w.sch, w.db, w.policy, d, kind, z, was);
             r.closed && r.height < w.plan[y] && forall x | x in r.visits ::
                 x in w.plan && w.plan[x] == HeightOf(w.sch, w.db, w.policy, e, x)
    ensures ValuePlanned(w, y, kind, z, was)
  {
    hide Valid, Landing, Reached, HeightOf;
    if kind.LinkKind? && kind.target < |w.sch| && z.Object? {
      SameLanding(w, kind.target, z, OldLink(was));
      RankedBelow(w, d, e, y, VisitOf(w.sch, w.db, w.policy, kind.target, z, OldLink(was)));
    } else if kind.LinkListKind? && kind.target < |w.sch| && z.Many? {
      forall i | 0 <= i < |z.elems|
        ensures Planned(w, y, kind.target, z.elems[i], OldItem(was, i))
      {
        if z.elems[i].Object? {
          SameLanding(w, kind.target, z.elems[i], OldItem(was, i));
          ElemIn(w.sch, w.db, w.policy, d, kind.target, z, was, i, |z.elems|);
          RankedBelow(w, d, e, y, VisitOf(w.sch, w.db, w.policy, kind.target, z.elems[i], OldItem(was, i)));
        }
      }
    }
  }

  lemma {:induction false} ColumnIsPlanned(w: World, d: nat, x: Visit, y: Visit, c: nat)
    requires Valid(w.sch, w.db) && x.t < |w.sch| && x.v.Object? && w.plan == PlanOf(w.sch, w.db, w.policy, d, x)
    requires y in w.plan && Inside(w.sch, w.db, w.policy, d, y, Reached(w.sch, w.db, w.policy, d, x).visits)
             && c < |w.sch[y.t].props|
    ensures ColumnPlanned(w, y, c)
  {
    hide Valid, Landing, ValueReach, OldCell, ColumnsReach;
    var kind, z := w.sch[y.t].props[c].kind, Supplied(w.sch[y.t], y, c);
    var was := OldCell(Bare(w.sch, w.db, w.policy), y, c);
    SameOldCell(w, y, c);
    ColumnIn(w.sch, w.db, w.policy, d, y, c, |w.sch[y.t].props|);
    if z.Some? {
      if y.v.Field(c).Some? {
        ValueIsPlanned(w, d, d, y, kind, z.value, was);
      } else if d > 0 {
        ValueIsPlanned(w, d - 1, d, y, kind, z.value, was);
      }
    }
  }

  lemma {:induction false} SameOldCell(w: World, y: Visit, c: nat)
    requires y.t < |w.sch| && c < |w.sch[y.t].props|
    ensures OldCell(w, y, c) == OldCell(Bare(w.sch, w.db, w.policy), y, c)
  {
  }

  lemma {:induction false} SameLanding(w: World, u: nat, v: Value, current: Option<nat>)
    requires Valid(w.sch, w.db) && u < |w.sch| && v.Object?
    ensures Landing(w, u, v, current) == Landing(Bare(w.sch, w.db, w.policy), u, v, current)
  {
  }

  // The plan of a value is a plan as soon as all defaults are expanded and it is
  // coherent: no key, and no existing row of a table without keys, is given two
  // different contents.
  lemma {:induction false} ComputedPlanOk(sch: Schema, db: Db, policy: Policy, d: nat, x: Visit)
    requires Valid(sch, db) && KeysDistinct(sch, db) && x.t < |sch| && x.v.Object?
    requires (x.at.Some? ==> HasRow(db, x.t, x.at.value)) && x.at == Landing(Bare(sch, db, policy), x.t, x.v, x.at)
    requires Reached(sch, db, policy, d, x).closed && Coherent(World(sch, db, PlanOf(sch, db, policy, d, x), policy))
    ensures PlanOk(World(sch, db, PlanOf(sch, db, policy, d, x), policy))
  {
    hide Valid, KeysDistinct, Coherent, Landing, ColumnsReach, ColumnPlanned;
    var w := World(sch, db, PlanOf(sch, db, policy, d, x), policy);
    forall y | y in w.plan
      ensures VisitOk(w, y)
    {
      VisitsInside(sch, db, policy, d, d, x, y);
      SameLanding(w, y.t, y.v, y.at);
      forall c | 0 <= c < |sch[y.t].props|
        ensures ColumnPlanned(w, y, c)
      {
        ColumnIsPlanned(w, d, x, y, c);
      }
    }
  }

  // What a create under any policy leaves, with both conditions checked on what the
  // value reaches.
  lemma {:induction false} CreateResult(sch: Schema, depth: nat, db: Db, t: nat, v: Value, policy: Policy,
                                        current: Option<nat>, d: nat) returns (done: map<RowId, Visit>)
    requires Valid(sch, db) && KeysDistinct(sch, db)
    requires t < |sch| && v.Object? && (current.Some? ==> HasRow(db, t, current.value))
    requires Reached(sch, db, policy, d, VisitOf(sch, db, policy, t, v, current)).closed
    requires Coherent(World(sch, db, PlanOf(sch, db, policy, d, VisitOf(sch, db, policy, t, v, current)), policy))
    requires Create(sch, depth, State(db, []), t, v, policy, current).out.Done?
    ensures var res, x := Create(sch, depth, State(db, []), t, v, policy, current),
                          VisitOf(sch, db, policy, t, v, current);
            && Stored(sch, res.st.db, t, res.out.value, v)
            && RowId(t, res.out.value) in done && done[RowId(t, res.out.value)] == x
            && (forall id | id in done ::
                  RowResult(World(sch, db, PlanOf(sch, db, policy, d, x), policy), res.st.db, id, done[id]))
            && (forall id: RowId | HasRow(res.st.db, id.t, id.r) && !HasRow(db, id.t, id.r) :: id in done)
            && (forall s | s in db.cells && RowId(s.t, s.r) !in done ::
                  s in res.st.db.cells && res.st.db.cells[s] == db.cells[s])
  {
    hide KeysDistinct, Coherent, Create, Stored, Reached, RowResult;
    var x := VisitOf(sch, db, policy, t, v, current);
    LandsInside(sch, db, policy, t, v, current);
    ComputedPlanOk(sch, db, policy, d, x);
    var w := World(sch, db, PlanOf(sch, db, policy, d, x), policy);
    SameLanding(w, t, v, current);
    CreateStores(w, depth, [], x, current);
    done := CreateExact(w, depth, [], x, current);
  }

  // Idempotence, with both conditions checked on what the value reaches.
  lemma {:induction false} UpsertTwice(sch: Schema, depth: nat, db: Db, t: nat, v: Value, current: Option<nat>, d: nat)
    requires Valid(sch, db) && KeysDistinct(sch, db)
    requires t < |sch| && v.Object? && (current.Some? ==> HasRow(db, t, current.value))
    requires Reached(sch, db, UpdateModified, d, VisitOf(sch, db, UpdateModified, t, v, current)).closed
    requires Coherent(World(sch, db,
             PlanOf(sch, db, UpdateModified, d, VisitOf(sch, db, UpdateModified, t, v, current)), UpdateModified))
    requires Create(sch, depth, State(db, []), t, v, UpdateModified, current).out.Done?
    ensures var first := Create(sch, depth, State(db, []), t, v, UpdateModified, current);
            && Stored(sch, first.st.db, t, first.out.value, v)
            && Create(sch, depth, first.st, t, v, UpdateModified, Some(first.out.value)) == first
            && (Keyed(sch, t) ==> Create(sch, depth, first.st, t, v, UpdateModified, None) == first)
  {
    hide KeysDistinct, Coherent, Create, Stored, Reached;
    var x := VisitOf(sch, db, UpdateModified, t, v, current);
    LandsInside(sch, db, UpdateModified, t, v, current);
    ComputedPlanOk(sch, db, UpdateModified, d, x);
    var w := World(sch, db, PlanOf(sch, db, UpdateModified, d, x), UpdateModified);
    SameLanding(w, t, v, current);
    CreateStores(w, depth, [], x, current);
    UpsertIsIdempotent(w, depth, [], x, current, depth);
  }

  // Defaults without objects are always expanded.
  ghost predicate DefaultsHoldNoObjects(sch: Schema) {
    forall t, c | 0 <= t < |sch| && 0 <= c < |sch[t].props| && sch[t].props[c].dflt.Some? ::
      var z := sch[t].props[c].dflt.value;
      !z.Object? && (z.Many? ==> forall i | 0 <= i < |z.elems| :: !z.elems[i].Object?)
  }

  lemma {:induction false} AlwaysExpanded(sch: Schema, db: Db, policy: Policy, d: nat, x: Visit)
    requires Valid(sch, db) && DefaultsHoldNoObjects(sch) && d > 0 && x.t < |sch| && x.v.Object?
    ensures Reached(sch, db, policy, d, x).closed
    decreases x.v, 1, 0
  {
    hide Valid, OldCell, Landing;
    ColumnsExpanded(sch, db, policy, d, x, |sch[x.t].props|);
  }

  lemma {:induction false} ColumnsExpanded(sch: Schema, db: Db, policy: Policy, d: nat, x: Visit, n: nat)
    requires Valid(sch, db) && DefaultsHoldNoObjects(sch) && d > 0 && x.t < |sch| && x.v.Object?
             && n <= |sch[x.t].props|
    ensures ColumnsReach(sch, db, policy, d, x, n).closed
    decreases x.v, 0, n
  {
    hide Valid, OldCell, Landing, ColumnReach, DefaultsHoldNoObjects;
    if n > 0 {
      ColumnsExpanded(sch, db, policy, d, x, n - 1);
      if x.v.Field(n - 1).Some? {
        ValueExpanded(sch, db, policy, d, sch[x.t].props[n - 1].kind, x.v.Field(n - 1).value,
            OldCell(Bare(sch, db, policy), x, n - 1));
        GivenColumn(sch, db, policy, d, x, n - 1);
      } else {
        DefaultExpanded(sch, db, policy, d, x, n - 1);
      }
    }
  }

  lemma {:induction false} GivenColumn(sch: Schema, db: Db, policy: Policy, d: nat, x: Visit, c: nat)
    requires Valid(sch, db) && x.t < |sch| && x.v.Object? && c < |sch[x.t].props| && x.v.Field(c).Some?
    ensures ColumnReach(sch, db, policy, d, x, c) ==
            ValueReach(sch, db, policy, d, sch[x.t].props[c].kind, x.v.Field(c).value,
                OldCell(Bare(sch, db, policy), x, c))
  {
  }

  lemma {:induction false} DefaultExpanded(sch: Schema, db: Db, policy: Policy, d: nat, x: Visit, c: nat)
    requires Valid(sch, db) && DefaultsHoldNoObjects(sch) && d > 0 && x.t < |sch| && x.v.Object? && c < |sch[x.t].props|
    requires x.v.Field(c).None?
    ensures ColumnReach(sch, db, policy, d, x, c).closed
  {
    hide Valid, OldCell;
    var kind, was := sch[x.t].props[c].kind, OldCell(Bare(sch, db, policy), x, c);
    if Supplied(sch[x.t], x, c).Some? {
      var z := sch[x.t].props[c].dflt.value;
      assert !z.Object?;
      if kind.LinkListKind? && kind.target < |sch| && z.Many? {
        NoElements(sch, db, policy, d - 1, kind.target, z, was, |z.elems|);
      }
      assert ValueReach(sch, db, policy, d - 1, kind, z, was) == NOWHERE;
    }
  }

  lemma {:induction false} ValueExpanded(sch: Schema, db: Db, policy: Policy, d: nat, kind: Kind, z: Value, was: Cell)
    requires Valid(sch, db) && DefaultsHoldNoObjects(sch) && d > 0
    ensures ValueReach(sch, db, policy, d, kind, z, was).closed
    decreases z, 3, 0
  {
    hide Valid, OldCell, Landing, DefaultsHoldNoObjects;
    if kind.LinkKind? && kind.target < |sch| && z.Object? {
      AlwaysExpanded(sch, db, policy, d, VisitOf(sch, db, policy, kind.target, z, OldLink(was)));
    } else if kind.LinkListKind? && kind.target < |sch| && z.Many? {
      ElemsExpanded(sch, db, policy, d, kind.target, z, was, |z.elems|);
    }
  }

  lemma {:induction false} ElemsExpanded(sch: Schema, db: Db, policy: Policy, d: nat, u: nat, z: Value, was: Cell,
                                         n: nat)
    requires Valid(sch, db) && DefaultsHoldNoObjects(sch) && d > 0 && u < |sch| && z.Many? && n <= |z.elems|
    ensures ElemsReach(sch, db, policy, d, u, z, was, n).closed
    decreases z, 2, n
  {
    hide Valid, OldCell, Landing, DefaultsHoldNoObjects;
    if n > 0 {
      ElemsExpanded(sch, db, policy, d, u, z, was, n - 1);
      if z.elems[n - 1].Object? {
        AlwaysExpanded(sch, db, policy, d, VisitOf(sch, db, policy, u, z.elems[n - 1], OldItem(was, n - 1)));
      }
    }
  }

  lemma {:induction false} NoElements(sch: Schema, db: Db, policy: Policy, d: nat, u: nat, z: Value, was: Cell, n: nat)
    requires Valid(sch, db) && u < |sch| && z.Many? && n <= |z.elems| && forall i | 0 <= i < |z.elems| ::
             !z.elems[i].Object?
    ensures ElemsReach(sch, db, policy, d, u, z, was, n) == NOWHERE
    decreases n
  {
    if n > 0 {
      NoElements(sch, db, policy, d, u, z, was, n - 1);
    }
  }
}
