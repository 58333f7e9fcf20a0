// A value that gives one key two contents: upserting it a second time takes a
// link away that the value asks for.
module RepeatedUpserts {
  import opened Wrappers
  import opened Store
  import opened Upsert
  import opened Refinement
  import I = Idempotence
  import C = Clashes
  import O = Occurrences
  import P = Plans

  const NOBODY: Db := Db([0], map[])

  // 1 is linked to 2, which is linked to 1, which is said to be linked to nobody.
  function Circle(): Value {
    Person(1, Some(Back()))
  }

  function Back(): Value {
    Person(2, Some(Alone()))
  }

  function Alone(): Value {
    Person(1, Some(Null))
  }

  lemma {:induction false} NobodyValid()
    ensures Valid(PERSON, NOBODY)
  {
    hide ValidSchema;
    PersonSchema();
  }

  // ----- The steps of one person -----

  lemma {:induction false} NullLoop(st: State, r: nat, key: int)
    requires Valid(PERSON, st.db) && HasRow(st.db, 0, r)
    ensures Here(PERSON, st.db, 0, r, 1)
    ensures Populate(PERSON, 0, st, 0, r, Person(key, Some(Null)), false, UpdateModified, 0) ==
            Res(Nullify(PERSON, st, 0, r, 1, UpdateModified, false), Done(r))
  {
    hide Store.Valid, Store.Evolves, Nullify;
    var v := Person(key, Some(Null));
    assert PopulateOne(PERSON, 0, st, 0, r, v, false, UpdateModified, 0) == Res(st, Done(r));
    var step := PopulateOne(PERSON, 0, st, 0, r, v, false, UpdateModified, 1);
    assert v.Field(1) == Some(Null);
    assert step == SetProperty(PERSON, 0, st, 0, r, 1, Null, UpdateModified, false);
    assert step == Res(Nullify(PERSON, st, 0, r, 1, UpdateModified, false), Done(r));
    assert Populate(PERSON, 0, step.st, 0, r, v, false, UpdateModified, 2) == Res(step.st, Done(r));
    assert Populate(PERSON, 0, st, 0, r, v, false, UpdateModified, 1) == step;
  }

  // A known person who is to be linked to nobody.
  lemma {:induction false} NullFound(st: State, r: nat, key: int, current: Option<nat>)
    requires Valid(PERSON, st.db) && |st.db.rows| == 1 && (current.Some? ==> HasRow(st.db, 0, current.value))
    requires FindFirst(PERSON, st.db, 0, Some(IntValue(key))) == Some(r)
    ensures Here(PERSON, st.db, 0, r, 1)
    ensures Create(PERSON, 0, st, 0, Person(key, Some(Null)), UpdateModified, current) ==
            Res(Nullify(PERSON, st, 0, r, 1, UpdateModified, false), Done(r))
  {
    hide Store.Valid, Nullify, Populate;
    NullLoop(st, r, key);
  }

  // A new person with a link.
  lemma {:induction false} LinkedNew(st: State, key: int, link: Value, current: Option<nat>)
    requires Valid(PERSON, st.db) && |st.db.rows| == 1 && (current.Some? ==> HasRow(st.db, 0, current.value))
             && link.Object?
    requires FindFirst(PERSON, st.db, 0, Some(IntValue(key))) == None
    ensures var st' := AddRow(PERSON, st, 0, Some(IntValue(key)));
            && Here(PERSON, st'.db, 0, st.db.rows[0], 1)
            && Create(PERSON, 0, st, 0, Person(key, Some(link)), UpdateModified, current) ==
               UpdateLink(PERSON, 0, st', 0, st.db.rows[0], 1, link, UpdateModified)
  {
    hide Store.Valid, UpdateLink, Populate;
    var st' := AddRow(PERSON, st, 0, Some(IntValue(key)));
    AddRowKey(PERSON, st, 0, Some(IntValue(key)));
    PersonLoop(st', st.db.rows[0], key, Some(link), true, UpdateModified);
  }

  // Setting a link once the nested create is known.
  lemma {:induction false} LinkStep(st: State, r: nat, link: Value, made: Res<nat>)
    requires Here(PERSON, st.db, 0, r, 1) && link.Object? && Slot(0, r, 1) in st.db.cells
             && st.db.cells[Slot(0, r, 1)].Link?
    requires var current := st.db.cells[Slot(0, r, 1)].to;
             && (current.Some? ==> HasRow(st.db, 0, current.value))
             && made == Create(PERSON, 0, st, 0, link, UpdateModified, current) && made.out.Done?
    ensures Slot(0, r, 1) in made.st.db.cells
    ensures var s := Slot(0, r, 1);
            UpdateLink(PERSON, 0, st, 0, r, 1, link, UpdateModified) ==
            Res(if st.db.cells[s].to == Some(made.out.value) then made.st
                else AfterPut(made.st, s, Link(Some(made.out.value))), Done(r))
  {
    hide Store.KeysDistinct, Create;
    CellOk(PERSON, made.st.db, Slot(0, r, 1));
  }

  // ----- Two persons -----

  // Row 0 has key 1 and row 1 key 2, with the given links.
  ghost predicate Two(db: Db, a: Option<nat>, b: Option<nat>) {
    && Valid(PERSON, db) && db.rows == [2]
    && Slot(0, 0, 0) in db.cells && db.cells[Slot(0, 0, 0)] == One(Some(IntValue(1)))
    && Slot(0, 1, 0) in db.cells && db.cells[Slot(0, 1, 0)] == One(Some(IntValue(2)))
    && Slot(0, 0, 1) in db.cells && db.cells[Slot(0, 0, 1)] == Link(a)
    && Slot(0, 1, 1) in db.cells && db.cells[Slot(0, 1, 1)] == Link(b)
  }

  lemma {:induction false} TwoFind(db: Db, a: Option<nat>, b: Option<nat>)
    requires Two(db, a, b)
    ensures FindFirst(PERSON, db, 0, Some(IntValue(1))) == Some(0)
    ensures FindFirst(PERSON, db, 0, Some(IntValue(2))) == Some(1)
  {
    hide Store.Valid;
    assert KeyAt(PERSON, db, 0, 0) == Some(IntValue(1)) && KeyAt(PERSON, db, 0, 1) == Some(IntValue(2));
  }

  // 1 is said to be linked to nobody: the link goes, and is written only if there.
  lemma {:induction false} AloneStep(st: State, a: Option<nat>, b: Option<nat>, current: Option<nat>)
    requires Two(st.db, a, b) && (current.Some? ==> HasRow(st.db, 0, current.value))
    ensures var made := Create(PERSON, 0, st, 0, Alone(), UpdateModified, current);
            made.out == Done(0) && Two(made.st.db, None, b) && (a == None ==> made.st == st)
  {
    hide Store.Valid, Create, FindFirst;
    TwoFind(st.db, a, b);
    NullFound(st, 0, 1, current);
    NullifyTwo(st, a, b);
  }

  lemma {:induction false} NullifyTwo(st: State, a: Option<nat>, b: Option<nat>)
    requires Two(st.db, a, b) && Here(PERSON, st.db, 0, 0, 1)
    ensures var st' := Nullify(PERSON, st, 0, 0, 1, UpdateModified, false);
            Two(st'.db, None, b) && (a == None ==> st' == st)
  {
    hide Store.Valid, KeysDistinct;
  }

  // The first run on the empty table ends with 1 -> 2 -> 1.
  lemma {:induction false} FirstRun()
    ensures Valid(PERSON, NOBODY)
    ensures var first := Create(PERSON, 0, State(NOBODY, []), 0, Circle(), UpdateModified, None);
            first.out == Done(0) && Two(first.st.db, Some(1), Some(0))
  {
    hide Store.Valid, Create, FindFirst, AddRow, UpdateLink, Two;
    NobodyValid();
    var st0 := State(NOBODY, []);
    NobodyFind(st0);
    LinkedNew(st0, 1, Back(), None);
    var st1 := AddRow(PERSON, st0, 0, Some(IntValue(1)));
    OnePerson(st0, st1);
    LinkedNew(st1, 2, Alone(), None);
    var st2 := AddRow(PERSON, st1, 0, Some(IntValue(2)));
    TwoPersons(st1, st2);
    AloneStep(st2, None, None, None);
    TwoFacts(st2.db, None, None);
    LinkStep(st2, 1, Alone(), Create(PERSON, 0, st2, 0, Alone(), UpdateModified, None));
    var st3 := AfterPut(st2, Slot(0, 1, 1), Link(Some(0)));
    LinkTwo(st2, 1, Some(0), None, None);
    TwoFacts(st3.db, None, Some(0));
    LinkStep(st1, 0, Back(), Create(PERSON, 0, st1, 0, Back(), UpdateModified, None));
    LinkTwo(st3, 0, Some(1), None, Some(0));
  }

  lemma {:induction false} NobodyFind(st: State)
    requires st.db == NOBODY && Valid(PERSON, st.db)
    ensures FindFirst(PERSON, st.db, 0, Some(IntValue(1))) == None
  {
  }

  lemma {:induction false} OnePerson(st: State, st': State)
    requires st.db == NOBODY && Valid(PERSON, st.db) && st' == AddRow(PERSON, st, 0, Some(IntValue(1)))
    ensures st'.db.rows == [1] && Slot(0, 0, 0) in st'.db.cells && st'.db.cells[Slot(0, 0, 0)] == One(Some(IntValue(1)))
    ensures Slot(0, 0, 1) in st'.db.cells && st'.db.cells[Slot(0, 0, 1)] == Link(None)
    ensures Here(PERSON, st'.db, 0, 0, 1) && FindFirst(PERSON, st'.db, 0, Some(IntValue(2))) == None
  {
    hide Store.Valid, Store.KeysDistinct, NewCells, FindFirst;
    AddRowAt(PERSON, st, 0, Some(IntValue(1)), Slot(0, 0, 0));
    AddRowAt(PERSON, st, 0, Some(IntValue(1)), Slot(0, 0, 1));
    assert KeyAt(PERSON, st'.db, 0, 0) == Some(IntValue(1));
  }

  lemma {:induction false} TwoPersons(st: State, st': State)
    requires Valid(PERSON, st.db) && st.db.rows == [1] && FindFirst(PERSON, st.db, 0, Some(IntValue(2))) == None
    requires Slot(0, 0, 0) in st.db.cells && st.db.cells[Slot(0, 0, 0)] == One(Some(IntValue(1)))
    requires Slot(0, 0, 1) in st.db.cells && st.db.cells[Slot(0, 0, 1)] == Link(None)
    requires st' == AddRow(PERSON, st, 0, Some(IntValue(2)))
    ensures Two(st'.db, None, None)
  {
    hide Store.Valid, Store.KeysDistinct, NewCells, FindFirst;
    forall s | s in {Slot(0, 0, 0), Slot(0, 0, 1), Slot(0, 1, 0), Slot(0, 1, 1)}
      ensures s in st'.db.cells
      ensures s.r == 0 ==> st'.db.cells[s] == st.db.cells[s]
      ensures s.r == 1 ==> st'.db.cells[s] == NewCell(PERSON[0], s.c, Some(IntValue(2)))
    {
      AddRowAt(PERSON, st, 0, Some(IntValue(2)), s);
    }
  }

  lemma {:induction false} TwoFacts(db: Db, a: Option<nat>, b: Option<nat>)
    requires Two(db, a, b)
    ensures Valid(PERSON, db) && Here(PERSON, db, 0, 0, 1) && Here(PERSON, db, 0, 1, 1)
    ensures Slot(0, 0, 1) in db.cells && db.cells[Slot(0, 0, 1)] == Link(a)
    ensures Slot(0, 1, 1) in db.cells && db.cells[Slot(0, 1, 1)] == Link(b)
    ensures (a.Some? ==> HasRow(db, 0, a.value)) && (b.Some? ==> HasRow(db, 0, b.value))
  {
    CellOk(PERSON, db, Slot(0, 0, 1));
    CellOk(PERSON, db, Slot(0, 1, 1));
  }

  lemma {:induction false} LinkTwo(st: State, r: nat, to: Option<nat>, a: Option<nat>, b: Option<nat>)
    requires Two(st.db, a, b) && r < 2 && (to.Some? ==> to.value < 2)
    ensures Slot(0, r, 1) in st.db.cells
    ensures Two(AfterPut(st, Slot(0, r, 1), Link(to)).db, if r == 0 then to else a, if r == 1 then to else b)
  {
    hide Store.Valid, KeysDistinct;
    var s := Slot(0, r, 1);
    assert CellFits(PERSON[0].props[1], st.db.rows, Link(to));
    assert AfterPut(st, s, Link(to)) == Put(PERSON, st, s, Link(to));
  }

  // The second run reads the link 1 -> 2, has it taken away below, finds 2
  // again, and so leaves it away.
  lemma {:induction false} SecondRun(st: State)
    requires Two(st.db, Some(1), Some(0))
    ensures Valid(PERSON, st.db)
    ensures var second := Create(PERSON, 0, st, 0, Circle(), UpdateModified, None);
            second.out == Done(0) && Two(second.st.db, None, Some(0))
  {
    hide Store.Valid, Create, FindFirst, UpdateLink, Two;
    TwoFacts(st.db, Some(1), Some(0));
    RowsTwo(st.db, Some(1), Some(0));
    TwoFind(st.db, Some(1), Some(0));
    PersonFound(st, 0, 1, Back(), UpdateModified, None);
    PersonFound(st, 1, 2, Alone(), UpdateModified, Some(1));
    AloneStep(st, Some(1), Some(0), Some(0));
    LinkStep(st, 1, Alone(), Create(PERSON, 0, st, 0, Alone(), UpdateModified, Some(0)));
    LinkStep(st, 0, Back(), Create(PERSON, 0, st, 0, Back(), UpdateModified, Some(1)));
  }

  lemma {:induction false} RowsTwo(db: Db, a: Option<nat>, b: Option<nat>)
    requires Two(db, a, b)
    ensures |db.rows| == 1
  {
  }

  // The repeated upsert destroys a link. The plan of the value is not coherent:
  // it visits key 1 with two contents.
  lemma {:induction false} RepeatDestroysLink()
    ensures Valid(PERSON, NOBODY)
    ensures var first := Create(PERSON, 0, State(NOBODY, []), 0, Circle(), UpdateModified, None);
            var second := Create(PERSON, 0, first.st, 0, Circle(), UpdateModified, None);
            && first.out == second.out == Done(0)
            && Two(first.st.db, Some(1), Some(0)) && Two(second.st.db, None, Some(0))
    ensures var x := P.VisitOf(PERSON, NOBODY, UpdateModified, 0, Circle(), None);
            P.Reached(PERSON, NOBODY, UpdateModified, 0, x).closed
                && !I.Coherent(I.World(PERSON, NOBODY, P.PlanOf(PERSON, NOBODY, UpdateModified, 0, x), UpdateModified))
  {
    hide Store.Valid, Create, Two;
    FirstRun();
    SecondRun(Create(PERSON, 0, State(NOBODY, []), 0, Circle(), UpdateModified, None).st);
    CircleNotCoherent();
  }

  lemma {:induction false} CircleNotCoherent()
    ensures Valid(PERSON, NOBODY)
    ensures var x := P.VisitOf(PERSON, NOBODY, UpdateModified, 0, Circle(), None);
            P.Reached(PERSON, NOBODY, UpdateModified, 0, x).closed
                && !I.Coherent(I.World(PERSON, NOBODY, P.PlanOf(PERSON, NOBODY, UpdateModified, 0, x), UpdateModified))
  {
    hide Store.Valid, FindFirst, P.Reached, I.OldCell;
    NobodyValid();
    var x := P.VisitOf(PERSON, NOBODY, UpdateModified, 0, Circle(), None);
    var w := I.World(PERSON, NOBODY, P.PlanOf(PERSON, NOBODY, UpdateModified, 0, x), UpdateModified);
    var y := P.VisitOf(PERSON, NOBODY, UpdateModified, 0, Back(),
        I.OldLink(I.OldCell(P.Bare(PERSON, NOBODY, UpdateModified), x, 1)));
    var z := P.VisitOf(PERSON, NOBODY, UpdateModified, 0, Alone(),
        I.OldLink(I.OldCell(P.Bare(PERSON, NOBODY, UpdateModified), y, 1)));
    ReachOf(x);
    ReachOf(y);
    ReachOf(z);
    assert x in w.plan && z in w.plan;
    assert x.v.Field(1) == Some(Back()) && z.v.Field(1) == Some(Null);
    assert I.SameRow(PERSON, x, z);
  }

  // A person reaches themselves and what the person they are linked to reaches.
  lemma {:induction false} ReachOf(x: I.Visit)
    requires Valid(PERSON, NOBODY) && x.t == 0 && x.v.Object? && |x.v.fields| == 2 && x.v.fields[0].Some?
             && x.v.fields[1].Some?
    ensures var r := P.Reached(PERSON, NOBODY, UpdateModified, 0, x);
            var link := x.v.fields[1].value;
            var was := I.OldCell(P.Bare(PERSON, NOBODY, UpdateModified), x, 1);
            && x in r.visits
            && if link.Object? then
                 var below := P.Reached(PERSON, NOBODY, UpdateModified, 0, P.VisitOf(PERSON, NOBODY, UpdateModified, 0,
                     link, I.OldLink(was)));
                 below.visits <= r.visits && r.closed == below.closed
               else r.closed
  {
    hide Store.Valid, I.OldCell, I.Landing, P.Reached;
    assert x.v.Field(0).Some? && x.v.Field(1) == x.v.fields[1];
    assert P.ColumnsReach(PERSON, NOBODY, UpdateModified, 0, x, 0) == P.NOWHERE;
    assert P.ColumnReach(PERSON, NOBODY, UpdateModified, 0, x, 0) == P.NOWHERE;
    assert P.ColumnsReach(PERSON, NOBODY, UpdateModified, 0, x, 1) == P.NOWHERE;
    OnlyLink(x);
  }

  lemma {:induction false} OnlyLink(x: I.Visit)
    requires Valid(PERSON, NOBODY) && x.t == 0 && x.v.Object?
    requires P.ColumnsReach(PERSON, NOBODY, UpdateModified, 0, x, 1) == P.NOWHERE
    ensures var below := P.ColumnReach(PERSON, NOBODY, UpdateModified, 0, x, 1);
            P.Reached(PERSON, NOBODY, UpdateModified, 0, x) == P.Reach({x} + below.visits, 1 + below.height,
                below.closed)
  {
    hide Store.Valid, P.ColumnReach;
    assert P.ColumnsReach(PERSON, NOBODY, UpdateModified, 0, x, 2)
        == P.Join(P.NOWHERE, P.ColumnReach(PERSON, NOBODY, UpdateModified, 0, x, 1));
  }

  // The value contradicts itself: a link to 2 and no link cannot both be in the
  // row with key 1. So it is never stored, and no upsert of it is the last.
  lemma {:induction false} CircleNeverSettles(depth: nat, st: State, current: Option<nat>)
    requires Valid(PERSON, st.db) && KeysDistinct(PERSON, st.db) && (current.Some? ==> HasRow(st.db, 0, current.value))
    ensures ValidSchema(PERSON) && C.Contradicts(PERSON, 0, Circle(), 0, Circle(), Alone())
    ensures |st.db.rows| == 1
    ensures var res := Create(PERSON, depth, st, 0, Circle(), UpdateModified, current);
            res.out.Done? ==> |st.log| < |res.st.log|
  {
    hide Store.Valid, KeysDistinct, Create, C.Contradicts;
    PersonSchema();
    RowsOne(st.db);
    CircleContradicts();
    C.UpsertNeverSettles(PERSON, depth, st, 0, Circle(), current, 0, Circle(), Alone());
  }

  lemma {:induction false} RowsOne(db: Db)
    requires Valid(PERSON, db)
    ensures |db.rows| == 1
  {
  }

  // A person occurs in whoever is linked to them, and so in what links there.
  lemma {:induction false} OccursLink(key: int, link: Value, w: Value)
    requires link.Object? && O.Occurs(PERSON, 0, 0, link, 0, w)
    ensures O.Occurs(PERSON, 0, 0, Person(key, Some(link)), 0, w)
  {
    assert Person(key, Some(link)).Field(1) == Some(link);
    assert O.OccursAt(PERSON, 0, 0, Person(key, Some(link)), 1, 0, w);
  }

  lemma {:induction false} AloneOccurs()
    ensures O.Occurs(PERSON, 0, 0, Circle(), 0, Alone())
  {
    hide O.Occurs;
    OccursSelf(Alone());
    OccursLink(2, Alone(), Alone());
    OccursLink(1, Back(), Alone());
  }

  lemma {:induction false} OccursSelf(w: Value)
    ensures O.Occurs(PERSON, 0, 0, w, 0, w)
  {
  }

  lemma {:induction false} CircleClash()
    ensures ValidSchema(PERSON) && C.RowClash(PERSON, 0, Circle(), Alone())
  {
    PersonSchema();
    assert Circle().Field(1) == Some(Back()) && Alone().Field(1) == Some(Null);
    assert C.CellClash(PERSON, LinkKind(0), Back(), Null);
    assert C.ColumnClash(PERSON, 0, Circle(), Alone(), 1);
  }

  lemma {:induction false} CircleContradicts()
    ensures ValidSchema(PERSON) && C.Contradicts(PERSON, 0, Circle(), 0, Circle(), Alone())
  {
    hide O.Occurs, C.RowClash;
    AloneOccurs();
    OccursSelf(Circle());
    CircleClash();
  }
}
