// List::assign of objects without primary keys. Under UpdateModified element k is
// written over the row that slot k already refers to, and only the elements beyond
// the old length get rows of their own; under the other policies all of them do.
module RowReuse {
  import opened Wrappers
  import opened Store
  import opened Upsert
  import opened FlatCreate

  // The row of element k, when the table had base rows before.
  function RowFor(was: seq<Item>, base: nat, k: nat): nat {
    if k < |was| && was[k].Row? then was[k].r else base + (k - if k < |was| then k else |was|)
  }

  // The list after the first i elements.
  function ListAfter(was: seq<Item>, base: nat, i: nat): seq<Item> {
    seq(if i < |was| then |was| else i, k requires k >= 0 => Row(RowFor(was, base, k)))
  }

  function Added(was: seq<Item>, i: nat): nat {
    if i <= |was| then 0 else i - |was|
  }

  ghost predicate DistinctRows(was: seq<Item>, base: nat) {
    && (forall k | 0 <= k < |was| :: was[k].Row? && was[k].r < base)
    && (forall j, k | 0 <= j < k < |was| :: was[j] != was[k])
  }

  lemma {:induction false} RowForInjective(was: seq<Item>, base: nat, j: nat, k: nat)
    requires DistinctRows(was, base) && j != k
    ensures RowFor(was, base, j) != RowFor(was, base, k)
  {
  }

  ghost predicate ObjectList(sch: Schema, s: Slot, u: nat) {
    && s.t < |sch| && s.c < |sch[s.t].props| && sch[s.t].props[s.c].kind == LinkListKind(u)
    && u < |sch| && FlatType(sch[u]) && !Keyed(sch, u)
  }

  // The cells element k leaves in its row.
  ghost predicate ElementWritten(sch: Schema, a: Db, b: Db, u: nat, was: seq<Item>, base: nat, k: nat, e: Value)
    requires u < |sch| && e.Object?
  {
    forall c | 0 <= c < |sch[u].props| ::
      var q := Slot(u, RowFor(was, base, k), c);
      && q in b.cells
      && b.cells[q] == FinalCell(sch[u].props[c], e, c, k >= |was|,
                                 if k < |was| && q in a.cells then a.cells[q] else EmptyCell(sch[u].props[c]))
  }

  // Nothing but the list and the rows of elements i to n has changed.
  ghost predicate OthersKept(a: Db, b: Db, s: Slot, u: nat, was: seq<Item>, base: nat, i: nat, n: nat) {
    forall q | q in a.cells && q != s && !(q.t == u && exists k :: i <= k < n && q.r == RowFor(was, base, k)) ::
      q in b.cells && b.cells[q] == a.cells[q]
  }

  ghost predicate InProgress(sch: Schema, st: State, s: Slot, u: nat, z: Value, was: seq<Item>, base: nat, i: nat) {
    && ObjectList(sch, s, u) && ListHere(sch, st.db, s) && DistinctRows(was, base)
    && z.Many? && i <= |z.elems| && (forall k | 0 <= k < |z.elems| :: z.elems[k].Object?)
    && s in st.db.cells && st.db.cells[s] == List(ListAfter(was, base, i))
    && u < |st.db.rows| && st.db.rows[u] == base + Added(was, i)
  }

  ghost function ElementStep(sch: Schema, depth: nat, st: State, s: Slot, z: Value, was: seq<Item>, i: nat): Res<nat>
    requires ListHere(sch, st.db, s) && z.Many? && i < |z.elems|
  {
    if i < |was| then SetIfDifferent(sch, depth, st, s, z.elems[i], i)
    else Append(sch, depth, st, s, z.elems[i], UpdateModified)
  }

  // A nested create over an existing row.
  lemma {:induction false} CreateOver(sch: Schema, depth: nat, st: State, s: Slot, u: nat, e: Value, r: nat)
    requires ObjectList(sch, s, u) && Valid(sch, st.db) && s in st.db.cells && HasRow(st.db, u, r)
    requires Create(sch, depth, st, u, e, UpdateModified, Some(r)).out.Done?
    ensures var res := Create(sch, depth, st, u, e, UpdateModified, Some(r));
            && e.Object? && res.out.value == r && res.st.db.rows == st.db.rows
            && (forall q | q in st.db.cells && !(q.t == u && q.r == r) ::
               q in res.st.db.cells && res.st.db.cells[q] == st.db.cells[q])
            && s in res.st.db.cells && res.st.db.cells[s] == st.db.cells[s]
            && (forall c | 0 <= c < |sch[u].props| ::
                  && Slot(u, r, c) in st.db.cells && Slot(u, r, c) in res.st.db.cells
                  && res.st.db.cells[Slot(u, r, c)] == FinalCell(sch[u].props[c], e, c, false,
                     st.db.cells[Slot(u, r, c)]))
  {
    hide Valid, KeysDistinct, FinalCell, Create;
    CreateFlat(sch, depth, st, u, e, UpdateModified, Some(r));
    forall c | 0 <= c < |sch[u].props|
      ensures Slot(u, r, c) in st.db.cells
    {
      CellOk(sch, st.db, Slot(u, r, c));
    }
  }

  // A nested create without a row to reuse.
  lemma {:induction false} CreateFresh(sch: Schema, depth: nat, st: State, s: Slot, u: nat, e: Value, policy: Policy)
    requires ObjectList(sch, s, u) && Valid(sch, st.db) && s in st.db.cells && u < |st.db.rows|
    requires Create(sch, depth, st, u, e, policy, None).out.Done?
    ensures var res, r := Create(sch, depth, st, u, e, policy, None), st.db.rows[u];
            && e.Object? && res.out.value == r && res.st.db.rows == st.db.rows[u := r + 1]
            && (forall q | q in st.db.cells && !(q.t == u && q.r == r) ::
               q in res.st.db.cells && res.st.db.cells[q] == st.db.cells[q])
            && s in res.st.db.cells && res.st.db.cells[s] == st.db.cells[s]
            && (forall c | 0 <= c < |sch[u].props| ::
                  && Slot(u, r, c) in res.st.db.cells
                  && res.st.db.cells[Slot(u, r, c)] == FinalCell(sch[u].props[c], e, c, true,
                     EmptyCell(sch[u].props[c])))
  {
    hide Valid, KeysDistinct, FinalCell, Create, EmptyCell, NewCells;
    var r := st.db.rows[u];
    SchemaValid(sch, st.db);
    CreateFlat(sch, depth, st, u, e, policy, None);
    forall q | q in st.db.cells
      ensures q in WithRow(sch, st.db, u, None).cells && WithRow(sch, st.db, u, None).cells[q] == st.db.cells[q]
    {
      WithRowSlot(sch, st.db, u, None, q);
    }
    forall c | 0 <= c < |sch[u].props|
      ensures Slot(u, r, c) in WithRow(sch, st.db, u, None).cells
      ensures WithRow(sch, st.db, u, None).cells[Slot(u, r, c)] == EmptyCell(sch[u].props[c])
    {
      NewCellsAt(sch[u], u, r, None, Slot(u, r, c));
    }
  }

  lemma {:induction false} ReuseOne(sch: Schema, depth: nat, st: State, s: Slot, u: nat, z: Value, was: seq<Item>,
                                    base: nat, i: nat)
    requires InProgress(sch, st, s, u, z, was, base, i) && i < |z.elems|
    requires ElementStep(sch, depth, st, s, z, was, i).out.Done?
    ensures var step := ElementStep(sch, depth, st, s, z, was, i);
            && InProgress(sch, step.st, s, u, z, was, base, i + 1)
            && ElementWritten(sch, st.db, step.st.db, u, was, base, i, z.elems[i])
            && OthersKept(st.db, step.st.db, s, u, was, base, i, i + 1)
  {
    hide Valid, KeysDistinct, FinalCell, EmptyCell, Create, SetIfDifferent, Append;
    SchemaValid(sch, st.db);
    CellOk(sch, st.db, s);
    var e, items := z.elems[i], Items(st, s);
    var r := RowFor(was, base, i);
    if i < |was| {
      assert items[i] == was[i];
      assert ItemFits(LinkListKind(u), st.db.rows, items[i]);
      SetExact(sch, depth, st, s, e, i);
      CreateOver(sch, depth, st, s, u, e, r);
      assert ListAfter(was, base, i + 1) == ListAfter(was, base, i);
    } else {
      AppendExact(sch, depth, st, s, e, UpdateModified);
      CreateFresh(sch, depth, st, s, u, e, UpdateModified);
      assert ListAfter(was, base, i + 1) == ListAfter(was, base, i) + [Row(r)];
    }
    assert Evolves(sch, st.db, ElementStep(sch, depth, st, s, z, was, i).st.db);
  }

  ghost predicate AllWritten(sch: Schema, a: Db, b: Db, u: nat, z: Value, was: seq<Item>, base: nat, i: nat)
    requires u < |sch| && z.Many? && forall k | 0 <= k < |z.elems| :: z.elems[k].Object?
  {
    forall k | i <= k < |z.elems| :: ElementWritten(sch, a, b, u, was, base, k, z.elems[k])
  }

  lemma {:induction false} ReuseFrom(sch: Schema, depth: nat, st: State, s: Slot, u: nat, z: Value, was: seq<Item>,
                                     base: nat, i: nat)
    requires InProgress(sch, st, s, u, z, was, base, i)
    requires AssignInPlace(sch, depth, st, s, z, |was|, i).out.Done?
    ensures var res := AssignInPlace(sch, depth, st, s, z, |was|, i);
            && s in res.st.db.cells && res.st.db.cells[s] == List(ListAfter(was, base, |z.elems|)[..|z.elems|])
            && u < |res.st.db.rows| && res.st.db.rows[u] == base + Added(was, |z.elems|)
            && AllWritten(sch, st.db, res.st.db, u, z, was, base, i)
            && OthersKept(st.db, res.st.db, s, u, was, base, i, |z.elems|)
    decreases |z.elems| - i
  {
    hide Valid, KeysDistinct, Evolves, ElementWritten, SetIfDifferent, Append, Trim;
    if i == |z.elems| {
      TrimExact(sch, st, s, i, |was|);
    } else {
      ReuseOne(sch, depth, st, s, u, z, was, base, i);
      var step := ElementStep(sch, depth, st, s, z, was, i);
      ReuseFrom(sch, depth, step.st, s, u, z, was, base, i + 1);
      var b := AssignInPlace(sch, depth, step.st, s, z, |was|, i + 1).st.db;
      WrittenStays(sch, st.db, step.st.db, b, s, u, z, was, base, i);
      LaterWritten(sch, st, step.st.db, b, s, u, z, was, base, i);
    }
  }

  lemma {:induction false} OldSlots(sch: Schema, db: Db, u: nat, r: nat)
    requires Valid(sch, db) && u < |sch| && HasRow(db, u, r)
    ensures forall c | 0 <= c < |sch[u].props| :: Slot(u, r, c) in db.cells
  {
  }

  // Element i is not touched by the elements after it.
  lemma {:induction false} WrittenStays(sch: Schema, a: Db, b: Db, d: Db, s: Slot, u: nat, z: Value, was: seq<Item>,
                                        base: nat, i: nat)
    requires u < |sch| && z.Many? && i < |z.elems| && z.elems[i].Object? && DistinctRows(was, base)
             && ObjectList(sch, s, u)
    requires ElementWritten(sch, a, b, u, was, base, i, z.elems[i])
    requires OthersKept(b, d, s, u, was, base, i + 1, |z.elems|)
    ensures ElementWritten(sch, a, d, u, was, base, i, z.elems[i])
  {
    hide FinalCell, EmptyCell;
    forall c | 0 <= c < |sch[u].props|
      ensures Slot(u, RowFor(was, base, i), c) in d.cells
      ensures d.cells[Slot(u, RowFor(was, base, i), c)] == b.cells[Slot(u, RowFor(was, base, i), c)]
    {
      assert Slot(u, RowFor(was, base, i), c) in b.cells;
    }
  }

  // Element k found its row as it was at the start.
  lemma {:induction false} WrittenFrom(sch: Schema, a: Db, b: Db, d: Db, s: Slot, u: nat, z: Value, was: seq<Item>,
                                       base: nat, i: nat, k: nat)
    requires u < |sch| && z.Many? && i < k < |z.elems| && z.elems[k].Object? && DistinctRows(was, base)
             && ObjectList(sch, s, u)
    requires OthersKept(a, b, s, u, was, base, i, i + 1)
    requires ElementWritten(sch, b, d, u, was, base, k, z.elems[k])
    requires k < |was| ==> forall c | 0 <= c < |sch[u].props| :: Slot(u, RowFor(was, base, k), c) in a.cells
    ensures ElementWritten(sch, a, d, u, was, base, k, z.elems[k])
  {
    hide FinalCell, EmptyCell;
    RowForInjective(was, base, i, k);
  }

  // What the elements after i wrote counts from before element i on.
  lemma {:induction false} LaterWritten(sch: Schema, st: State, b: Db, d: Db, s: Slot, u: nat, z: Value, was: seq<Item>,
                                        base: nat, i: nat)
    requires InProgress(sch, st, s, u, z, was, base, i) && i < |z.elems|
    requires OthersKept(st.db, b, s, u, was, base, i, i + 1) && AllWritten(sch, b, d, u, z, was, base, i + 1)
    ensures forall k | i < k < |z.elems| :: ElementWritten(sch, st.db, d, u, was, base, k, z.elems[k])
  {
    hide KeysDistinct, ElementWritten, OthersKept;
    forall k | i < k < |z.elems|
      ensures ElementWritten(sch, st.db, d, u, was, base, k, z.elems[k])
    {
      if k < |was| {
        OldSlots(sch, st.db, u, RowFor(was, base, k));
      }
      WrittenFrom(sch, st.db, b, d, s, u, z, was, base, i, k);
    }
  }

  // The whole assignment: max(0, n - sz) rows are added, slot k keeps its row
  // if it had one, every row ends with its own element, and nothing else moves.
  lemma {:induction false} AssignReusesRows(sch: Schema, depth: nat, st: State, s: Slot, u: nat, z: Value)
    requires ObjectList(sch, s, u) && ListHere(sch, st.db, s) && s in st.db.cells && st.db.cells[s].List?
    requires z.Many? && forall k | 0 <= k < |z.elems| :: z.elems[k].Object?
    requires forall j, k | 0 <= j < k < |Items(st, s)| :: Items(st, s)[j] != Items(st, s)[k]
    requires Assign(sch, depth, st, s.t, s.r, s.c, z, UpdateModified).out.Done?
    ensures u < |st.db.rows|
    ensures var was, base, n := Items(st, s), st.db.rows[u], |z.elems|;
            var res := Assign(sch, depth, st, s.t, s.r, s.c, z, UpdateModified);
            && u < |res.st.db.rows| && res.st.db.rows[u] == base + (if n <= |was| then 0 else n - |was|)
            && s in res.st.db.cells && res.st.db.cells[s].List? && |res.st.db.cells[s].items| == n
            && (forall k | 0 <= k < n ::
                  && res.st.db.cells[s].items[k] == Row(RowFor(was, base, k))
                  && ElementWritten(sch, st.db, res.st.db, u, was, base, k, z.elems[k]))
            && OthersKept(st.db, res.st.db, s, u, was, base, 0, n)
  {
    hide KeysDistinct, Evolves, ElementWritten, AssignInPlace;
    CellOk(sch, st.db, s);
    SchemaValid(sch, st.db);
    var was, base := Items(st, s), st.db.rows[u];
    forall k | 0 <= k < |was|
      ensures was[k].Row? && was[k].r < base
    {
      assert ItemFits(LinkListKind(u), st.db.rows, was[k]);
    }
    assert ListAfter(was, base, 0) == was;
    ReuseFrom(sch, depth, st, s, u, z, was, base, 0);
  }

  // ----- The other policies -----

  lemma {:induction false} AppendFresh(sch: Schema, depth: nat, st: State, s: Slot, u: nat, z: Value, policy: Policy,
                                       base: nat, i: nat)
    requires InProgress(sch, st, s, u, z, [], base, i) && i < |z.elems|
    requires Append(sch, depth, st, s, z.elems[i], policy).out.Done?
    ensures var step := Append(sch, depth, st, s, z.elems[i], policy);
            && InProgress(sch, step.st, s, u, z, [], base, i + 1)
            && ElementWritten(sch, st.db, step.st.db, u, [], base, i, z.elems[i])
            && OthersKept(st.db, step.st.db, s, u, [], base, i, i + 1)
  {
    hide Valid, KeysDistinct, FinalCell, EmptyCell, Create, Append;
    SchemaValid(sch, st.db);
    CellOk(sch, st.db, s);
    var e := z.elems[i];
    AppendExact(sch, depth, st, s, e, policy);
    CreateFresh(sch, depth, st, s, u, e, policy);
    assert ListAfter([], base, i + 1) == ListAfter([], base, i) + [Row(RowFor([], base, i))];
    assert Evolves(sch, st.db, Append(sch, depth, st, s, e, policy).st.db);
  }

  lemma {:induction false} FreshFrom(sch: Schema, depth: nat, st: State, s: Slot, u: nat, z: Value, policy: Policy,
                                     base: nat, i: nat)
    requires InProgress(sch, st, s, u, z, [], base, i)
    requires AppendFrom(sch, depth, st, s, z, policy, i).out.Done?
    ensures var res := AppendFrom(sch, depth, st, s, z, policy, i);
            && InProgress(sch, res.st, s, u, z, [], base, |z.elems|)
            && AllWritten(sch, st.db, res.st.db, u, z, [], base, i)
            && OthersKept(st.db, res.st.db, s, u, [], base, i, |z.elems|)
    decreases |z.elems| - i
  {
    hide Valid, KeysDistinct, Evolves, ElementWritten, Append;
    if i < |z.elems| {
      AppendFresh(sch, depth, st, s, u, z, policy, base, i);
      var step := Append(sch, depth, st, s, z.elems[i], policy);
      FreshFrom(sch, depth, step.st, s, u, z, policy, base, i + 1);
      var b := AppendFrom(sch, depth, step.st, s, z, policy, i + 1).st.db;
      WrittenStays(sch, st.db, step.st.db, b, s, u, z, [], base, i);
      LaterWritten(sch, st, step.st.db, b, s, u, z, [], base, i);
    }
  }

  // Under UpdateAll and ForceCreate nothing is reused: n elements take n new rows, in
  // order, each row ends with its own element, and every old cell but the list stays.
  lemma {:induction false} AssignAddsRows(sch: Schema, depth: nat, st: State, s: Slot, u: nat, z: Value, policy: Policy)
    requires ObjectList(sch, s, u) && ListHere(sch, st.db, s) && policy != UpdateModified
    requires z.Many? && forall k | 0 <= k < |z.elems| :: z.elems[k].Object?
    requires Assign(sch, depth, st, s.t, s.r, s.c, z, policy).out.Done?
    ensures u < |st.db.rows|
    ensures var base, n, res := st.db.rows[u], |z.elems|, Assign(sch, depth, st, s.t, s.r, s.c, z, policy);
            && u < |res.st.db.rows| && res.st.db.rows[u] == base + n
            && s in res.st.db.cells && res.st.db.cells[s].List? && |res.st.db.cells[s].items| == n
            && (forall k | 0 <= k < n ::
                  && res.st.db.cells[s].items[k] == Row(base + k)
                  && NewElement(sch, res.st.db, u, base + k, z.elems[k]))
            && (forall q | q in st.db.cells && q != s :: q in res.st.db.cells && res.st.db.cells[q] == st.db.cells[q])
  {
    hide Valid, KeysDistinct, Evolves, ElementWritten, NewElement, AppendFrom, OthersKept, RemoveAll, InProgress;
    SchemaValid(sch, st.db);
    ClearedFirst(sch, st, s, u, z);
    var st', base := RemoveAll(sch, st, s), st.db.rows[u];
    FreshFrom(sch, depth, st', s, u, z, policy, base, 0);
    var db := Assign(sch, depth, st, s.t, s.r, s.c, z, policy).st.db;
    forall k | 0 <= k < |z.elems|
      ensures NewElement(sch, db, u, base + k, z.elems[k])
    {
      assert ElementWritten(sch, st'.db, db, u, [], base, k, z.elems[k]);
      WrittenNew(sch, st'.db, db, u, base, k, z.elems[k]);
    }
    OldKept(sch, st, st'.db, db, s, u, base, |z.elems|);
    ListDone(sch, Assign(sch, depth, st, s.t, s.r, s.c, z, policy).st, s, u, z, base);
  }

  lemma {:induction false} ClearedFirst(sch: Schema, st: State, s: Slot, u: nat, z: Value)
    requires ObjectList(sch, s, u) && ListHere(sch, st.db, s)
    requires z.Many? && forall k | 0 <= k < |z.elems| :: z.elems[k].Object?
    ensures u < |st.db.rows| && InProgress(sch, RemoveAll(sch, st, s), s, u, z, [], st.db.rows[u], 0)
    ensures forall q | q in st.db.cells && q != s ::
              q in RemoveAll(sch, st, s).db.cells && RemoveAll(sch, st, s).db.cells[q] == st.db.cells[q]
  {
    hide KeysDistinct;
    SchemaValid(sch, st.db);
    CellOk(sch, st.db, s);
    assert ListAfter([], st.db.rows[u], 0) == [];
  }

  lemma {:induction false} ListDone(sch: Schema, st: State, s: Slot, u: nat, z: Value, base: nat)
    requires z.Many? && InProgress(sch, st, s, u, z, [], base, |z.elems|)
    ensures u < |st.db.rows| && st.db.rows[u] == base + |z.elems| && s in st.db.cells && st.db.cells[s].List?
    ensures |st.db.cells[s].items| == |z.elems|
    ensures forall k | 0 <= k < |z.elems| :: st.db.cells[s].items[k] == Row(base + k)
  {
    hide Valid, KeysDistinct;
  }

  // New rows are no old ones.
  lemma {:induction false} OldKept(sch: Schema, st: State, b: Db, d: Db, s: Slot, u: nat, base: nat, n: nat)
    requires Valid(sch, st.db) && u < |sch| && u < |st.db.rows| && base == st.db.rows[u]
    requires forall q | q in st.db.cells && q != s :: q in b.cells && b.cells[q] == st.db.cells[q]
    requires OthersKept(b, d, s, u, [], base, 0, n)
    ensures forall q | q in st.db.cells && q != s :: q in d.cells && d.cells[q] == st.db.cells[q]
  {
    hide KeysDistinct;
    forall q | q in st.db.cells && q != s
      ensures q in d.cells && d.cells[q] == st.db.cells[q]
    {
      assert q in b.cells && (q.t == u ==> q.r < base);
    }
  }

  // Row r has what e gives, else the defaults, else empty cells.
  ghost predicate NewElement(sch: Schema, db: Db, u: nat, r: nat, e: Value)
    requires u < |sch| && e.Object?
  {
    forall c | 0 <= c < |sch[u].props| ::
      Slot(u, r, c) in db.cells
      && db.cells[Slot(u, r, c)] == FinalCell(sch[u].props[c], e, c, true, EmptyCell(sch[u].props[c]))
  }

  lemma {:induction false} WrittenNew(sch: Schema, a: Db, b: Db, u: nat, base: nat, k: nat, e: Value)
    requires u < |sch| && e.Object? && ElementWritten(sch, a, b, u, [], base, k, e)
    ensures NewElement(sch, b, u, base + k, e)
  {
    hide FinalCell, EmptyCell;
    assert RowFor([], base, k) == base + k;
    forall c | 0 <= c < |sch[u].props|
      ensures Slot(u, base + k, c) in b.cells
      ensures b.cells[Slot(u, base + k, c)] == FinalCell(sch[u].props[c], e, c, true, EmptyCell(sch[u].props[c]))
    {
      var q := Slot(u, RowFor([], base, k), c);
      assert q in b.cells;
    }
  }
}
