// Realm.write: begins a transaction, runs a block, and closes whatever
// transaction is open when the block is done.
module Transactions {
  // What a block can do. A commit can fail for lack of space and the like; its
  // error is either swallowed by the block or thrown on.
  datatype Action = Write(x: nat) | Begin | Commit(fails: bool, caught: bool) | Cancel

  datatype Block = Block(actions: seq<Action>, throws: bool)

  // Threw is an error out of the block, CommitFailed one out of the last commit.
  // Crashed stands for an Objective-C exception, which Swift cannot catch.
  datatype Ending = Returned | Threw | CommitFailed | Crashed

  // The writes of the actions that survive if transactions still open at the
  // end are kept or not: those whose next successful commit or cancel is a commit.
  ghost function Survivors(actions: seq<Action>, keepOpen: bool): seq<nat> {
    if actions == [] then []
    else
      var rest := Survivors(actions[1..], keepOpen);
      if actions[0].Write? && ClosedByCommit(actions[1..], keepOpen) then [actions[0].x] + rest else rest
  }

  ghost predicate ClosedByCommit(actions: seq<Action>, keepOpen: bool) {
    if actions == [] then keepOpen
    else match actions[0]
      case Commit(false, _) => true
      case Cancel => false
      case _ => ClosedByCommit(actions[1..], keepOpen)
  }

  // Whether a transaction is open after the actions, which begin inside one.
  ghost predicate Open(actions: seq<Action>) {
    if actions == [] then true
    else
      var before := Open(actions[..|actions| - 1]);
      match actions[|actions| - 1]
      case Begin => true
      case Commit(fails, _) => before && fails
      case Cancel => false
      case Write(_) => before
  }

  // The next action can be called: begin outside, write and cancel inside.
  predicate Callable(open: bool, a: Action) {
    match a
    case Begin => !open
    case Commit(_, _) => true
    case _ => open
  }

  // The k-th action is a commit that fails, and the block lets its error out.
  ghost predicate Uncaught(actions: seq<Action>, k: nat)
    requires k < |actions|
  {
    var a := actions[k];
    a.Commit? && !a.caught && (a.fails || !Open(actions[..k]))
  }

  // The first n actions could be called, and let no error out.
  ghost predicate Passes(actions: seq<Action>, n: nat)
    requires n <= |actions|
  {
    forall k: nat | k < n :: Callable(Open(actions[..k]), actions[k]) && !Uncaught(actions, k)
  }

  lemma {:induction false} PassesNone(actions: seq<Action>)
    ensures Passes(actions, 0)
  {
  }

  lemma {:induction false} PassesOn(actions: seq<Action>, n: nat)
    requires n < |actions| && Passes(actions, n)
    ensures Callable(Open(actions[..n]), actions[n]) && !Uncaught(actions, n) ==> Passes(actions, n + 1)
  {
    hide Open;
  }

  lemma {:induction false} AppendAction(actions: seq<Action>, a: Action, keepOpen: bool)
    ensures Survivors(actions + [a], keepOpen) ==
            match a
            case Write(x) => Survivors(actions, keepOpen) + (if keepOpen then [x] else [])
            case Commit(false, _) => Survivors(actions, true)
            case Cancel => Survivors(actions, false)
            case _ => Survivors(actions, keepOpen)
    ensures ClosedByCommit(actions + [a], keepOpen) ==
            match a
            case Commit(false, _) => ClosedByCommit(actions, true)
            case Cancel => ClosedByCommit(actions, false)
            case _ => ClosedByCommit(actions, keepOpen)
  {
    if actions != [] {
      assert (actions + [a])[1..] == actions[1..] + [a];
      AppendAction(actions[1..], a, keepOpen);
    } else {
      assert [a][1..] == [];
    }
  }

  lemma {:induction false} SurvivorsNone()
    ensures Survivors([], true) == Survivors([], false) == []
  {
  }

  // Of writes alone all survive or none.
  lemma {:induction false} WritesAlone(xs: seq<nat>, keepOpen: bool)
    ensures var actions := seq(|xs|, i requires 0 <= i < |xs| => Write(xs[i]));
            && Survivors(actions, keepOpen) == (if keepOpen then xs else [])
            && ClosedByCommit(actions, keepOpen) == keepOpen
  {
    var actions := seq(|xs|, i requires 0 <= i < |xs| => Write(xs[i]));
    if xs != [] {
      WritesAlone(xs[1..], keepOpen);
      assert actions[1..] == seq(|xs[1..]|, i requires 0 <= i < |xs[1..]| => Write(xs[1..][i]));
    }
  }

  class Realm {
    var committed: seq<nat>
    var current: seq<nat>
    var inWriteTransaction: bool

    ghost predicate Valid()
      reads this
    {
      !inWriteTransaction ==> current == committed
    }

    constructor ()
      ensures Valid() && !inWriteTransaction && committed == []
    {
      committed, current, inWriteTransaction := [], [], false;
    }

    method BeginWrite() returns (ok: bool)
      requires Valid()
      modifies this
      ensures Valid() && ok == !old(inWriteTransaction) && inWriteTransaction
      ensures current == old(current) && committed == old(committed)
    {
      ok := !inWriteTransaction;
      inWriteTransaction := true;
    }

    // Outside a transaction, and when the file cannot be written, the error is
    // reported and nothing changes.
    method CommitWrite(fails: bool) returns (ok: bool)
      requires Valid()
      modifies this
      ensures Valid() && ok == (old(inWriteTransaction) && !fails)
      ensures inWriteTransaction == (old(inWriteTransaction) && fails)
      ensures current == old(current) && committed == if ok then old(current) else old(committed)
    {
      ok := inWriteTransaction && !fails;
      if ok {
        committed := current;
        inWriteTransaction := false;
      }
    }

    method CancelWrite() returns (ok: bool)
      requires Valid()
      modifies this
      ensures Valid() && ok == old(inWriteTransaction) && !inWriteTransaction
      ensures committed == old(committed) && current == committed
    {
      ok := inWriteTransaction;
      current := committed;
      inWriteTransaction := false;
    }

    // Runs the block up to its end or its first error; n actions were done.
    method Run(block: Block) returns (ending: Ending, n: nat)
      requires Valid() && inWriteTransaction && current == committed
      modifies this
      ensures Valid() && n <= |block.actions| && ending != CommitFailed
      ensures ending != Crashed ==> committed == old(committed) + Survivors(block.actions[..n], false)
      ensures ending != Crashed ==> current == old(committed) + Survivors(block.actions[..n], true)
      ensures ending != Crashed ==> inWriteTransaction == Open(block.actions[..n])
      ensures ending == Returned ==> n == |block.actions| && !block.throws
      ensures ending == Returned ==> Passes(block.actions, n)
      ensures ending == Threw ==>
                || (n == |block.actions| && block.throws && Passes(block.actions, n))
                || (n > 0 && Uncaught(block.actions, n - 1) && Passes(block.actions, n - 1))
      ensures ending == Crashed ==>
                n < |block.actions| && !Callable(Open(block.actions[..n]), block.actions[n]) && Passes(block.actions, n)
    {
      hide Survivors, ClosedByCommit, Passes;
      n := 0;
      assert Passes(block.actions, 0) by {
        PassesNone(block.actions);
      }
      SurvivorsNone();
      while n < |block.actions|
        invariant n <= |block.actions| && Valid()
        invariant committed == old(committed) + Survivors(block.actions[..n], false)
        invariant current == old(committed) + Survivors(block.actions[..n], true)
        invariant inWriteTransaction == Open(block.actions[..n]) && Passes(block.actions, n)
      {
        var a := block.actions[n];
        assert block.actions[..n + 1] == block.actions[..n] + [a];
        PassesOn(block.actions, n);
        AppendAction(block.actions[..n], a, false);
        AppendAction(block.actions[..n], a, true);
        var ok := true;
        match a {
          case Write(x) =>
            if !inWriteTransaction {
              return Crashed, n;
            }
            current := current + [x];
          case Begin =>
            ok := BeginWrite();
            if !ok {
              return Crashed, n;
            }
          case Commit(fails, caught) =>
            ok := CommitWrite(fails);
            if !ok && !caught {
              return Threw, n + 1;
            }
          case Cancel =>
            ok := CancelWrite();
            if !ok {
              return Crashed, n;
            }
        }
        n := n + 1;
      }
      assert block.actions[..n] == block.actions;
      ending := if block.throws then Threw else Returned;
    }

    // Whatever the block does, the transaction is closed afterwards unless the
    // last commit fails. An error leaves the state of the last commit; a normal
    // return has committed every write that was not cancelled.
    method Write(block: Block, commitFails: bool) returns (ending: Ending, n: nat)
      requires Valid() && !inWriteTransaction
      modifies this
      ensures Valid() && n <= |block.actions|
      ensures ending == Returned ==>
                && !inWriteTransaction && !block.throws && !(Open(block.actions) && commitFails)
                && committed == old(committed) + Survivors(block.actions, true)
                && Passes(block.actions, |block.actions|)
      ensures ending == Threw ==>
                && !inWriteTransaction
                && committed == old(committed) + Survivors(block.actions[..n], false)
                && (|| (n == |block.actions| && block.throws && Passes(block.actions, n))
                    || (n > 0 && Uncaught(block.actions, n - 1) && Passes(block.actions, n - 1)))
      ensures ending == CommitFailed ==>
                && inWriteTransaction && commitFails && Open(block.actions) && !block.throws
                && committed == old(committed) + Survivors(block.actions, false)
                && current == old(committed) + Survivors(block.actions, true)
                && Passes(block.actions, |block.actions|)
      ensures ending == Crashed ==>
                n < |block.actions| && !Callable(Open(block.actions[..n]), block.actions[n]) && Passes(block.actions, n)
    {
      var begun := BeginWrite();
      ending, n := Run(block);
      if ending == Threw {
        if inWriteTransaction {
          var cancelled := CancelWrite();
        }
        return;
      }
      assert ending == Returned ==> block.actions[..n] == block.actions;
      if ending == Returned && inWriteTransaction {
        var ok := CommitWrite(commitFails);
        if !ok {
          ending := CommitFailed;
        }
      }
    }
  }

  lemma {:induction false} OnlyWritesOpen(actions: seq<Action>)
    requires forall i | 0 <= i < |actions| :: actions[i].Write?
    ensures Open(actions) && Passes(actions, |actions|)
    decreases |actions|
  {
    forall k: nat | k < |actions|
      ensures Open(actions[..k])
    {
      OnlyWritesOpen(actions[..k]);
    }
  }

  // A block of writes alone is committed as a whole or not at all.
  method WriteAll(realm: Realm, xs: seq<nat>, throws: bool, commitFails: bool) returns (ending: Ending)
    requires realm.Valid() && !realm.inWriteTransaction
    modifies realm
    ensures realm.Valid() && ending == if throws then Threw else if commitFails then CommitFailed else Returned
    ensures realm.committed == old(realm.committed) + if ending == Returned then xs else []
    ensures realm.inWriteTransaction <==> ending == CommitFailed
  {
    var actions := seq(|xs|, i requires 0 <= i < |xs| => Write(xs[i]));
    WritesAlone(xs, true);
    WritesAlone(xs, false);
    forall n | 0 <= n <= |actions|
      ensures Open(actions[..n])
    {
      OnlyWritesOpen(actions[..n]);
    }
    assert actions[..|actions|] == actions;
    var n: nat;
    ending, n := realm.Write(Block(actions, throws), commitFails);
  }
}
