// RLMObservationInfo: the observers of one row form a doubly linked list whose
// head is kept by the object schema.
module Observation {
  class ObservationInfo {
    var next: ObservationInfo?
    var prev: ObservationInfo?
    var row: nat

    constructor (row: nat)
      ensures this.row == row && next == null && prev == null
    {
      this.row, next, prev := row, null, null;
    }

    // Calls f on every info of the chain; the calls are recorded in order.
    method ForEach(ghost chain: seq<ObservationInfo>, ghost at: nat) returns (visited: seq<ObservationInfo>)
      requires Linked(chain) && at < |chain| && chain[at] == this
      ensures visited == Reversed(chain[..at]) + chain[at..]
    {
      visited := [];
      var info := prev;
      ghost var k: nat := at;
      assert chain[at..at] == [];
      while info != null
        invariant k <= at && info == Item(chain, k - 1)
        invariant visited == Reversed(chain[k..at])
        decreases k
      {
        assert chain[k - 1..at] == [chain[k - 1]] + chain[k..at];
        visited := visited + [info];
        info := info.prev;
        k := k - 1;
      }
      assert chain[0..at] == chain[..at];
      info := this;
      k := at;
      while info != null
        invariant at <= k <= |chain| && info == Item(chain, k)
        invariant visited == Reversed(chain[..at]) + chain[at..k]
        decreases |chain| - k
      {
        assert chain[at..k + 1] == chain[at..k] + [chain[k]];
        visited := visited + [info];
        info := info.next;
        k := k + 1;
      }
      assert chain[at..|chain|] == chain[at..];
    }
  }

  // The info at a position, or null off either end.
  ghost function Item(chain: seq<ObservationInfo>, k: int): ObservationInfo? {
    if 0 <= k < |chain| then chain[k] else null
  }

  // A chain: distinct infos, each pointing at both its neighbours.
  ghost predicate Linked(chain: seq<ObservationInfo>)
    reads chain
  {
    && (forall i, j | 0 <= i < j < |chain| :: chain[i] != chain[j])
    && (forall i {:trigger chain[i].next} | 0 <= i < |chain| :: chain[i].next == Item(chain, i + 1))
    && (forall i {:trigger chain[i].prev} | 0 <= i < |chain| :: chain[i].prev == Item(chain, i - 1))
  }

  ghost function Reversed<T>(s: seq<T>): (r: seq<T>)
    ensures |r| == |s|
  {
    if s == [] then [] else Reversed(s[1..]) + [s[0]]
  }

  // Wherever the traversal starts, every info of the chain is visited once.
  lemma {:induction false} VisitsOnce<T>(chain: seq<T>, at: nat)
    requires at < |chain|
    ensures multiset(Reversed(chain[..at]) + chain[at..]) == multiset(chain)
  {
    ReversedItems(chain[..at]);
    assert chain == chain[..at] + chain[at..];
  }

  lemma {:induction false} ReversedItems<T>(s: seq<T>)
    ensures multiset(Reversed(s)) == multiset(s)
  {
    if s != [] {
      ReversedItems(s[1..]);
      assert s == [s[0]] + s[1..];
    }
  }

  ghost function Behind(chain: seq<ObservationInfo>, info: ObservationInfo): seq<ObservationInfo>
    requires chain != []
  {
    [chain[0], info] + chain[1..]
  }

  lemma {:induction false} BehindItem(chain: seq<ObservationInfo>, info: ObservationInfo, k: nat)
    requires chain != [] && k < |chain| + 1
    ensures Behind(chain, info)[k] == if k == 0 then chain[0] else if k == 1 then info else chain[k - 1]
  {
  }

  // The pointer updates of setRow.
  method InsertBehind(head: ObservationInfo, info: ObservationInfo, ghost chain: seq<ObservationInfo>)
    requires Linked(chain) && chain != [] && chain[0] == head && info !in chain
    modifies info, chain
    ensures Linked(Behind(chain, info))
    ensures info.row == old(info.row) && forall k | 0 <= k < |chain| :: chain[k].row == old(chain[k].row)
  {
    assert chain[0].next == Item(chain, 1);
    info.prev := head;
    info.next := head.next;
    if info.next != null {
      info.next.prev := info;
    }
    head.next := info;
    ghost var c := Behind(chain, info);
    assert forall k | 2 <= k < |c| :: c[k] == chain[k - 1];
    forall k | 0 <= k < |c|
      ensures c[k].next == Item(c, k + 1) && c[k].prev == Item(c, k - 1)
    {
      if k >= 2 {
        assert old(chain[k - 1].next) == Item(chain, k) && old(chain[k - 1].prev) == Item(chain, k - 2);
      }
    }
  }

  ghost function Infos(chains: seq<seq<ObservationInfo>>): set<ObservationInfo> {
    set i, k | 0 <= i < |chains| && 0 <= k < |chains[i]| :: chains[i][k]
  }

  // The part of RLMClassInfo that keeps one chain per observed row.
  class ObservedObjects {
    var heads: seq<ObservationInfo>
    ghost var chains: seq<seq<ObservationInfo>>

    ghost function Repr(): set<ObservationInfo>
      reads this
    {
      Infos(chains)
    }

    ghost predicate Valid()
      reads this, Repr()
    {
      && |heads| == |chains|
      && (forall i | 0 <= i < |chains| :: chains[i] != [] && heads[i] == chains[i][0])
      && (forall i | 0 <= i < |chains| :: Linked(chains[i]))
      && (forall i, k | 0 <= i < |chains| && 0 <= k < |chains[i]| :: chains[i][k].row == heads[i].row)
      && (forall i, j | 0 <= i < j < |heads| :: heads[i].row != heads[j].row)
    }

    constructor ()
      ensures Valid() && chains == []
    {
      heads, chains := [], [];
    }

    // Joins the chain of the row right behind its head, or starts a new chain.
    method SetRow(info: ObservationInfo, row: nat)
      requires Valid() && info !in Repr() && info.next == null && info.prev == null
      modifies this, info, Repr()
      ensures Valid() && Repr() == old(Repr()) + {info}
      ensures (exists i :: 0 <= i < |old(chains)| && old(heads[i].row) == row &&
                 old(chains)[i] != [] && chains == old(chains)[i := Behind(old(chains)[i], info)])
              || ((forall i | 0 <= i < |old(heads)| :: old(heads[i].row) != row) && chains == old(chains) + [[info]])
    {
      info.row := row;
      for i := 0 to |heads|
        invariant forall j | 0 <= j < i :: heads[j].row != row
      {
        if heads[i].row == row {
          Join(i, info);
          return;
        }
      }
      heads, chains := heads + [info], chains + [[info]];
      InfosAppend(old(chains), info);
    }

    method Join(i: nat, info: ObservationInfo)
      requires Valid() && i < |heads| && info !in Repr() && info.row == heads[i].row
      modifies this, info, Repr()
      ensures Valid() && Repr() == old(Repr()) + {info}
      ensures chains == old(chains)[i := Behind(old(chains)[i], info)]
    {
      hide Linked, Infos;
      ghost var c, was := chains[i], chains;
      Disjoint();
      Members();
      forall j | 0 <= j < |was| && j != i
        ensures info !in was[j] && forall o | o in was[j] :: o !in c
      {
      }
      InsertBehind(heads[i], info, c);
      forall j | 0 <= j < |was| && j != i
        ensures Linked(was[j])
      {
      }
      chains := chains[i := Behind(c, info)];
      forall j, k | 0 <= j < |chains| && 0 <= k < |chains[j]|
        ensures chains[j][k].row == heads[j].row
      {
        if j == i {
          BehindItem(c, info, k);
        }
      }
      InfosJoin(was, i, info);
    }

    lemma {:induction false} Members()
      ensures forall i, k | 0 <= i < |chains| && 0 <= k < |chains[i]| :: chains[i][k] in Repr()
    {
    }

    // Chains of different rows share no info.
    lemma {:induction false} Disjoint()
      requires Valid()
      ensures forall i, j, k, l | 0 <= i < j < |chains| && 0 <= k < |chains[i]| && 0 <= l < |chains[j]| ::
              chains[i][k] != chains[j][l]
    {
      forall i, j, k, l | 0 <= i < j < |chains| && 0 <= k < |chains[i]| && 0 <= l < |chains[j]|
        ensures chains[i][k] != chains[j][l]
      {
        assert heads[i].row != heads[j].row;
      }
    }
  }

  lemma {:induction false} InfosAppend(chains: seq<seq<ObservationInfo>>, info: ObservationInfo)
    ensures Infos(chains + [[info]]) == Infos(chains) + {info}
  {
    var after := chains + [[info]];
    assert after[|chains|][0] == info;
    forall o | o in Infos(chains)
      ensures o in Infos(after)
    {
      var i, k :| 0 <= i < |chains| && 0 <= k < |chains[i]| && chains[i][k] == o;
      assert after[i][k] == o;
    }
  }

  lemma {:induction false} InfosJoin(chains: seq<seq<ObservationInfo>>, i: nat, info: ObservationInfo)
    requires i < |chains| && chains[i] != []
    ensures Infos(chains[i := Behind(chains[i], info)]) == Infos(chains) + {info}
  {
    var b := Behind(chains[i], info);
    var after := chains[i := b];
    assert after[i][1] == info;
    forall o | o in Infos(chains)
      ensures o in Infos(after)
    {
      var j, k :| 0 <= j < |chains| && 0 <= k < |chains[j]| && chains[j][k] == o;
      if j == i {
        assert b[if k == 0 then 0 else k + 1] == o;
        assert after[i][if k == 0 then 0 else k + 1] == o;
      } else {
        assert after[j][k] == o;
      }
    }
  }
}
