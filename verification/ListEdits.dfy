// RealmSwift List: range edits made of single inserts and removes.
module ListEdits {
  // The elements from lo up to hi replaced by others.
  function Splice<T>(s: seq<T>, lo: nat, hi: nat, items: seq<T>): seq<T>
    requires lo <= hi <= |s|
  {
    s[..lo] + items + s[hi..]
  }

  // Inserting items and removing the span they occupy restores the list, and
  // so does putting removed items back.
  lemma {:induction false} SpliceInverse<T>(s: seq<T>, lo: nat, hi: nat, items: seq<T>)
    requires lo <= hi <= |s|
    ensures Splice(Splice(s, lo, hi, items), lo, lo + |items|, s[lo..hi]) == s
    ensures Splice(Splice(s, lo, lo, items), lo, lo + |items|, []) == s
  {
  }

  // Where a range edit stops when it reaches outside the list. Swift's range
  // types already guarantee lo <= hi.
  function Stuck<T>(s: seq<T>, lo: int, hi: int): seq<T> {
    if 0 <= lo <= |s| < hi then s[..lo] else s
  }

  class List<T> {
    var elements: seq<T>

    constructor ()
      ensures elements == []
    {
      elements := [];
    }

    // ok is false when the backing array throws.
    method Insert(x: T, index: int) returns (ok: bool)
      modifies this
      ensures ok <==> 0 <= index <= |old(elements)|
      ensures elements == if ok then old(elements)[..index] + [x] + old(elements)[index..] else old(elements)
    {
      if index < 0 || index > |elements| {
        return false;
      }
      elements := elements[..index] + [x] + elements[index..];
      ok := true;
    }

    method Remove(index: int) returns (ok: bool)
      modifies this
      ensures ok <==> 0 <= index < |old(elements)|
      ensures elements == if ok then old(elements)[..index] + old(elements)[index + 1..] else old(elements)
    {
      if index < 0 || index >= |elements| {
        return false;
      }
      elements := elements[..index] + elements[index + 1..];
      ok := true;
    }

    // Removes at the lower bound as often as the range is long.
    method RemoveSubrange(lo: int, hi: int) returns (ok: bool)
      requires lo <= hi
      modifies this
      ensures ok <==> lo == hi || 0 <= lo <= hi <= |old(elements)|
      ensures elements == if 0 <= lo <= hi <= |old(elements)| then Splice(old(elements), lo, hi, [])
              else Stuck(old(elements), lo, hi)
    {
      ghost var s := elements;
      for i := lo to hi
        invariant lo < i ==> 0 <= lo && i <= |s|
        invariant elements == if lo < i then s[..lo] + s[i..] else s
      {
        ok := Remove(lo);
        if !ok {
          return;
        }
      }
      ok := true;
    }

    method InsertContentsOf(newElements: seq<T>, i: int) returns (ok: bool)
      modifies this
      ensures ok <==> newElements == [] || 0 <= i <= |old(elements)|
      ensures elements == if 0 <= i <= |old(elements)| then Splice(old(elements), i, i, newElements) else old(elements)
    {
      var currentIndex := i;
      ghost var s := elements;
      for k := 0 to |newElements|
        invariant currentIndex == i + k
        invariant 0 < k ==> 0 <= i <= |s|
        invariant elements == if 0 <= i <= |s| then s[..i] + newElements[..k] + s[i..] else s
      {
        ok := Insert(newElements[k], currentIndex);
        if !ok {
          return;
        }
        currentIndex := currentIndex + 1;
      }
      ok := true;
    }

    // Removes the range and inserts the new elements last to first, all at the
    // lower bound.
    method ReplaceSubrange(lo: int, hi: int, newElements: seq<T>) returns (ok: bool)
      requires lo <= hi
      modifies this
      ensures ok <==>
                && (lo == hi || 0 <= lo <= hi <= |old(elements)|)
                && (newElements == [] || 0 <= lo <= |old(elements)|)
      ensures elements == if 0 <= lo <= hi <= |old(elements)| then Splice(old(elements), lo, hi, newElements)
              else Stuck(old(elements), lo, hi)
    {
      ok := RemoveSubrange(lo, hi);
      if ok {
        ok := InsertReversed(newElements, lo);
      }
    }

    // The insert loop of replaceSubrange, last element first.
    method InsertReversed(newElements: seq<T>, at: int) returns (ok: bool)
      modifies this
      ensures ok <==> newElements == [] || 0 <= at <= |old(elements)|
      ensures elements == if 0 <= at <= |old(elements)| then Splice(old(elements), at, at, newElements)
              else old(elements)
    {
      ghost var s := elements;
      var k := |newElements|;
      while k > 0
        invariant 0 <= k <= |newElements|
        invariant k < |newElements| ==> 0 <= at <= |s|
        invariant elements == if 0 <= at <= |s| then s[..at] + newElements[k..] + s[at..] else s
      {
        k := k - 1;
        ok := Insert(newElements[k], at);
        if !ok {
          return;
        }
      }
      ok := true;
    }

    // The form for other range types and older compilers.
    method ReplaceSubrangeInOrder(lo: int, hi: int, newElements: seq<T>) returns (ok: bool)
      requires lo <= hi
      modifies this
      ensures ok <==>
                && (lo == hi || 0 <= lo <= hi <= |old(elements)|)
                && (newElements == [] || 0 <= lo <= |old(elements)|)
      ensures elements == if 0 <= lo <= hi <= |old(elements)| then Splice(old(elements), lo, hi, newElements)
              else Stuck(old(elements), lo, hi)
    {
      ok := RemoveSubrange(lo, hi);
      if ok {
        ok := InsertContentsOf(newElements, lo);
      }
    }

    // ok is false for the exception when number is too large and for the trap
    // on the range 0..<number when it is negative.
    method RemoveFirst(number: int) returns (ok: bool)
      modifies this
      ensures ok <==> 0 <= number <= |old(elements)|
      ensures elements == if ok then Splice(old(elements), 0, number, []) else old(elements)
    {
      ghost var s := elements;
      if number > |elements| || number < 0 {
        return false;
      }
      for i := 0 to number
        invariant elements == s[i..]
      {
        ok := Remove(0);
      }
      ok := true;
    }

    method RemoveLast(number: int) returns (ok: bool)
      modifies this
      ensures ok <==> 0 <= number <= |old(elements)|
      ensures elements == if ok then Splice(old(elements), |old(elements)| - number, |old(elements)|, [])
              else old(elements)
    {
      ghost var s := elements;
      if number > |elements| || number < 0 {
        return false;
      }
      for i := 0 to number
        invariant elements == s[..|s| - i]
      {
        ok := Remove(|elements| - 1);
      }
      ok := true;
    }
  }

  // What the indices of a slice show once the range has been removed.
  function SliceAfterRemoval<T>(s: seq<T>, lo: nat, hi: nat, from: nat, to: nat): seq<T>
    requires lo <= hi <= |s| && from <= to <= |s| - (hi - lo)
  {
    (s[..lo] + s[hi..])[from..to]
  }

  // A slice of the list itself is a view, read only after the range is gone.
  method ReplaceWithOwnSlice<T>(list: List<T>, lo: nat, hi: nat, from: nat, to: nat) returns (ok: bool)
    requires lo <= hi <= |list.elements| && from <= to <= |list.elements|
    modifies list
    ensures ok <==> from == to || to <= |old(list.elements)| - (hi - lo)
    ensures ok && from < to ==>
            list.elements == Splice(old(list.elements), lo, hi, SliceAfterRemoval(old(list.elements), lo, hi, from, to))
    ensures from == to ==> list.elements == Splice(old(list.elements), lo, hi, [])
  {
    ghost var s := list.elements;
    ok := list.RemoveSubrange(lo, hi);
    ghost var rest := list.elements;
    assert rest == s[..lo] + s[hi..];
    var slice: seq<T> := [];
    for k := from to to
      invariant list.elements == rest
      invariant from < k ==> k <= |rest|
      invariant slice == if from < k then rest[from..k] else []
    {
      if k >= |list.elements| {
        return false;
      }
      slice := slice + [list.elements[k]];
    }
    ok := list.InsertReversed(slice, lo);
  }

  // For distinct elements the slice keeps its meaning exactly if nothing is
  // removed or it ends before the removed range.
  lemma {:induction false} OwnSliceKept<T>(s: seq<T>, lo: nat, hi: nat, from: nat, to: nat)
    requires lo <= hi <= |s| && from < to <= |s| && forall i, j | 0 <= i < j < |s| :: s[i] != s[j]
    ensures to <= |s| - (hi - lo) && SliceAfterRemoval(s, lo, hi, from, to) == s[from..to] <==> lo == hi || to <= lo
  {
    if lo == hi {
      assert s[..lo] + s[hi..] == s;
    } else if to <= |s| - (hi - lo) && lo < to {
      assert SliceAfterRemoval(s, lo, hi, from, to)[to - 1 - from] == s[to - 1 + (hi - lo)];
    }
  }
}
