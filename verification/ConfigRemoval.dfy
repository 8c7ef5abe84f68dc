/** Taking settings out again.

    What is left keeps every invariant of the heap, and the
    children that stay stand for what they stood for.
    */
module ConfigRemoval {
  import opened Wrappers
  import opened ConfigHeap
  import opened ConfigGrowth

  lemma {:induction false} BelowIsLater(h: Heap, id: int, j: int)
    requires IsBelow(h, id, j) && 0 <= id
    ensures id <= j
    decreases j
  {
    if j != id { BelowIsLater(h, id, h.cells[j].parent.value); }
  }

  // The path upward is one line: of two ancestors one is above the other.
  lemma {:induction false} OneLine(h: Heap, a: int, b: int, j: int)
    requires IsBelow(h, a, j) && IsBelow(h, b, j)
    ensures IsBelow(h, a, b) || IsBelow(h, b, a)
    decreases j
  {
    if j != a && j != b { OneLine(h, a, b, h.cells[j].parent.value); }
  }

  // Siblings have nothing below them in common.
  lemma {:induction false} SiblingsApart(h: Heap, p: int, a: int, b: int, j: int)
    requires WellFormed(h) && p in h.cells && KidOk(h, p, a) && KidOk(h, p, b) && a != b
    requires IsBelow(h, a, j)
    ensures !IsBelow(h, b, j)
  {
    assert Linked(h, a) && Linked(h, b) && Linked(h, p);
    if IsBelow(h, b, j) {
      OneLine(h, a, b, j);
      if IsBelow(h, a, b) { BelowIsLater(h, a, p); } else { BelowIsLater(h, b, p); }
    }
  }

  // What is below a setting is the setting itself or below one of its children.
  lemma {:induction false} BelowSome(h: Heap, id: int, j: int) returns (i: int)
    requires WellFormed(h) && id in h.cells && j in h.cells && IsBelow(h, id, j) && j != id
    ensures 0 <= i < |h.cells[id].kids| && IsBelow(h, h.cells[id].kids[i], j)
    decreases j
  {
    var p := h.cells[j].parent.value;
    assert Linked(h, j);
    if p == id {
      i :| 0 <= i < |h.cells[id].kids| && h.cells[id].kids[i] == j;
    } else {
      i := BelowSome(h, id, p);
    }
  }

  lemma {:induction false} BelowKid(h: Heap, id: int, k: int, j: int)
    requires WellFormed(h) && id in h.cells && KidOk(h, id, k) && IsBelow(h, k, j)
    ensures IsBelow(h, id, j)
    decreases j
  {
    assert Linked(h, id);
    if j == k {
      assert IsBelow(h, id, id);
    } else {
      BelowKid(h, id, k, h.cells[j].parent.value);
    }
  }

  lemma {:induction false} ParentStays(h: Heap, parent: int, idx: int)
    requires WellFormed(h) && parent in h.cells && 0 <= idx < |h.cells[parent].kids|
    ensures parent !in Subtree(h, h.cells[parent].kids[idx])
  {
    var gone := h.cells[parent].kids[idx];
    assert Linked(h, parent) && KidOk(h, parent, gone);
    if IsBelow(h, gone, parent) { BelowIsLater(h, gone, parent); }
  }

  lemma {:induction false} KidStays(h: Heap, parent: int, idx: int, id: int, k: int)
    requires WellFormed(h) && parent in h.cells && 0 <= idx < |h.cells[parent].kids|
    requires id in h.cells && id !in Subtree(h, h.cells[parent].kids[idx])
    requires KidOk(h, id, k) && k != h.cells[parent].kids[idx]
    ensures k !in Subtree(h, h.cells[parent].kids[idx])
    ensures k == parent || RemoveKid(h, parent, idx).cells[k] == h.cells[k]
  {
    assert Linked(h, id);
  }

  // Where the i-th child of a setting that stays stood before.
  function Before(parent: int, idx: int, id: int, i: int): int {
    if id == parent && i >= idx then i + 1 else i
  }

  lemma {:induction false} KidsOfStaying(h: Heap, parent: int, idx: int, id: int, i: int)
    requires WellFormed(h) && parent in h.cells && 0 <= idx < |h.cells[parent].kids|
    requires id in RemoveKid(h, parent, idx).cells && 0 <= i < |RemoveKid(h, parent, idx).cells[id].kids|
    ensures id in h.cells && 0 <= Before(parent, idx, id, i) < |h.cells[id].kids|
    ensures var k := RemoveKid(h, parent, idx).cells[id].kids[i];
      k == h.cells[id].kids[Before(parent, idx, id, i)] && KidOk(RemoveKid(h, parent, idx), id, k)
      && KidOk(h, id, k) && k != h.cells[parent].kids[idx]
  {
    hide Subtree;
    ParentStays(h, parent, idx);
    assert id in h.cells && id !in Subtree(h, h.cells[parent].kids[idx]);
    assert Linked(h, id) && Linked(h, parent);
    var i0 := Before(parent, idx, id, i);
    var k := h.cells[id].kids[i0];
    assert KidOk(h, id, k) && KidOk(h, parent, h.cells[parent].kids[idx]);
    KidStays(h, parent, idx, id, k);
  }

  lemma {:induction false} SelfBelow(h: Heap, parent: int, idx: int)
    requires WellFormed(h) && parent in h.cells && 0 <= idx < |h.cells[parent].kids|
    ensures h.cells[parent].kids[idx] in Subtree(h, h.cells[parent].kids[idx])
  {
    assert Linked(h, parent) && KidOk(h, parent, h.cells[parent].kids[idx]);
  }

  // What is above a setting that stays, stays.
  lemma {:induction false} AboveStays(h: Heap, gone: int, p: int, id: int)
    requires WellFormed(h) && id in h.cells && p in h.cells && KidOk(h, p, id) && id !in Subtree(h, gone)
    ensures p !in Subtree(h, gone)
  {
  }

  // The parent of a setting that stays, stays, and has it among its children.
  lemma {:induction false} ParentOfStaying(h: Heap, parent: int, idx: int, id: int)
    requires WellFormed(h) && parent in h.cells && 0 <= idx < |h.cells[parent].kids|
    requires id in RemoveKid(h, parent, idx).cells && id != ROOT
    ensures id in h.cells && h.cells[id].parent.Some?
    ensures var h' := RemoveKid(h, parent, idx); var p := h.cells[id].parent.value;
      p in h'.cells && id in h'.cells[p].kids
  {
    hide Subtree;
    ParentStays(h, parent, idx);
    var gone := h.cells[parent].kids[idx];
    assert id in h.cells && Linked(h, id) && id !in Subtree(h, gone) && gone in Subtree(h, gone) by {
      SelfBelow(h, parent, idx);
    }
    var p := h.cells[id].parent.value;
    assert Linked(h, p);
    var i :| 0 <= i < |h.cells[p].kids| && h.cells[p].kids[i] == id;
    assert KidOk(h, p, id);
    AboveStays(h, gone, p, id);
    if p == parent { OthersStay(h.cells[p].kids, idx, i); }
  }

  lemma OthersStay(kids: seq<int>, idx: int, i: int)
    requires 0 <= idx < |kids| && 0 <= i < |kids| && i != idx
    ensures kids[i] in kids[..idx] + kids[idx + 1..]
  {
    assert (kids[..idx] + kids[idx + 1..])[if i < idx then i else i - 1] == kids[i];
  }

  lemma {:induction false} RemoveLinked(h: Heap, parent: int, idx: int)
    requires WellFormed(h) && parent in h.cells && 0 <= idx < |h.cells[parent].kids|
    ensures WellFormed(RemoveKid(h, parent, idx))
  {
    hide Subtree;
    var h' := RemoveKid(h, parent, idx);
    RootStays(h, parent, idx);
    forall id | id in h'.cells
      ensures Linked(h', id)
    {
      ParentStays(h, parent, idx);
      assert id in h.cells && Linked(h, id);
      forall i | 0 <= i < |h'.cells[id].kids|
        ensures KidOk(h', id, h'.cells[id].kids[i])
        ensures h'.cells[id].kids[i] == h.cells[id].kids[Before(parent, idx, id, i)]
        ensures 0 <= Before(parent, idx, id, i) < |h.cells[id].kids|
      {
        KidsOfStaying(h, parent, idx, id, i);
      }
      if id != ROOT { ParentOfStaying(h, parent, idx, id); }
    }
  }

  lemma {:induction false} RootStays(h: Heap, parent: int, idx: int)
    requires WellFormed(h) && parent in h.cells && 0 <= idx < |h.cells[parent].kids|
    ensures ROOT in RemoveKid(h, parent, idx).cells
    ensures var c := RemoveKid(h, parent, idx).cells[ROOT]; c.kind == KGroup && c.name == None
  {
    var gone := h.cells[parent].kids[idx];
    assert Linked(h, parent) && KidOk(h, parent, gone) && Linked(h, ROOT);
    if IsBelow(h, gone, ROOT) { BelowIsLater(h, gone, ROOT); }
  }

  // Except for the children of the one parent, a setting that stays is as it was.
  lemma {:induction false} StaysSame(h: Heap, parent: int, idx: int, id: int)
    requires WellFormed(h) && parent in h.cells && 0 <= idx < |h.cells[parent].kids|
    requires id in RemoveKid(h, parent, idx).cells
    ensures id in h.cells
    ensures var c, c' := h.cells[id], RemoveKid(h, parent, idx).cells[id];
      c' == if id == parent then c.(kids := c.kids[..idx] + c.kids[idx + 1..]) else c
  {
    ParentStays(h, parent, idx);
  }

  lemma {:induction false} StayingKids(h: Heap, parent: int, idx: int, id: int)
    requires Good(h) && parent in h.cells && 0 <= idx < |h.cells[parent].kids|
    requires id in RemoveKid(h, parent, idx).cells
    ensures var h' := RemoveKid(h, parent, idx);
      id in h.cells && h'.cells[id].kind == h.cells[id].kind &&
      forall i :: 0 <= i < |h'.cells[id].kids| ==>
        var k, j := h'.cells[id].kids[i], Before(parent, idx, id, i);
        && 0 <= j < |h.cells[id].kids| && k == h.cells[id].kids[j]
        && k in h'.cells && k in h.cells
        && h'.cells[k].name == h.cells[k].name && h'.cells[k].kind == h.cells[k].kind
  {
    hide Subtree;
    hide RemoveKid;
    hide WellFormed;
    var h' := RemoveKid(h, parent, idx);
    StaysSame(h, parent, idx, id);
    forall i | 0 <= i < |h'.cells[id].kids|
      ensures var k, j := h'.cells[id].kids[i], Before(parent, idx, id, i);
        && 0 <= j < |h.cells[id].kids| && k == h.cells[id].kids[j]
        && k in h'.cells && k in h.cells
        && h'.cells[k].name == h.cells[k].name && h'.cells[k].kind == h.cells[k].kind
    {
      KidsOfStaying(h, parent, idx, id, i);
      StaysSame(h, parent, idx, h'.cells[id].kids[i]);
    }
  }

  lemma {:induction false} RemoveGood(h: Heap, parent: int, idx: int)
    requires Good(h) && parent in h.cells && 0 <= idx < |h.cells[parent].kids|
    ensures Good(RemoveKid(h, parent, idx))
  {
    hide RemoveKid;
    hide WellFormed;
    RemoveLinked(h, parent, idx);
    var h' := RemoveKid(h, parent, idx);
    forall id | id in h'.cells
      ensures NamesOk(h', id)
    {
      StayingKids(h, parent, idx, id);
      assert NamesOk(h, id);
    }
    forall id | id in h'.cells
      ensures OneTyped(h', id)
    {
      StayingKids(h, parent, idx, id);
      KidsAreOld(h, id);
      assert OneTyped(h, id);
    }
  }

  // The other children of the parent stand for what they stood for.
  lemma {:induction false} RemoveItems(h: Heap, parent: int, idx: int)
    requires Good(h) && parent in h.cells && 0 <= idx < |h.cells[parent].kids|
    ensures parent < h.next && parent in RemoveKid(h, parent, idx).cells
    ensures AllItems(RemoveKid(h, parent, idx), parent) == AllItems(h, parent)[..idx] + AllItems(h, parent)[idx + 1..]
  {
    hide Good;
    hide WellFormed;
    hide Subtree;
    hide RemoveKid;
    GoodInRange(h, parent);
    ParentIsLeft(h, parent, idx);
    var h' := RemoveKid(h, parent, idx);
    StaysSame(h, parent, idx, parent) by { GoodParts(h); }
    RemoveGood(h, parent, idx);
    forall i | 0 <= i < |h'.cells[parent].kids|
      ensures AllItems(h', parent)[i] == AllItems(h, parent)[Before(parent, idx, parent, i)]
    {
      ItemAt(h', parent, i) by { GoodParts(h'); }
      ItemAt(h, parent, Before(parent, idx, parent, i)) by { GoodParts(h); }
      KidsOfStaying(h, parent, idx, parent, i) by { GoodParts(h); }
      var k := h'.cells[parent].kids[i];
      UnchangedBelow(h, parent, idx, k);
      StaysSame(h, parent, idx, k) by { GoodParts(h); }
    }
  }

  lemma GoodParts(h: Heap)
    requires Good(h)
    ensures WellFormed(h)
  {
  }

  lemma ParentIsLeft(h: Heap, parent: int, idx: int)
    requires Good(h) && parent in h.cells && 0 <= idx < |h.cells[parent].kids|
    ensures parent in RemoveKid(h, parent, idx).cells
    ensures RemoveKid(h, parent, idx).next == h.next
  {
  }

  // A setting that stays and comes after the parent is unchanged with all below it.
  lemma {:induction false} UnchangedBelow(h: Heap, parent: int, idx: int, id: int)
    requires Good(h) && parent in h.cells && 0 <= idx < |h.cells[parent].kids|
    requires id in RemoveKid(h, parent, idx).cells && parent < id
    ensures Abs(RemoveKid(h, parent, idx), id) == Abs(h, id)
    decreases h.next - id, 1, 0
  {
    hide Good;
    hide WellFormed;
    hide Subtree;
    hide RemoveKid;
    StaysSame(h, parent, idx, id) by { GoodParts(h); }
    GoodInRange(h, id);
    ParentIsLeft(h, parent, idx);
    UnchangedItems(h, parent, idx, id, |h.cells[id].kids|);
  }

  lemma {:induction false} UnchangedItems(h: Heap, parent: int, idx: int, id: int, n: nat)
    requires Good(h) && parent in h.cells && 0 <= idx < |h.cells[parent].kids|
    requires id in RemoveKid(h, parent, idx).cells && parent < id < h.next
    requires id in h.cells && RemoveKid(h, parent, idx).cells[id] == h.cells[id] && n <= |h.cells[id].kids|
    requires RemoveKid(h, parent, idx).next == h.next
    ensures Items(RemoveKid(h, parent, idx), id, n) == Items(h, id, n)
    decreases h.next - id, 0, n
  {
    hide Good;
    hide WellFormed;
    hide Subtree;
    hide RemoveKid;
    if n > 0 {
      UnchangedItems(h, parent, idx, id, n - 1);
      KidsOfStaying(h, parent, idx, id, n - 1) by { GoodParts(h); }
      var k := h.cells[id].kids[n - 1];
      StaysSame(h, parent, idx, k) by { GoodParts(h); }
      GoodInRange(h, k);
      UnchangedBelow(h, parent, idx, k);
    }
  }
}
