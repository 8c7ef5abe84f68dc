/** How the heap of settings grows while a configuration is read:
    what making a setting does, and what storing into it does,
    to the configuration that the heap stands for. Nothing else
    about the heap changes.
    */
module ConfigGrowth {
  import opened Wrappers
  import opened ConfigHeap

  ghost predicate Good(h: Heap) {
    WellFormed(h) && WellNamed(h) && ArraysOneTyped(h)
  }

  // Everything that was in h is unchanged in h', except perhaps one setting.
  ghost predicate KeepsAllBut(h: Heap, h': Heap, id: int) {
    && h.next <= h'.next
    && forall j :: j in h.cells ==> j in h'.cells && (j != id ==> h'.cells[j] == h.cells[j])
  }

  // h' has items appended to an aggregate of h.
  ghost predicate Extends(h: Heap, h': Heap, id: int, items: seq<Item>) {
    && Good(h) && Good(h') && KeepsAllBut(h, h', id)
    && id in h.cells && id < h.next
    && h'.cells[id] == h.cells[id].(kids := h'.cells[id].kids)
    && AllItems(h', id) == AllItems(h, id) + items
  }

  // h' has a setting of h replaced by a configuration of the same name.
  ghost predicate Fills(h: Heap, h': Heap, id: int, conf: Conf) {
    && Good(h) && Good(h') && KeepsAllBut(h, h', id)
    && id in h.cells
    && h'.cells[id].name == h.cells[id].name && h'.cells[id].parent == h.cells[id].parent
    && Abs(h', id) == conf
  }

  // When a setting may be made under a parent.
  ghost predicate MayCreate(h: Heap, parent: int, name: Option<string>, kind: Kind) {
    && parent in h.cells
    && match name
       case Some(n) => h.cells[parent].kind == KGroup && ValidName(n) && !HasMember(h, h.cells[parent].kids, n)
       case None =>
         && Vector(h.cells[parent].kind)
         && (h.cells[parent].kind == KArray ==> ScalarKind(kind) && CheckType(h, h.cells[parent], kind))
  }

  lemma {:induction false} CreateLinked(h: Heap, parent: int, name: Option<string>, kind: Kind)
    requires WellFormed(h) && parent in h.cells && Aggregate(h.cells[parent].kind)
    ensures WellFormed(Create(h, parent, name, kind))
  {
    hide Linked;
    var h' := Create(h, parent, name, kind);
    InRange(h, parent);
    forall id | id in h'.cells
      ensures Linked(h', id)
    {
      if id == h.next {
        NewLinked(h, parent, name, kind);
      } else {
        OldLinked(h, parent, name, kind, id);
      }
    }
    assert ROOT in h'.cells;
  }

  lemma LinkedAt(h: Heap, id: int)
    requires WellFormed(h) && id in h.cells
    ensures Linked(h, id) && ROOT in h.cells
  {
  }

  lemma OneTypedAt(h: Heap, id: int)
    requires ArraysOneTyped(h) && id in h.cells
    ensures OneTyped(h, id)
  {
  }

  lemma {:induction false} NewLinked(h: Heap, parent: int, name: Option<string>, kind: Kind)
    requires WellFormed(h) && parent in h.cells && Aggregate(h.cells[parent].kind)
    ensures Linked(Create(h, parent, name, kind), h.next)
  {
    hide WellFormed;
    var h' := Create(h, parent, name, kind);
    InRange(h, parent);
    LinkedAt(h, parent);
    InRange(h, ROOT);
    var kids := h'.cells[parent].kids;
    assert kids[|kids| - 1] == h.next;
  }

  lemma {:induction false} OldLinked(h: Heap, parent: int, name: Option<string>, kind: Kind, id: int)
    requires WellFormed(h) && parent in h.cells && Aggregate(h.cells[parent].kind) && id in h.cells
    ensures Linked(Create(h, parent, name, kind), id)
  {
    hide WellFormed;
    LinkedAt(h, id);
    InRange(h, parent);
    KidsAreOld(h, id);
    var h' := Create(h, parent, name, kind);
    var kids, kids' := h.cells[id].kids, h'.cells[id].kids;
    forall i | 0 <= i < |kids'|
      ensures KidOk(h', id, kids'[i])
    {
      if i < |kids| { assert KidOk(h, id, kids[i]); }
    }
    assert Distinct(kids');
    match h.cells[id].parent
    case None =>
    case Some(p) => KeptKid(h.cells[p].kids, h'.cells[p].kids, id);
  }

  lemma KeptKid(kids: seq<int>, kids': seq<int>, id: int)
    requires id in kids && |kids| <= |kids'| && kids'[..|kids|] == kids
    ensures id in kids'
  {
    var i :| 0 <= i < |kids| && kids[i] == id;
    assert kids'[i] == id;
  }

  lemma {:induction false} CreateNamed(h: Heap, parent: int, name: Option<string>, kind: Kind)
    requires WellFormed(h) && WellNamed(h) && MayCreate(h, parent, name, kind)
    ensures WellNamed(Create(h, parent, name, kind))
  {
    hide WellFormed;
    var h' := Create(h, parent, name, kind);
    forall id | id in h'.cells
      ensures NamesOk(h', id)
    {
      if id == parent {
        CreateNamedParent(h, parent, name, kind);
      } else if id != h.next {
        assert NamesOk(h, id);
        KidsAreOld(h, id);
      }
    }
  }

  lemma {:induction false} CreateNamedParent(h: Heap, parent: int, name: Option<string>, kind: Kind)
    requires WellFormed(h) && WellNamed(h) && MayCreate(h, parent, name, kind)
    ensures NamesOk(Create(h, parent, name, kind), parent)
  {
    hide WellFormed;
    var h' := Create(h, parent, name, kind);
    var kids := h.cells[parent].kids;
    assert NamesOk(h, parent);
    KidsAreOld(h, parent);
    assert parent != h.next by { InRange(h, parent); }
    assert h'.cells[parent].kids == kids + [h.next];
    if name.Some? {
      forall i | 0 <= i < |kids|
        ensures h.cells[kids[i]].name != name
      {
        assert !Agrees(h, kids[i], name.value);
      }
    }
    forall i | 0 <= i < |kids|
      ensures h'.cells[kids[i]].name == h.cells[kids[i]].name
    {
    }
  }

  lemma KidsAreOld(h: Heap, id: int)
    requires WellFormed(h) && id in h.cells
    ensures forall i :: 0 <= i < |h.cells[id].kids| ==> h.cells[id].kids[i] in h.cells && h.cells[id].kids[i] < h.next
  {
    assert Linked(h, id);
    forall i | 0 <= i < |h.cells[id].kids|
      ensures h.cells[id].kids[i] in h.cells && h.cells[id].kids[i] < h.next
    {
      assert KidOk(h, id, h.cells[id].kids[i]) && Linked(h, h.cells[id].kids[i]);
    }
  }

  lemma {:induction false} CreateOneTyped(h: Heap, parent: int, name: Option<string>, kind: Kind)
    requires WellFormed(h) && ArraysOneTyped(h) && MayCreate(h, parent, name, kind)
    ensures ArraysOneTyped(Create(h, parent, name, kind))
  {
    hide WellFormed;
    hide OneTyped;
    hide ScalarKind;
    hide CheckType;
    hide ValidName;
    hide HasMember;
    var h' := Create(h, parent, name, kind);
    InRange(h, parent);
    forall id | id in h'.cells
      ensures OneTyped(h', id)
    {
      if id == parent {
        CreateOneTypedParent(h, parent, name, kind);
      } else if id == h.next {
        EmptyOneTyped(h', id);
      } else {
        KidsAreOld(h, id);
        SameOneTyped(h, h', id);
      }
    }
  }

  lemma EmptyOneTyped(h: Heap, id: int)
    requires id in h.cells && h.cells[id].kids == []
    ensures OneTyped(h, id)
  {
  }

  lemma {:induction false} SameOneTyped(h: Heap, h': Heap, id: int)
    requires id in h.cells && id in h'.cells && h'.cells[id] == h.cells[id] && OneTyped(h, id)
    requires forall i :: 0 <= i < |h.cells[id].kids| ==> h.cells[id].kids[i] in h.cells
    requires forall j :: j in h.cells ==> j in h'.cells && h'.cells[j].kind == h.cells[j].kind
    ensures OneTyped(h', id)
  {
    var kids := h.cells[id].kids;
    forall i | 0 <= i < |kids|
      ensures kids[i] in h.cells && kids[i] in h'.cells && h'.cells[kids[i]].kind == h.cells[kids[i]].kind
    {
      var k := kids[i];
      assert k in h.cells && k in h'.cells;
    }
  }

  lemma {:induction false} CreateOneTypedParent(h: Heap, parent: int, name: Option<string>, kind: Kind)
    requires WellFormed(h) && ArraysOneTyped(h) && MayCreate(h, parent, name, kind)
    ensures OneTyped(Create(h, parent, name, kind), parent)
  {
    hide WellFormed;
    hide ArraysOneTyped;
    OneTypedAt(h, parent);
    var h' := Create(h, parent, name, kind);
    var kids := h.cells[parent].kids;
    KidsAreOld(h, parent);
    InRange(h, parent);
    assert h'.cells[parent].kids == kids + [h.next];
    forall i | 0 <= i < |kids|
      ensures kids[i] in h.cells && kids[i] in h'.cells && h'.cells[kids[i]].kind == h.cells[kids[i]].kind
    {
    }
  }

  lemma {:induction false} CreateExtends(h: Heap, parent: int, name: Option<string>, kind: Kind)
    requires Good(h) && MayCreate(h, parent, name, kind)
    ensures var h' := Create(h, parent, name, kind);
      && Extends(h, h', parent, [Item(name, Abs(h', h.next))])
      && h.next !in h.cells && h'.cells[h.next] == NewSetting(name, kind, Some(parent))
  {
    hide WellFormed;
    hide WellNamed;
    hide ArraysOneTyped;
    var h' := Create(h, parent, name, kind);
    CreateLinked(h, parent, name, kind);
    CreateNamed(h, parent, name, kind);
    CreateOneTyped(h, parent, name, kind);
    InRange(h, parent);
    ItemsStable(h, h', parent, |h.cells[parent].kids|);
  }

  lemma InRange(h: Heap, id: int)
    requires WellFormed(h) && id in h.cells
    ensures 0 <= id < h.next && h.next !in h.cells
    ensures h.cells[id].kids != [] ==> Aggregate(h.cells[id].kind)
  {
    assert Linked(h, id);
    assert h.next in h.cells ==> Linked(h, h.next);
  }

  lemma GoodInRange(h: Heap, id: int)
    requires Good(h) && id in h.cells
    ensures 0 <= id < h.next && h.next !in h.cells && h.next != ROOT
    ensures h.cells[id].kids != [] ==> Aggregate(h.cells[id].kind)
  {
    InRange(h, id);
    InRange(h, ROOT);
  }

  lemma {:induction false} ExtendsTrans(h: Heap, h1: Heap, h2: Heap, id: int, a: seq<Item>, b: seq<Item>)
    requires Extends(h, h1, id, a) && Extends(h1, h2, id, b)
    ensures Extends(h, h2, id, a + b)
  {
    hide Good;
    hide Items;
  }

  // A setting made under a parent and then filled amounts to an item appended.
  lemma {:induction false} CreateThenFill(h: Heap, h2: Heap, parent: int, name: Option<string>, kind: Kind, conf: Conf)
    requires Good(h) && MayCreate(h, parent, name, kind)
    requires Fills(Create(h, parent, name, kind), h2, h.next, conf)
    ensures Extends(h, h2, parent, [Item(name, conf)])
  {
    hide WellFormed;
    hide WellNamed;
    hide ArraysOneTyped;
    CreateExtends(h, parent, name, kind);
    InRange(h, parent);
    var n := |h.cells[parent].kids|;
    ItemsStable(h, h2, parent, n);
    assert h2.cells[parent].kids[n] == h.next;
    assert AllItems(h2, parent) == Items(h2, parent, n) + [Item(name, conf)];
  }

  // A setting whose kind may change into another: it holds nothing yet, and if it is an
  // element of an array its kind stays.
  ghost predicate MayFill(h: Heap, id: int, cell: Setting) {
    && id in h.cells && id != ROOT && h.cells[id].kids == []
    && cell.kids == [] && cell.name == h.cells[id].name && cell.parent == h.cells[id].parent
    && (cell.kind == h.cells[id].kind ||
        (cell.parent.Some? && cell.parent.value in h.cells && h.cells[cell.parent.value].kind != KArray))
  }

  lemma {:induction false} FillLinked(h: Heap, id: int, cell: Setting)
    requires Good(h) && MayFill(h, id, cell)
    ensures WellFormed(h.(cells := h.cells[id := cell]))
  {
    var h' := h.(cells := h.cells[id := cell]);
    forall j | j in h'.cells
      ensures Linked(h', j)
    {
      assert Linked(h, j);
      var kids := h'.cells[j].kids;
      forall i | 0 <= i < |kids|
        ensures KidOk(h', j, kids[i])
      {
        assert KidOk(h, j, kids[i]);
      }
    }
  }

  lemma {:induction false} FillNamed(h: Heap, id: int, cell: Setting)
    requires Good(h) && MayFill(h, id, cell)
    ensures WellNamed(h.(cells := h.cells[id := cell]))
  {
    var h' := h.(cells := h.cells[id := cell]);
    forall j | j in h'.cells
      ensures NamesOk(h', j)
    {
      assert NamesOk(h, j);
    }
  }

  lemma {:induction false} FillOneTyped(h: Heap, id: int, cell: Setting)
    requires Good(h) && MayFill(h, id, cell)
    ensures ArraysOneTyped(h.(cells := h.cells[id := cell]))
  {
    var h' := h.(cells := h.cells[id := cell]);
    forall j | j in h'.cells
      ensures OneTyped(h', j)
    {
      assert OneTyped(h, j) && Linked(h, j);
      var kids := h.cells[j].kids;
      forall i | 0 <= i < |kids| && h.cells[j].kind == KArray
        ensures h'.cells[kids[i]].kind == h.cells[kids[i]].kind
      {
        assert KidOk(h, j, kids[i]);
      }
    }
  }

  lemma FillGood(h: Heap, id: int, cell: Setting)
    requires Good(h) && MayFill(h, id, cell)
    ensures Good(h.(cells := h.cells[id := cell]))
  {
    FillLinked(h, id, cell);
    FillNamed(h, id, cell);
    FillOneTyped(h, id, cell);
  }

  lemma {:induction false} FillScalar(h: Heap, id: int, cell: Setting)
    requires Good(h) && MayFill(h, id, cell) && !Aggregate(cell.kind)
    ensures Fills(h, h.(cells := h.cells[id := cell]), id, ScalarOf(cell))
  {
    FillGood(h, id, cell);
    assert Linked(h, id);
  }

  // An empty aggregate whose items are then appended.
  lemma {:induction false} FillAggregate(h: Heap, h2: Heap, id: int, cell: Setting, items: seq<Item>)
    requires Good(h) && MayFill(h, id, cell) && Aggregate(cell.kind)
    requires Extends(h.(cells := h.cells[id := cell]), h2, id, items)
    ensures Fills(h, h2, id, Aggregated(cell.kind, items))
  {
    hide Good;
    var h1 := h.(cells := h.cells[id := cell]);
    assert AllItems(h1, id) == [] by { hide Extends; GoodInRange(h, id); }
    AbsOfAggregate(h2, id);
  }

  lemma AbsOfAggregate(h: Heap, id: int)
    requires id in h.cells && id < h.next && Aggregate(h.cells[id].kind)
    ensures Abs(h, id) == Aggregated(h.cells[id].kind, AllItems(h, id))
  {
  }

  lemma {:induction false} ExtendsNothing(h: Heap, id: int)
    requires Good(h) && id in h.cells
    ensures Extends(h, h, id, [])
  {
    assert Linked(h, id);
  }

  // Whether a group has a member of a valid name can be told from its items.
  lemma {:induction false} MemberIsItem(h: Heap, id: int, name: string)
    requires Good(h) && id in h.cells && h.cells[id].kind == KGroup && ValidName(name)
    ensures id < h.next
    ensures HasMember(h, h.cells[id].kids, name) <==>
      exists i :: 0 <= i < |AllItems(h, id)| && AllItems(h, id)[i].name == Some(name)
  {
    assert Linked(h, id) && NamesOk(h, id);
    var kids := h.cells[id].kids;
    ValidNameIsSegment(name);
    forall i | 0 <= i < |kids|
      ensures AllItems(h, id)[i].name == Some(name) <==> Agrees(h, kids[i], name)
    {
      ItemAt(h, id, i);
      ValidNameIsSegment(h.cells[kids[i]].name.value);
    }
  }

  lemma {:induction false} ItemAt(h: Heap, id: int, i: nat)
    requires WellFormed(h) && id in h.cells && i < |h.cells[id].kids|
    ensures id < h.next && h.cells[id].kids[i] in h.cells
    ensures var k := h.cells[id].kids[i]; AllItems(h, id)[i] == Item(h.cells[k].name, Abs(h, k))
  {
    assert Linked(h, id) && KidOk(h, id, h.cells[id].kids[i]);
    ItemsAt(h, id, |h.cells[id].kids|, i);
  }

  lemma {:induction false} ItemsAt(h: Heap, id: int, n: nat, i: nat)
    requires id in h.cells && id < h.next && i < n <= |h.cells[id].kids|
    ensures Items(h, id, n)[i] == Items(h, id, i + 1)[i]
  {
    if i + 1 < n { ItemsAt(h, id, n - 1, i); }
  }
}
