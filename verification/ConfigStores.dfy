/** What the typed setters store and where, and what the typed getters read back. */
module ConfigStores {
  import opened Wrappers
  import opened ConfigHeap
  import opened ConfigGrowth
  import opened ConfigRemoval
  import opened ConfigRuns

  // ---------- one setting ----------

  // A value of this type may be stored in a setting of that type.
  predicate Storable(kind: Kind, v: NewValue) {
    match v
    case NewInt(_) => kind == KNone || kind == KInt
    case NewInt64(_) => kind == KNone || kind == KInt64 || kind == KInt
    case NewFloat(_) => kind == KNone || kind == KFloat
    case NewBool(_) => kind == KNone || kind == KBool
    case NewString(_) => kind == KNone || kind == KString
  }

  // What a setting of that type and format then stands for: a 64-bit value in a 32-bit setting is
  // itself if it fits and 0 if it does not.
  predicate Holds(conf: Conf, kind: Kind, format: Format, v: NewValue) {
    match v
    case NewInt(i) => conf == IntC(i, format)
    case NewInt64(i) =>
      conf == if kind == KInt then IntC(if -0x8000_0000 <= i < 0x8000_0000 then i else 0, format) else Int64C(i, format)
    case NewFloat(f) => conf == FloatC(f)
    case NewBool(i) => conf == BoolC(i)
    case NewString(s) => conf == StringC(s)
  }

  // A setter succeeds exactly if the type fits; then the setting stands for the value, has the
  // type it had or took, and is otherwise as before.
  lemma {:induction false} StoredInSetting(c: Setting, v: NewValue)
    ensures SetScalar(c, v).Some? <==> Storable(c.kind, v)
    ensures SetScalar(c, v).Some? ==>
      var c' := SetScalar(c, v).value;
      && Holds(ScalarOf(c'), c.kind, c.format, v)
      && (c.kind != KNone ==> c'.kind == c.kind)
      && c' == c.(kind := c'.kind, value := c'.value)
  {
  }

  // ---------- reading back ----------

  // config_setting_get_int, _int64, _float, _bool and _string without automatic conversion.
  function GetInt(c: Setting): int {
    if c.kind == KInt && c.value.IVal? then c.value.ival
    else if c.kind == KInt64 && c.value.LlVal? then
      if c.value.llval > INT32_MAX || c.value.llval < INT32_MIN then 0 else c.value.llval
    else 0
  }

  function GetInt64(c: Setting): int {
    if c.kind == KInt64 && c.value.LlVal? then c.value.llval
    else if c.kind == KInt && c.value.IVal? then c.value.ival
    else 0
  }

  function GetFloat(c: Setting): string {
    if c.kind == KFloat && c.value.FVal? then c.value.fval else "0.0"
  }

  function GetBool(c: Setting): int {
    if c.kind == KBool && c.value.IVal? then c.value.ival else 0
  }

  function GetString(c: Setting): Option<string> {
    if c.kind == KString && c.value.SVal? then c.value.sval else None
  }

  // What has been stored is read by the getter of its type; an integer by either integer getter,
  // as far as it fits the setting and the getter. The other getters find nothing.
  lemma {:induction false} StoredIsRead(c: Setting, v: NewValue)
    requires Storable(c.kind, v)
    ensures SetScalar(c, v).Some?
    ensures var c' := SetScalar(c, v).value;
      match v
      case NewInt(i) => GetInt(c') == i && GetInt64(c') == i && GetBool(c') == 0 && GetString(c') == None
      case NewInt64(i) =>
        && GetInt(c') == (if -0x8000_0000 <= i < 0x8000_0000 then i else 0)
        && GetInt64(c') == (if c.kind == KInt && !(-0x8000_0000 <= i < 0x8000_0000) then 0 else i)
        && GetBool(c') == 0 && GetString(c') == None
      case NewFloat(f) => GetFloat(c') == f && GetInt(c') == 0 && GetInt64(c') == 0
      case NewBool(i) => GetBool(c') == i && GetInt(c') == 0 && GetInt64(c') == 0
      case NewString(s) => GetString(c') == s && GetInt(c') == 0 && GetInt64(c') == 0
  {
  }

  // ---------- one element ----------

  lemma {:induction false} ElementParts(h: Heap, vector: int, i: int)
    requires Good(h) && vector in h.cells && 0 <= i < |h.cells[vector].kids|
    ensures var e := h.cells[vector].kids[i];
      && vector < e < h.next && e in h.cells && h.cells[e].parent == Some(vector) && vector < h.next
      && (!Aggregate(h.cells[e].kind) ==> h.cells[e].kids == [])
      && forall k :: 0 <= k < |h.cells[vector].kids| && k != i ==> h.cells[vector].kids[k] != e
  {
    assert Linked(h, vector) && KidOk(h, vector, h.cells[vector].kids[i]);
    assert Linked(h, h.cells[vector].kids[i]);
  }

  // The heap with a setting replaced by one of the same place that holds nothing.
  ghost predicate Replaces(h: Heap, e: int, c: Setting) {
    e in h.cells && h.cells[e].kids == [] && c.kids == [] && h.cells[e].parent.Some? && c.parent == h.cells[e].parent
  }

  // What lies behind the parent of that setting stands for what it stood for.
  lemma {:induction false} OtherStays(h: Heap, e: int, c: Setting, id: int)
    requires WellFormed(h) && Replaces(h, e, c) && id in h.cells && id != e && h.cells[e].parent.value < id
    ensures Abs(h.(cells := h.cells[e := c]), id) == Abs(h, id)
    decreases h.next - id, 1, 0
  {
    hide WellFormed;
    InRange(h, id);
    OthersStay(h, e, c, id, |h.cells[id].kids|);
  }

  lemma {:induction false} OthersStay(h: Heap, e: int, c: Setting, id: int, n: nat)
    requires WellFormed(h) && Replaces(h, e, c) && id in h.cells && id != e && h.cells[e].parent.value < id < h.next
    requires n <= |h.cells[id].kids|
    ensures Items(h.(cells := h.cells[e := c]), id, n) == Items(h, id, n)
    decreases h.next - id, 0, n
  {
    hide WellFormed;
    if n > 0 {
      OthersStay(h, e, c, id, n - 1);
      LinkedAt(h, id);
      var k := h.cells[id].kids[n - 1];
      assert KidOk(h, id, k);
      InRange(h, k);
      OtherStays(h, e, c, k);
    }
  }

  // Another value in one element is another item in its place.
  lemma {:induction false} ItemStored(h: Heap, vector: int, i: nat, c: Setting)
    requires Good(h) && vector in h.cells && i < |h.cells[vector].kids|
    requires var e := h.cells[vector].kids[i]; Replaces(h, e, c) && c.name == h.cells[e].name
    requires !Aggregate(c.kind) && Good(h.(cells := h.cells[h.cells[vector].kids[i] := c]))
    ensures vector < h.next && i < |AllItems(h, vector)|
    ensures AllItems(h.(cells := h.cells[h.cells[vector].kids[i] := c]), vector)
      == AllItems(h, vector)[i := AllItems(h, vector)[i].(conf := ScalarOf(c))]
  {
    hide Good;
    hide Items;
    ElementParts(h, vector, i);
    var e := h.cells[vector].kids[i];
    var h' := h.(cells := h.cells[e := c]);
    forall k | 0 <= k < |h.cells[vector].kids|
      ensures AllItems(h', vector)[k]
        == if k == i then AllItems(h, vector)[i].(conf := ScalarOf(c)) else AllItems(h, vector)[k]
    {
      ElementParts(h, vector, k);
      ItemAt(h, vector, k) by { GoodIs(h); }
      ItemAt(h', vector, k) by { GoodIs(h'); }
      if k != i { OtherStays(h, e, c, h.cells[vector].kids[k]) by { GoodIs(h); } }
    }
  }

  lemma GoodIs(h: Heap)
    requires Good(h)
    ensures WellFormed(h)
  {
  }

  // The setters of elements succeed exactly on an element of an array or list whose type fits.
  lemma {:induction false} ElementTaken(h: Heap, vector: int, i: int, v: NewValue)
    requires Good(h) && vector in h.cells && i >= 0
    ensures SetElem(h, vector, i, v).Some? <==>
      && Vector(h.cells[vector].kind) && i < |h.cells[vector].kids| && h.cells[vector].kids[i] in h.cells
      && Storable(h.cells[h.cells[vector].kids[i]].kind, v)
    ensures SetElem(h, vector, i, v).Some? ==>
      var e := h.cells[vector].kids[i];
      SetScalar(h.cells[e], v).Some? &&
      SetElem(h, vector, i, v).value == (h.(cells := h.cells[e := SetScalar(h.cells[e], v).value]), e)
  {
    hide Good;
    hide SetScalar;
    if i < |h.cells[vector].kids| {
      ElementParts(h, vector, i);
      StoredInSetting(h.cells[h.cells[vector].kids[i]], v);
    }
  }

  // Then that element alone is changed: it and its item stand for the value, and all else about
  // it stays.
  lemma {:induction false} StoredInElement(h: Heap, vector: int, i: int, v: NewValue)
    requires Good(h) && vector in h.cells && i >= 0 && SetElem(h, vector, i, v).Some?
    ensures 0 <= i < |h.cells[vector].kids| && vector < h.next && i < |AllItems(h, vector)|
    ensures var (h', e) := SetElem(h, vector, i, v).value;
      && e == h.cells[vector].kids[i] && e in h.cells && e in h'.cells
      && h' == h.(cells := h.cells[e := h'.cells[e]])
      && (var was, now := h.cells[e], h'.cells[e];
          && now == was.(kind := now.kind, value := now.value) && (was.kind != KNone ==> now.kind == was.kind)
          && Good(h')
          && Holds(ScalarOf(now), was.kind, was.format, v)
          && AllItems(h', vector) == AllItems(h, vector)[i := AllItems(h, vector)[i].(conf := ScalarOf(now))])
  {
    hide Good;
    hide SetScalar;
    hide SetElem;
    hide ScalarOf;
    hide Items;
    hide Holds;
    ElementTaken(h, vector, i, v);
    ElementParts(h, vector, i);
    var e := h.cells[vector].kids[i];
    StoredInSetting(h.cells[e], v);
    ScalarKinds(h.cells[e], v);
    var c := SetScalar(h.cells[e], v).value;
    StoreGood(h, e, c);
    ItemStored(h, vector, i, c);
  }

  lemma ScalarKinds(c: Setting, v: NewValue)
    requires SetScalar(c, v).Some?
    ensures !Aggregate(c.kind) && !Aggregate(SetScalar(c, v).value.kind)
  {
  }

  // A negative index appends, unless an array's elements are of another type.
  lemma {:induction false} StoredAtEnd(h: Heap, vector: int, i: int, v: NewValue)
    requires Good(h) && vector in h.cells && i < 0
    ensures SetElem(h, vector, i, v).Some? <==>
      && Vector(h.cells[vector].kind)
      && (h.cells[vector].kind == KArray && h.cells[vector].kids != [] ==>
        h.cells[vector].kids[0] in h.cells && h.cells[h.cells[vector].kids[0]].kind == v.KindOf())
    ensures SetElem(h, vector, i, v).Some? ==>
      var (h', e) := SetElem(h, vector, i, v).value;
      && e == h.next && e !in h.cells && e in h'.cells && vector < h.next && vector in h'.cells && vector < h'.next
      && Good(h') && KeepsAllBut(h, h', vector)
      && h'.cells[vector] == h.cells[vector].(kids := h.cells[vector].kids + [e])
      && Holds(ScalarOf(h'.cells[e]), KNone, Plain, v)
      && AllItems(h', vector) == AllItems(h, vector) + [Item(None, ScalarOf(h'.cells[e]))]
  {
    hide Good;
    hide Items;
    hide ScalarOf;
    if SetElem(h, vector, i, v).Some? {
      GoodInRange(h, vector);
      var kind := v.KindOf();
      var h1 := Create(h, vector, None, kind);
      CreateExtends(h, vector, None, kind);
      var cell := h1.cells[h.next].(value := v.Stored());
      NewHolds(cell, v);
      FillScalar(h1, h.next, cell);
      CreateThenFill(h, h1.(cells := h1.cells[h.next := cell]), vector, None, kind, ScalarOf(cell));
    }
  }

  lemma NewHolds(c: Setting, v: NewValue)
    requires c.kind == v.KindOf() && c.value == v.Stored()
    ensures Holds(ScalarOf(c), KNone, c.format, v) && !Aggregate(c.kind)
  {
  }

  // A format is given to integers only, and nothing else about the setting changes.
  lemma {:induction false} FormatGiven(c: Setting, format: Format)
    ensures ScalarOf(SetFormat(c, format)) ==
      match ScalarOf(c)
      case IntC(i, _) => IntC(i, format)
      case Int64C(i, _) => Int64C(i, format)
      case other => other
    ensures SetFormat(c, format) == c.(format := SetFormat(c, format).format)
  {
  }

  // ---------- a new setting ----------

  // What a setting just made stands for.
  function Fresh(kind: Kind): Conf {
    match kind
    case KNone => NoneC
    case KBool => BoolC(0)
    case KInt => IntC(0, Plain)
    case KInt64 => Int64C(0, Plain)
    case KFloat => FloatC("0.0")
    case KString => StringC(None)
    case KGroup => GroupC([])
    case KArray => ArrayC([])
    case KList => ListC([])
  }

  // A setting is added to any array or list, where its name is dropped, and to a group under a
  // valid name that no member has; without a name it is added to an empty group, and to another
  // the call fails on the null name. A checked call appends an empty item, and nothing else.
  lemma {:induction false} AddMeans(h: Heap, parent: int, name: Option<string>, kind: Kind)
    requires Good(h) && parent in h.cells
    ensures parent < h.next
    ensures var p, items := h.cells[parent], AllItems(h, parent);
      && (Add(h, parent, name, kind).Added? <==>
          || Vector(p.kind)
          || (p.kind == KGroup &&
              match name
              case None => items == []
              case Some(n) => ValidName(n) && forall i :: 0 <= i < |items| ==> items[i].name != name))
      && (Add(h, parent, name, kind).Crashes? <==> p.kind == KGroup && name == None && items != [])
    ensures Add(h, parent, name, kind).Added? && Checked(h, AddSetting(parent, name, kind)) ==>
      var name' := if Vector(h.cells[parent].kind) then None else name;
      Extends(h, Add(h, parent, name, kind).h, parent, [Item(name', Fresh(kind))])
  {
    hide Good;
    hide Items;
    hide Extends;
    GoodInRange(h, parent);
    var p := h.cells[parent];
    if p.kind == KGroup {
      AllNamed(h, parent);
      if name.Some? && ValidName(name.value) { MemberIsItem(h, parent, name.value); }
    }
    if Add(h, parent, name, kind).Added? && Checked(h, AddSetting(parent, name, kind)) {
      var name' := if Vector(p.kind) then None else name;
      CreateExtends(h, parent, name', kind);
      FreshIs(Create(h, parent, name', kind), h.next, name', kind, parent);
    }
  }

  lemma {:induction false} AllNamed(h: Heap, id: int)
    requires Good(h) && id in h.cells && h.cells[id].kind == KGroup
    ensures HasNamed(h, h.cells[id].kids) <==> h.cells[id].kids != []
  {
    assert NamesOk(h, id) && Linked(h, id);
    if h.cells[id].kids != [] {
      assert KidOk(h, id, h.cells[id].kids[0]);
    }
  }

  lemma {:induction false} FreshIs(h: Heap, id: int, name: Option<string>, kind: Kind, parent: int)
    requires id in h.cells && id < h.next && h.cells[id] == NewSetting(name, kind, Some(parent))
    ensures Abs(h, id) == Fresh(kind)
  {
  }

  // ---------- a setting taken out ----------

  // Out of a group goes the one member whose name is the given one up to its first separator.
  lemma {:induction false} RemovedMember(h: Heap, parent: int, name: string)
    requires Good(h) && parent in h.cells
    ensures parent < h.next && parent in RemoveByName(h, parent, name).cells && parent < RemoveByName(h, parent, name).next
    ensures var items := AllItems(h, parent);
      && (forall i :: 0 <= i < |items| && h.cells[parent].kind == KGroup && items[i].name == Some(Segment(name)) ==>
          AllItems(RemoveByName(h, parent, name), parent) == items[..i] + items[i + 1..])
      && ((h.cells[parent].kind == KGroup ==> forall i :: 0 <= i < |items| ==> items[i].name != Some(Segment(name))) ==>
          RemoveByName(h, parent, name) == h)
  {
    hide Good;
    hide Items;
    hide RemoveKid;
    GoodInRange(h, parent);
    var kids, items := h.cells[parent].kids, AllItems(h, parent);
    if h.cells[parent].kind == KGroup {
      forall i | 0 <= i < |kids|
        ensures Agrees(h, kids[i], name) <==> items[i].name == Some(Segment(name))
      {
        MemberAgrees(h, parent, name, i);
      }
      if HasMember(h, kids, name) {
        FirstMember(h, kids, name);
        var k :| FoundAt(h, kids, name, k) && RemoveByName(h, parent, name) == RemoveKid(h, parent, k);
        RemoveItems(h, parent, k);
        ParentIsLeft(h, parent, k);
        forall i | 0 <= i < |items| && items[i].name == Some(Segment(name))
          ensures i == k
        {
          if i != k { DifferentNames(h, parent, i, k); }
        }
      }
    }
  }

  // Out of any aggregate goes the element at an index, if there is one.
  lemma {:induction false} RemovedElement(h: Heap, parent: int, idx: int)
    requires Good(h) && parent in h.cells
    ensures parent < h.next && parent in RemoveByIndex(h, parent, idx).cells && parent < RemoveByIndex(h, parent, idx).next
    ensures var items := AllItems(h, parent);
      && (0 <= idx < |items| ==> AllItems(RemoveByIndex(h, parent, idx), parent) == items[..idx] + items[idx + 1..])
      && (!(0 <= idx < |items|) ==> RemoveByIndex(h, parent, idx) == h)
  {
    hide Good;
    hide Items;
    hide RemoveKid;
    GoodInRange(h, parent);
    if 0 <= idx < |h.cells[parent].kids| {
      RemoveItems(h, parent, idx);
      ParentIsLeft(h, parent, idx);
    }
  }

  lemma {:induction false} MemberAgrees(h: Heap, parent: int, name: string, i: nat)
    requires Good(h) && parent in h.cells && h.cells[parent].kind == KGroup && i < |h.cells[parent].kids|
    ensures parent < h.next
    ensures Agrees(h, h.cells[parent].kids[i], name) <==> AllItems(h, parent)[i].name == Some(Segment(name))
  {
    hide Items;
    GoodInRange(h, parent);
    ItemAt(h, parent, i);
    assert NamesOk(h, parent);
    ValidNameIsSegment(h.cells[h.cells[parent].kids[i]].name.value);
  }

  lemma {:induction false} DifferentNames(h: Heap, parent: int, i: nat, j: nat)
    requires Good(h) && parent in h.cells && h.cells[parent].kind == KGroup && parent < h.next
    requires i < |h.cells[parent].kids| && j < |h.cells[parent].kids| && i != j
    ensures AllItems(h, parent)[i].name != AllItems(h, parent)[j].name
  {
    hide Items;
    ItemAt(h, parent, i);
    ItemAt(h, parent, j);
    assert NamesOk(h, parent);
  }
}
