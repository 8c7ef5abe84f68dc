/** Any sequence of operations on settings, and which of them keep the invariants. */
module ConfigRuns {
  import opened Wrappers
  import opened ConfigHeap
  import opened ConfigGrowth
  import opened ConfigRemoval

  datatype Command =
    | AddSetting(parent: int, name: Option<string>, kind: Kind)
    | RemoveNamed(parent: int, path: string)
    | RemoveElem(parent: int, idx: int)
    | Store(id: int, v: NewValue)
    | StoreElem(vector: int, idx: int, v: NewValue)
    | Reformat(id: int, format: Format)
  {
    function Target(): int {
      match this
      case AddSetting(p, _, _) => p
      case RemoveNamed(p, _) => p
      case RemoveElem(p, _) => p
      case Store(id, _) => id
      case StoreElem(v, _, _) => v
      case Reformat(id, _) => id
    }
  }

  // config_setting_remove
  ghost function RemoveByName(h: Heap, parent: int, name: string): Heap
    requires parent in h.cells
  {
    var p := h.cells[parent];
    if p.kind == KGroup && HasMember(h, p.kids, name) then
      FirstMember(h, p.kids, name);
      var i :| FoundAt(h, p.kids, name, i);
      RemoveKid(h, parent, i)
    else h
  }

  lemma {:induction false} FirstMember(h: Heap, kids: seq<int>, name: string)
    requires HasMember(h, kids, name)
    ensures exists i :: FoundAt(h, kids, name, i)
  {
    var i := 0;
    while !Agrees(h, kids[i], name)
      invariant 0 <= i < |kids| && forall j :: 0 <= j < i ==> !Agrees(h, kids[j], name)
      decreases |kids| - i
    {
      assert i + 1 < |kids|;
      i := i + 1;
    }
    assert FoundAt(h, kids, name, i);
  }

  // config_setting_remove_elem
  function RemoveByIndex(h: Heap, parent: int, idx: int): Heap
    requires parent in h.cells
  {
    if Aggregate(h.cells[parent].kind) && 0 <= idx < |h.cells[parent].kids| then RemoveKid(h, parent, idx) else h
  }

  ghost function Apply(h: Heap, cmd: Command): Heap
    requires cmd.Target() in h.cells
  {
    match cmd
    case AddSetting(p, name, kind) => (match Add(h, p, name, kind) case Added(h') => h' case _ => h)
    case RemoveNamed(p, name) => RemoveByName(h, p, name)
    case RemoveElem(p, idx) => RemoveByIndex(h, p, idx)
    case Store(id, v) =>
      (match SetScalar(h.cells[id], v) case None => h case Some(c) => h.(cells := h.cells[id := c]))
    case StoreElem(id, idx, v) => (match SetElem(h, id, idx, v) case None => h case Some((h', _)) => h')
    case Reformat(id, format) => h.(cells := h.cells[id := SetFormat(h.cells[id], format)])
  }

  // The library does not check two things when a setting is added: that a member of a group is
  // given a name at all, and that an element of an array fits the others.
  ghost predicate Checked(h: Heap, cmd: Command)
    requires cmd.Target() in h.cells
  {
    cmd.AddSetting? ==>
      && (h.cells[cmd.parent].kind == KGroup ==> cmd.name.Some?)
      && (h.cells[cmd.parent].kind == KArray ==> ScalarKind(cmd.kind) && CheckType(h, h.cells[cmd.parent], cmd.kind))
  }

  ghost predicate Dereferencable(h: Heap, cmd: Command)
    requires cmd.Target() in h.cells
  {
    cmd.AddSetting? ==> !Add(h, cmd.parent, cmd.name, cmd.kind).Crashes?
  }

  lemma {:induction false} ElementGood(h: Heap, vector: int, v: NewValue)
    requires Good(h) && vector in h.cells && Vector(h.cells[vector].kind) && CheckType(h, h.cells[vector], v.KindOf())
    ensures SetElem(h, vector, -1, v).Some? && Good(SetElem(h, vector, -1, v).value.0)
  {
    hide Good;
    var h1 := Create(h, vector, None, v.KindOf());
    GoodInRange(h, vector);
    CreateExtends(h, vector, None, v.KindOf());
    FillGood(h1, h.next, h1.cells[h.next].(value := v.Stored()));
  }

  lemma {:induction false} StoreGood(h: Heap, id: int, c: Setting)
    requires Good(h) && id in h.cells
    requires c.name == h.cells[id].name && c.parent == h.cells[id].parent && c.kids == h.cells[id].kids
    requires !Aggregate(h.cells[id].kind) && !Aggregate(c.kind)
    requires c.kind == h.cells[id].kind || h.cells[id].kind == KNone
    ensures Good(h.(cells := h.cells[id := c]))
  {
    hide Good;
    GoodInRange(h, id);
    RootIsGroup(h);
    if h.cells[id].kind == KNone { NotInArray(h, id); }
    FillGood(h, id, c);
  }

  lemma RootIsGroup(h: Heap)
    requires Good(h)
    ensures ROOT in h.cells && h.cells[ROOT].kind == KGroup
  {
  }

  // An element of an array has a type.
  lemma {:induction false} NotInArray(h: Heap, id: int)
    requires Good(h) && id in h.cells && h.cells[id].kind == KNone
    ensures h.cells[id].parent.Some? && h.cells[id].parent.value in h.cells
    ensures h.cells[h.cells[id].parent.value].kind != KArray
  {
    assert Linked(h, id);
    var p := h.cells[id].parent.value;
    assert OneTyped(h, p);
    var i :| 0 <= i < |h.cells[p].kids| && h.cells[p].kids[i] == id;
  }

  // Whatever is called on settings that are there, the invariants hold afterwards exactly if
  // the call is one of the checked ones.
  lemma {:induction false} ApplyGood(h: Heap, cmd: Command)
    requires Good(h) && cmd.Target() in h.cells && Dereferencable(h, cmd)
    ensures Good(Apply(h, cmd)) <==> Checked(h, cmd)
  {
    hide Good;
    match cmd
    case AddSetting(p, name, kind) => AddGood(h, p, name, kind);
    case RemoveNamed(p, name) =>
      if h.cells[p].kind == KGroup && HasMember(h, h.cells[p].kids, name) {
        FirstMember(h, h.cells[p].kids, name);
        var i :| FoundAt(h, h.cells[p].kids, name, i) && RemoveByName(h, p, name) == RemoveKid(h, p, i);
        RemoveGood(h, p, i);
      }
    case RemoveElem(p, idx) =>
      if Aggregate(h.cells[p].kind) && 0 <= idx < |h.cells[p].kids| { RemoveGood(h, p, idx); }
    case Store(id, v) =>
      if SetScalar(h.cells[id], v).Some? { StoreGood(h, id, SetScalar(h.cells[id], v).value); }
    case StoreElem(id, idx, v) =>
      if Vector(h.cells[id].kind) {
        if idx < 0 {
          if CheckType(h, h.cells[id], v.KindOf()) { ElementGood(h, id, v); }
        } else if SetElem(h, id, idx, v).Some? {
          var e := GetElem(h, id, idx).value;
          StoreGood(h, e, SetScalar(h.cells[e], v).value);
        }
      }
    case Reformat(id, format) =>
      if h.cells[id].kind == KInt || h.cells[id].kind == KInt64 {
        StoreGood(h, id, SetFormat(h.cells[id], format));
      } else {
        assert h.cells[id := h.cells[id]] == h.cells;
      }
  }

  lemma {:induction false} AddGood(h: Heap, parent: int, name: Option<string>, kind: Kind)
    requires Good(h) && parent in h.cells && !Add(h, parent, name, kind).Crashes?
    ensures Good(Apply(h, AddSetting(parent, name, kind))) <==> Checked(h, AddSetting(parent, name, kind))
  {
    hide Good;
    var p := h.cells[parent];
    GoodInRange(h, parent);
    if Add(h, parent, name, kind).Added? {
      var name' := if Vector(p.kind) then None else name;
      if Checked(h, AddSetting(parent, name, kind)) {
        CreateExtends(h, parent, name', kind);
      } else if p.kind == KGroup {
        UnnamedMember(h, parent, kind);
      } else {
        MistypedElement(h, parent, kind);
      }
    }
  }

  lemma {:induction false} UnnamedMember(h: Heap, parent: int, kind: Kind)
    requires Good(h) && parent in h.cells && h.cells[parent].kind == KGroup
    ensures !Good(Create(h, parent, None, kind))
  {
    var h' := Create(h, parent, None, kind);
    GoodInRange(h, parent);
    var n := |h.cells[parent].kids|;
    assert h'.cells[parent].kids[n] == h.next;
    assert !NamesOk(h', parent);
  }

  lemma {:induction false} MistypedElement(h: Heap, parent: int, kind: Kind)
    requires Good(h) && parent in h.cells && h.cells[parent].kind == KArray
    requires !ScalarKind(kind) || !CheckType(h, h.cells[parent], kind)
    ensures !Good(Create(h, parent, None, kind))
  {
    var h' := Create(h, parent, None, kind);
    GoodInRange(h, parent);
    KidsAreOld(h, parent);
    var n := |h.cells[parent].kids|;
    assert h'.cells[parent].kids[n] == h.next && h'.cells[h.next].kind == kind;
    assert n > 0 ==> h'.cells[parent].kids[0] == h.cells[parent].kids[0];
    assert !OneTyped(h', parent);
  }

  // ---------- runs ----------

  ghost function Final(h: Heap, cmds: seq<Command>): Heap
    decreases |cmds|
  {
    if cmds == [] then h
    else if cmds[0].Target() !in h.cells then h
    else Final(Apply(h, cmds[0]), cmds[1..])
  }

  // Every command of a run is called on a setting that is there, and is a checked one.
  ghost predicate CheckedRun(h: Heap, cmds: seq<Command>)
    decreases |cmds|
  {
    cmds == [] ||
    (cmds[0].Target() in h.cells && Dereferencable(h, cmds[0]) && Checked(h, cmds[0])
     && CheckedRun(Apply(h, cmds[0]), cmds[1..]))
  }

  // From an empty configuration on, links, names and array types are always right.
  lemma {:induction false} RunsGood(h: Heap, cmds: seq<Command>)
    requires Good(h) && CheckedRun(h, cmds)
    ensures Good(Final(h, cmds))
    decreases |cmds|
  {
    hide Good;
    if cmds != [] {
      ApplyGood(h, cmds[0]);
      RunsGood(Apply(h, cmds[0]), cmds[1..]);
    }
  }

  lemma {:induction false} RunsFromEmpty(cmds: seq<Command>)
    requires CheckedRun(InitHeap(), cmds)
    ensures Good(Final(InitHeap(), cmds))
  {
    assert Good(InitHeap());
    RunsGood(InitHeap(), cmds);
  }
}
