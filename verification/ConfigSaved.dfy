/** Configurations made by the library's operations, saved and read back. */
module ConfigSaved {
  import opened Wrappers
  import opened ConfigParser
  import opened ConfigHeap
  import opened ConfigGrowth
  import opened ConfigActions
  import opened ConfigRoundTrip
  import opened ConfigFile
  import opened ConfigRuns

  // Every setting has a type, truth values are 0 or 1 and no string is null: what the operations
  // do not see to.
  predicate Settled(c: Conf) {
    match c
    case NoneC => false
    case BoolC(i) => i == 0 || i == 1
    case StringC(s) => s.Some?
    case ListC(items) => forall i :: 0 <= i < |items| ==> Settled(items[i].conf)
    case ArrayC(items) => forall i :: 0 <= i < |items| ==> Settled(items[i].conf)
    case GroupC(items) => forall i :: 0 <= i < |items| ==> Settled(items[i].conf)
    case _ => true
  }

  // The invariants of the heap give everything else that printing asks for: valid and different
  // names, none in vectors, and arrays of scalars of one type.
  lemma {:induction false} GoodPrintable(h: Heap, id: int)
    requires Good(h) && id in h.cells
    ensures Printable(Abs(h, id)) <==> Settled(Abs(h, id))
    decreases h.next - id
  {
    hide Good;
    GoodInRange(h, id);
    var c := h.cells[id];
    if Aggregate(c.kind) {
      var items := AllItems(h, id);
      ItemsPrintable(h, id);
      GoodNames(h, id);
      if c.kind == KArray { GoodArray(h, id); }
      assert Abs(h, id) == Aggregated(c.kind, items);
      hide Abs;
      hide Items;
      AggregatePrintable(c.kind, items);
    }
  }

  lemma {:induction false} ItemsPrintable(h: Heap, id: int)
    requires Good(h) && id in h.cells && id < h.next
    ensures forall i :: 0 <= i < |AllItems(h, id)| ==>
      (Printable(AllItems(h, id)[i].conf) <==> Settled(AllItems(h, id)[i].conf))
    decreases h.next - id, 0
  {
    hide Printable;
    hide Settled;
    forall i | 0 <= i < |AllItems(h, id)|
      ensures Printable(AllItems(h, id)[i].conf) <==> Settled(AllItems(h, id)[i].conf)
    {
      var k := h.cells[id].kids[i];
      ItemAt(h, id, i);
      assert Linked(h, id) && KidOk(h, id, k);
      GoodPrintable(h, k);
    }
  }

  // Names as printing wants them.
  predicate NamedFor(kind: Kind, items: seq<Item>) {
    if kind == KGroup then
      && (forall i :: 0 <= i < |items| ==> items[i].name.Some? && ValidName(items[i].name.value))
      && (forall i, j :: 0 <= i < j < |items| ==> items[i].name != items[j].name)
    else forall i :: 0 <= i < |items| ==> items[i].name == None
  }

  predicate TypedFor(kind: Kind, items: seq<Item>) {
    kind == KArray ==> forall i :: 0 <= i < |items| ==>
      ScalarKind(KindOfConf(items[i].conf)) && KindOfConf(items[i].conf) == KindOfConf(items[0].conf)
  }

  lemma {:induction false} GoodNames(h: Heap, id: int)
    requires Good(h) && id in h.cells && id < h.next && Aggregate(h.cells[id].kind)
    ensures NamedFor(h.cells[id].kind, AllItems(h, id))
  {
    hide Items;
    hide Abs;
    hide ValidName;
    var c, items := h.cells[id], AllItems(h, id);
    assert NamesOk(h, id);
    forall i | 0 <= i < |items|
      ensures c.kids[i] in h.cells && items[i].name == h.cells[c.kids[i]].name
    {
      ItemAt(h, id, i);
    }
  }

  lemma {:induction false} GoodArray(h: Heap, id: int)
    requires Good(h) && id in h.cells && id < h.next && h.cells[id].kind == KArray
    ensures TypedFor(KArray, AllItems(h, id))
  {
    hide Items;
    hide Abs;
    var c, items := h.cells[id], AllItems(h, id);
    assert OneTyped(h, id);
    forall i | 0 <= i < |items|
      ensures c.kids[i] in h.cells && KindOfConf(items[i].conf) == h.cells[c.kids[i]].kind
    {
      ItemAt(h, id, i);
      AbsKind(h, c.kids[i]);
    }
  }

  lemma {:induction false} AggregatePrintable(kind: Kind, items: seq<Item>)
    requires Aggregate(kind) && NamedFor(kind, items) && TypedFor(kind, items)
    requires forall i :: 0 <= i < |items| ==> (Printable(items[i].conf) <==> Settled(items[i].conf))
    ensures Printable(Aggregated(kind, items)) <==> Settled(Aggregated(kind, items))
  {
    hide ValidName;
    assert kind == KGroup || kind == KArray || kind == KList;
    if kind == KArray {
      forall i | 0 <= i < |items|
        ensures ScalarConf(items[i].conf)
      {
        assert ScalarKind(KindOfConf(items[i].conf));
      }
    }
  }

  // ---------- after any run ----------

  // A configuration made by checked operations from an empty one, written and read back, is the
  // same again exactly if every setting has a type, truth values are 0 or 1, no string is null
  // and the nesting fits the parser.
  lemma {:induction false} SavedTokens(cmds: seq<Command>)
    requires CheckedRun(InitHeap(), cmds)
    ensures var h := Final(InitHeap(), cmds);
      && Good(h) && Abs(h, ROOT).GroupC?
      && (var items := Abs(h, ROOT).items;
          var v := Read(MemberTokens(items));
          v.Accepted? && Abs(v.ctx.heap, ROOT) == Abs(h, ROOT) <==> Settled(Abs(h, ROOT)) && Fits(items))
  {
    hide Read;
    hide Fits;
    hide Printable;
    hide Settled;
    var h := Final(InitHeap(), cmds);
    RunsFromEmpty(cmds);
    RootGroup(h);
    GoodPrintable(h, ROOT);
    RoundTrip(Abs(h, ROOT).items);
  }

  lemma {:induction false} RootGroup(h: Heap)
    requires Good(h)
    ensures ROOT in h.cells && Abs(h, ROOT).GroupC?
  {
    assert Linked(h, ROOT);
  }

  // The same for its text, on which names that are keywords are lost besides.
  lemma {:induction false} SavedText(cmds: seq<Command>, w: nat)
    requires CheckedRun(InitHeap(), cmds) && Writable(Abs(Final(InitHeap(), cmds), ROOT))
    ensures var c := Abs(Final(InitHeap(), cmds), ROOT);
      && c.GroupC? && Writable(GroupC(c.items))
      && (ReadBack(c.items, w) <==> Settled(c) && Fits(c.items) && KeywordFree(c))
  {
    hide ReadBack;
    hide Fits;
    hide Printable;
    hide Settled;
    hide KeywordFree;
    hide Writable;
    var h := Final(InitHeap(), cmds);
    RunsFromEmpty(cmds);
    RootGroup(h);
    GoodPrintable(h, ROOT);
    var c := Abs(h, ROOT);
    assert c == GroupC(c.items);
    FileRoundTrip(c.items, w);
  }
}
