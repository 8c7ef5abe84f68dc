/** The cursors ctx->parent and ctx->setting while any input at all is read. */
module ConfigCursors {
  import opened Wrappers
  import opened ConfigTables
  import opened ConfigParser
  import opened ConfigHeap
  import opened ConfigGrowth
  import opened ConfigActions

  // Whether the input is well formed or not, they always agree with the brackets open on the
  // parser's stack, so no action ever uses a null cursor, and the settings keep their invariants
  // even when the parse ends in an error.

  // The states entered by the mid-rule actions that move the cursor down.
  predicate Opens(s: int) {
    s in {25, 26, 27}
  }

  function KindOpened(s: int): Kind {
    if s == 25 then KArray else if s == 26 then KList else KGroup
  }

  // The type of the innermost aggregate open on the stack.
  function Scope(states: seq<int>): Kind
    requires states != []
  {
    if |states| == 1 then KGroup
    else if Opens(Last(states)) then KindOpened(Last(states))
    else Scope(states[..|states| - 1])
  }

  // The cursor, its parent, the parent of that and so on up to the root are of the types of the
  // aggregates open on the stack.
  ghost predicate Cursors(states: seq<int>, h: Heap, parent: Option<int>)
    requires states != []
  {
    && parent.Some? && parent.value in h.cells
    && if |states| == 1 then parent.value == ROOT
       else if Opens(Last(states)) then
         h.cells[parent.value].kind == KindOpened(Last(states))
         && Cursors(states[..|states| - 1], h, h.cells[parent.value].parent)
       else Cursors(states[..|states| - 1], h, parent)
  }

  // A setting has been named and its value not been stored yet.
  predicate Pending(states: seq<int>)
    requires states != []
  {
    Last(states) in {5, 8} ||
    (|states| > 1 && (9 <= Last(states) <= 18 || Last(states) in {22, 29}) && Pending(states[..|states| - 1]))
  }

  ghost predicate NewlyNamed(c: Ctx) {
    && c.setting.Some? && c.setting.value in c.heap.cells && c.setting.value != ROOT
    && c.heap.cells[c.setting.value].kind == KNone && c.heap.cells[c.setting.value].kids == []
    && c.heap.cells[c.setting.value].parent == c.parent
  }

  ghost predicate Safe(states: seq<int>, c: Ctx) {
    && states != [] && Chain(states)
    && Good(c.heap) && !c.fault
    && Cursors(states, c.heap, c.parent)
    && (Pending(states) ==> NewlyNamed(c))
    && (Last(states) in {22, 29} || c.text == "")
  }

  // The values of the tokens on the stack.
  ghost predicate TokenVals(states: seq<int>, vals: seq<Val>) {
    && |states| == |vals|
    && forall i :: 0 < i < |states| && YyStos(states[i]) < YYNTOKENS ==>
      (vals[i].Sem? && vals[i].token.Symbol() == YyStos(states[i]))
  }

  lemma {:induction false} ScopeOfCursor(states: seq<int>, h: Heap, parent: Option<int>)
    requires states != [] && WellFormed(h) && Cursors(states, h, parent)
    ensures h.cells[parent.value].kind == Scope(states)
    decreases |states|
  {
    if |states| > 1 && !Opens(Last(states)) {
      ScopeOfCursor(states[..|states| - 1], h, parent);
    }
  }

  predicate InGroup(s: int) {
    s in {0, 1, 2, 3, 4, 5, 7, 8, 21, 27, 28, 36, 37, 42}
  }

  predicate InArray(s: int) {
    s in {25, 30, 31, 32, 38, 39, 43}
  }

  predicate InList(s: int) {
    s in {26, 33, 34, 35, 40, 41, 44}
  }

  // The state on top tells what is open, except while a value is being read; then the state
  // below does.
  lemma {:induction false} ScopeOfState(states: seq<int>)
    requires Chain(states)
    ensures InGroup(Last(states)) ==> Scope(states) == KGroup
    ensures InArray(Last(states)) ==> Scope(states) == KArray
    ensures InList(Last(states)) ==> Scope(states) == KList
    decreases |states|
  {
    if |states| > 1 { ScopeOfState(states[..|states| - 1]); }
  }

  lemma {:induction false} ValueContext(states: seq<int>)
    requires Chain(states) && (9 <= Last(states) <= 18 || Last(states) == 22)
    ensures |states| > 1
    ensures if Pending(states) then Scope(states) == KGroup else Vector(Scope(states))
    ensures !Pending(states) && 16 <= Last(states) <= 18 ==> Scope(states) == KList
  {
    var below := states[..|states| - 1];
    ScopeOfState(below);
    assert Last(below) in {8, 25, 26, 38, 40};
    assert Scope(states) == Scope(below);
    assert Pending(below) <==> Last(below) == 8;
  }

  // Settings on the way up keep their type and parent.
  ghost predicate KeepsAggregates(h: Heap, h': Heap) {
    forall j :: j in h.cells ==>
      && j in h'.cells && h'.cells[j].parent == h.cells[j].parent
      && (Aggregate(h.cells[j].kind) ==> h'.cells[j].kind == h.cells[j].kind)
  }

  lemma {:induction false} CursorsStable(states: seq<int>, h: Heap, h': Heap, parent: Option<int>)
    requires states != [] && KeepsAggregates(h, h') && Cursors(states, h, parent)
    ensures Cursors(states, h', parent)
    decreases |states|
  {
    var p := parent.value;
    assert p in h'.cells && h'.cells[p].parent == h.cells[p].parent;
    if |states| > 1 {
      CursorsStable(states[..|states| - 1], h, h', if Opens(Last(states)) then h.cells[parent.value].parent else parent);
    }
  }

  // Popping states that opened nothing leaves the cursor where it is.
  lemma {:induction false} PopCursors(states: seq<int>, k: nat, h: Heap, parent: Option<int>)
    requires k < |states| && Cursors(states, h, parent)
    requires forall i :: |states| - k <= i < |states| ==> !Opens(states[i])
    ensures Cursors(states[..|states| - k], h, parent)
    decreases k
  {
    if k == 0 {
      assert states[..|states|] == states;
    } else {
      var below := states[..|states| - 1];
      PopCursors(below, k - 1, h, parent);
      assert below[..|below| - (k - 1)] == states[..|states| - k];
    }
  }

  // ---------- one turn of the loop ----------

  // In which state a rule with an action is reduced.
  lemma ActionStates(s: int, rule: int)
    requires 2 <= rule <= 36 && LrItem(s, rule, YyR2(rule))
    ensures rule == 8 ==> s == 1
    ensures rule in {10, 12, 35} ==> 16 <= s <= 18
    ensures rule == 11 ==> s == 39
    ensures rule == 13 ==> s == 41
    ensures rule == 36 ==> s == 42
    ensures rule == 18 ==> s == 15
    ensures rule == 19 ==> s == 29
    ensures 20 <= rule <= 25 ==> 9 <= s <= 14
    ensures rule == 26 ==> s == 22
    ensures rule == 20 ==> YyStos(s) == 3
    ensures rule == 21 ==> YyStos(s) == 4
    ensures rule == 22 ==> YyStos(s) == 6
    ensures rule == 23 ==> YyStos(s) == 5
    ensures rule == 24 ==> YyStos(s) == 7
    ensures rule == 25 ==> YyStos(s) == 8
  {
  }

  ghost predicate SafeReply(states: seq<int>, r: Reply<Ctx>) {
    match r
    case Abort(c) => Good(c.heap) && !c.fault
    case Continue(c) => Safe(states, c)
  }

  // Rules without an action that moves the cursor or stores a value.
  lemma {:induction false} PlainReduce(states: seq<int>, rule: int, len: nat, q: int, c: Ctx)
    requires Safe(states, c) && 2 <= rule <= 36 && len == YyR2(rule) && LrItem(Last(states), rule, len)
    requires rule !in {8, 10, 11, 12, 13, 18, 19, 35, 36} && !(20 <= rule <= 26)
    requires len < |states| && Chain(states[..|states| - len] + [q]) && YyStos(q) == YyR1(rule)
    ensures Safe(states[..|states| - len] + [q], c)
  {
    hide Good;
    hide Link;
    hide LrItem;
    NoBrackets(rule, Last(states));
    var below := states[..|states| - len];
    HandleOnTop(states, rule, len);
    forall i | |states| - len <= i < |states|
      ensures !Opens(states[i])
    {
      assert YyStos(states[|states| - len + (i - (|states| - len))]) == RhsAt(rule, i - (|states| - len));
      OpensSymbol(states[i]);
    }
    PopCursors(states, len, c.heap, c.parent);
    OpensSymbol(q);
    assert (below + [q])[..|below|] == below;
  }

  lemma OpensSymbol(s: int)
    ensures Opens(s) <==> YyStos(s) in {30, 32, 41}
    ensures s == 5 ==> YyStos(s) == 28
    ensures s in {8, 29} || 9 <= s <= 18 ==> YyStos(s) < YYNTOKENS
    ensures s == 22 ==> YyStos(s) == 34
  {
  }

  // No rule of these pops a bracket's mid-rule action or makes anything a value is waited for.
  lemma NoBrackets(rule: int, s: int)
    requires 2 <= rule <= 36 && LrItem(s, rule, YyR2(rule))
    requires rule !in {8, 10, 11, 12, 13, 18, 19, 35, 36} && !(20 <= rule <= 26)
    ensures YyR1(rule) >= YYNTOKENS && YyR1(rule) !in {28, 30, 32, 34, 41}
    ensures forall j :: 0 <= j < YyR2(rule) ==> RhsAt(rule, j) !in {30, 32, 41}
    ensures s !in {22, 29}
  {
  }

  lemma {:induction false} PushSafe(below: seq<int>, q: int, c: Ctx)
    requires Chain(below + [q]) && below != [] && !Opens(q)
    requires Good(c.heap) && !c.fault && Cursors(below, c.heap, c.parent)
    requires Pending(below + [q]) ==> NewlyNamed(c)
    requires q in {22, 29} || c.text == ""
    ensures Safe(below + [q], c)
  {
    hide Good;
    assert (below + [q])[..|below|] == below;
  }

  lemma {:induction false} NameReduce(states: seq<int>, val: Val, c: Ctx)
    requires Safe(states, c) && Last(states) == 1 && Chain(states + [5])
    requires val.Sem? && val.token.TokName?
    ensures SafeReply(states + [5], Act(8, val, c))
  {
    hide Good;
    hide Chain;
    ScopeOfState(states);
    ScopeOfCursor(states, c.heap, c.parent) by { GoodIsWellFormed(c.heap); }
    NameSetting(val.token.sval, c);
    var r := BeginSetting(val.token.sval, c);
    if r.Continue? {
      CreateExtends(c.heap, c.parent.value, Some(val.token.sval), KNone);
      CursorsStable(states, c.heap, r.ctx.heap, c.parent);
      PushSafe(states, 5, r.ctx);
    } else {
      RefusedKeepsHeap(val.token.sval, c);
    }
  }

  lemma GoodIsWellFormed(h: Heap)
    requires Good(h)
    ensures WellFormed(h)
  {
  }

  lemma RefusedKeepsHeap(name: string, c: Ctx)
    requires BeginSetting(name, c).Abort?
    ensures BeginSetting(name, c).ctx.heap == c.heap
  {
  }

  lemma {:induction false} OpenReduce(states: seq<int>, rule: int, q: int, val: Val, c: Ctx)
    requires Safe(states, c) && 16 <= Last(states) <= 18 && Chain(states + [q])
    requires (rule == 10 && q == 25) || (rule == 12 && q == 26) || (rule == 35 && q == 27)
    ensures SafeReply(states + [q], Act(rule, val, c))
  {
    hide Good;
    hide Chain;
    hide Pending;
    ValueContext(states);
    ScopeOfCursor(states, c.heap, c.parent) by { GoodIsWellFormed(c.heap); }
    var kind := KindOpened(q);
    OpenWorks(kind, c);
    var c1 := OpenAggregate(kind, c).ctx;
    assert (states + [q])[..|states|] == states;
    GoodInRange(c.heap, c.parent.value);
    CursorsStable(states, c.heap, c1.heap, c.parent);
    assert !Pending(states + [q]) by { NotPending(states, q); }
    assert c1.text == "";
  }

  lemma NotPending(states: seq<int>, q: int)
    requires q !in {5, 8, 22, 29} && !(9 <= q <= 18)
    ensures !Pending(states + [q])
  {
  }

  lemma {:induction false} CloseReduce(states: seq<int>, rule: int, q: int, val: Val, c: Ctx)
    requires Safe(states, c) && rule in {11, 13, 36} && LrItem(Last(states), rule, 4) && |states| > 4
    requires Chain(states[..|states| - 4] + [q]) && YyStos(q) == YyR1(rule) && Last(states) !in {22, 29}
    ensures SafeReply(states[..|states| - 4] + [q], Act(rule, val, c))
  {
    hide Good;
    hide Chain;
    hide Cursors;
    hide LrItem;
    var n := |states|;
    BracketStates(states, rule);
    PopCursors(states, 2, c.heap, c.parent);
    var s2, below := states[..n - 2], states[..n - 4];
    CursorUp(s2, c.heap, c.parent);
    var up := c.heap.cells[c.parent.value].parent;
    assert s2[..n - 3] == states[..n - 3];
    PopCursors(states[..n - 3], 1, c.heap, up);
    assert states[..n - 3][..n - 4] == below;
    OpensSymbol(q);
    NotPending(below, q);
    PushSafe(below, q, c.(parent := up));
  }

  lemma {:induction false} BracketStates(states: seq<int>, rule: int)
    requires Chain(states) && rule in {11, 13, 36} && LrItem(Last(states), rule, 4) && |states| > 4
    ensures Opens(states[|states| - 3])
    ensures !Opens(states[|states| - 1]) && !Opens(states[|states| - 2]) && !Opens(states[|states| - 4])
  {
    hide Chain;
    hide LrItem;
    HandleOnTop(states, rule, 4);
    var n := |states|;
    assert YyStos(states[n - 4]) == RhsAt(rule, 0) && YyStos(states[n - 3]) == RhsAt(rule, 1);
    assert YyStos(states[n - 2]) == RhsAt(rule, 2) && YyStos(states[n - 1]) == RhsAt(rule, 3);
    OpensSymbol(states[n - 4]);
    OpensSymbol(states[n - 3]);
    OpensSymbol(states[n - 2]);
    OpensSymbol(states[n - 1]);
  }

  lemma CursorUp(states: seq<int>, h: Heap, parent: Option<int>)
    requires |states| > 1 && Opens(Last(states)) && Cursors(states, h, parent)
    ensures parent.Some? && parent.value in h.cells
    ensures Cursors(states[..|states| - 1], h, h.cells[parent.value].parent)
  {
  }

  lemma {:induction false} TextReduce(states: seq<int>, rule: int, len: nat, val: Val, c: Ctx)
    requires Safe(states, c) && val.Sem? && val.token.TokString?
    requires (rule == 18 && len == 1 && Last(states) == 15) || (rule == 19 && len == 2 && Last(states) == 29)
    requires len < |states| && Chain(states[..|states| - len] + [22])
    ensures SafeReply(states[..|states| - len] + [22], Act(rule, val, c))
  {
    hide Good;
    var below, top := states[..|states| - len], states[..|states| - 1];
    assert rule == 19 ==> top[..|top| - 1] == below && Last(top) == 22;
    PopCursors(states, len, c.heap, c.parent);
    assert (below + [22])[..|below|] == below;
    assert Pending(below + [22]) == Pending(below) == Pending(states);
    PushSafe(below, 22, Act(rule, val, c).ctx);
  }

  lemma {:induction false} StoreReduce(states: seq<int>, v: NewValue, format: Format, q: int, c: Ctx)
    requires Safe(states, c) && (9 <= Last(states) <= 14 || Last(states) == 22)
    requires |states| > 1 && Chain(states[..|states| - 1] + [q]) && YyStos(q) == 35
    ensures SafeReply(states[..|states| - 1] + [q], StoreScalar(v, format, c.(text := "")))
  {
    hide Good;
    hide Chain;
    hide StoreScalar;
    hide Cursors;
    hide Pending;
    var below := states[..|states| - 1];
    ValueContext(states);
    ScopeOfCursor(states, c.heap, c.parent) by { GoodIsWellFormed(c.heap); }
    var c0 := c.(text := "");
    CursorThere(states, c.heap, c.parent);
    assert Clean(c0);
    if Pending(states) {
      StoreInSetting(v, format, c0);
    } else {
      StoreElement(v, format, c0);
    }
    var r := StoreScalar(v, format, c0);
    if r.Abort? {
      AbortKeepsHeap(v, format, c0);
    } else {
      PopCursors(states, 1, c.heap, c.parent);
      assert KeepsAggregates(c.heap, r.ctx.heap);
      CursorsStable(below, c.heap, r.ctx.heap, c.parent);
      OpensSymbol(q);
      NotPending(below, q);
      PushSafe(below, q, r.ctx);
    }
  }

  lemma CursorThere(states: seq<int>, h: Heap, parent: Option<int>)
    requires states != [] && Cursors(states, h, parent)
    ensures parent.Some? && parent.value in h.cells
  {
  }

  lemma AbortKeepsHeap(v: NewValue, format: Format, c: Ctx)
    requires StoreScalar(v, format, c).Abort?
    ensures StoreScalar(v, format, c).ctx.heap == c.heap
  {
  }

  // ---------- the whole parse ----------

  lemma {:induction false} ReduceSafe(states: seq<int>, rule: int, len: nat, q: int, val: Val, c: Ctx)
    requires Safe(states, c) && 2 <= rule <= 36 && len == YyR2(rule) && LrItem(Last(states), rule, len)
    requires len < |states| && Chain(states[..|states| - len] + [q]) && YyStos(q) == YyR1(rule)
    requires Last(states) != 0 && YyStos(Last(states)) < YYNTOKENS ==>
      val.Sem? && val.token.Symbol() == YyStos(Last(states))
    ensures SafeReply(states[..|states| - len] + [q], Act(rule, val, c))
  {
    hide Safe;
    hide Chain;
    hide LrItem;
    hide StoreScalar;
    ActionStates(Last(states), rule);
    StateOfSymbol(q);
    assert len == 0 ==> states[..|states| - len] == states;
    if rule == 8 {
      NameReduce(states, val, c);
    } else if rule in {10, 12, 35} {
      OpenReduce(states, rule, q, val, c);
    } else if rule in {11, 13, 36} {
      CloseReduce(states, rule, q, val, c);
    } else if rule in {18, 19} {
      TextReduce(states, rule, len, val, c);
    } else if 20 <= rule <= 25 {
      var (v, format) := ScalarToken(rule, val).value;
      NoText(states, c);
      StoreReduce(states, v, format, q, c);
    } else if rule == 26 {
      StoreReduce(states, NewString(Some(c.text)), Plain, q, c);
    } else {
      PlainReduce(states, rule, len, q, c);
    }
  }

  lemma NoText(states: seq<int>, c: Ctx)
    requires Safe(states, c) && Last(states) !in {22, 29}
    ensures c.(text := "") == c
  {
  }

  lemma StateOfSymbol(q: int)
    ensures YyStos(q) == 28 ==> q == 5
    ensures YyStos(q) == 30 ==> q == 25
    ensures YyStos(q) == 32 ==> q == 26
    ensures YyStos(q) == 41 ==> q == 27
    ensures YyStos(q) == 34 ==> q == 22
  {
  }


  ghost predicate SafeMachine(m: Machine<Ctx>) {
    Inv(m) && Safe(m.states, m.ctx) && TokenVals(m.states, m.vals)
  }

  lemma {:induction false} TopToken(states: seq<int>, vals: seq<Val>)
    requires Chain(states) && TokenVals(states, vals) && Last(states) != 0 && YyStos(Last(states)) < YYNTOKENS
    ensures Last(vals).Sem? && Last(vals).token.Symbol() == YyStos(Last(states))
  {
    hide YyStos;
  }

  lemma {:induction false} PushVals(states: seq<int>, vals: seq<Val>, k: nat, q: int, val: Val)
    requires TokenVals(states, vals) && k < |states|
    requires YyStos(q) < YYNTOKENS ==> val.Sem? && val.token.Symbol() == YyStos(q)
    ensures TokenVals(states[..|states| - k] + [q], vals[..|states| - k] + [val])
  {
    hide YyStos;
  }

  lemma {:induction false} ShiftSafe(states: seq<int>, q: int, c: Ctx)
    requires Safe(states, c) && Chain(states + [q]) && Link(Last(states), q) && YyStos(q) < YYNTOKENS
    ensures Safe(states + [q], c)
  {
    hide Good;
    hide Chain;
    assert (states + [q])[..|states|] == states;
    OpensSymbol(q);
    ShiftContext(Last(states), q);
    PushSafe(states, q, c);
  }

  // A value in progress is one only while its tokens are being shifted.
  lemma ShiftContext(s: int, q: int)
    requires Link(s, q) && YyStos(q) < YYNTOKENS
    ensures s in {22, 29} ==> q == 29
    ensures q == 8 ==> s == 5
    ensures q != 5
  {
  }

  ghost predicate SafeStacks(m: Machine<Ctx>) {
    Safe(m.states, m.ctx) && TokenVals(m.states, m.vals)
  }

  // A turn ends in a safe machine or leaves good settings.
  ghost predicate SafeTurn(turn: Turn<Ctx>) {
    match turn
    case Goes(m') => SafeStacks(m')
    case Stops(v) => Good(v.ctx.heap) && !v.ctx.fault
  }

  lemma {:induction false} StepSafely(m: Machine<Ctx>)
    requires SafeMachine(m)
    ensures match Step(m, ACT)
            case Goes(m') => SafeMachine(m')
            case Stops(v) => Good(v.ctx.heap) && !v.ctx.fault
  {
    hide Chain;
    hide Action;
    hide Safe;
    hide TokenVals;
    hide Step;
    StepInv(m, ACT);
    assert SafeTurn(Step(m, ACT)) by {
      match Action(Last(m.states), Peek(m.rest))
      case Shift(_) => ShiftStep(m);
      case Reduce(_) => ReduceStep(m);
      case _ => StopStep(m);
    }
  }

  lemma {:induction false} StopStep(m: Machine<Ctx>)
    requires SafeMachine(m)
    requires var a := Action(Last(m.states), Peek(m.rest)); !a.Shift? && !a.Reduce?
    ensures SafeTurn(Step(m, ACT))
  {
    hide Action;
    hide Safe;
    hide TokenVals;
    SafeHeap(m.states, m.ctx);
  }

  lemma {:induction false} ShiftStep(m: Machine<Ctx>)
    requires SafeMachine(m) && Action(Last(m.states), Peek(m.rest)).Shift?
    ensures SafeTurn(Step(m, ACT))
  {
    hide Chain;
    hide Link;
    hide Action;
    hide YyStos;
    hide Safe;
    hide TokenVals;
    hide Push;
    StepSafe(m);
    var s, t := Last(m.states), Peek(m.rest);
    var q := Action(s, t).state;
    LastIsState(m.states);
    ShiftFact(s, t);
    PushChain(m.states, q);
    ShiftSafe(m.states, q, m.ctx);
    TokenSizes(m);
    assert m.states[..|m.states| - 0] == m.states && m.vals[..|m.states| - 0] == m.vals;
    PushVals(m.states, m.vals, 0, q, Sem(m.rest[0]));
    PushSafely(m.(rest := m.rest[1..]), q, Sem(m.rest[0]));
  }

  lemma {:induction false} ReduceStep(m: Machine<Ctx>)
    requires SafeMachine(m) && Action(Last(m.states), Peek(m.rest)).Reduce?
    ensures SafeTurn(Step(m, ACT))
  {
    hide Chain;
    hide LrItem;
    hide Action;
    hide Goto;
    hide YyStos;
    hide YyR1;
    hide YyR2;
    hide Safe;
    hide SafeReply;
    hide TokenVals;
    hide Act;
    hide Push;
    StepSafe(m);
    var s, t := Last(m.states), Peek(m.rest);
    var rule := Action(s, t).rule;
    LastIsState(m.states);
    ReduceFact(s, t);
    AfterReduce(m.states, t);
    var len := YyR2(rule);
    var base := |m.states| - len;
    var q := Goto(m.states[base - 1], YyR1(rule));
    if s != 0 && YyStos(s) < YYNTOKENS { TopToken(m.states, m.vals); }
    ReduceSafe(m.states, rule, len, q, Last(m.vals), m.ctx);
    LhsIsNonterminal(rule);
    var val := if len == 0 then Garbage else m.vals[base];
    PushVals(m.states, m.vals, len, q, val);
    ReplyMeans(m.states[..base] + [q], Act(rule, Last(m.vals), m.ctx));
    match Act(rule, Last(m.vals), m.ctx)
    case Abort(_) =>
    case Continue(c) => PushSafely(Machine(m.states[..base], m.vals[..base], m.rest, c), q, val);
  }

  lemma {:induction false} PushSafely(m: Machine<Ctx>, q: int, val: Val)
    requires Safe(m.states + [q], m.ctx) && TokenVals(m.states + [q], m.vals + [val])
    ensures SafeTurn(Push(m, q, val))
  {
    hide Safe;
    hide TokenVals;
    SafeHeap(m.states + [q], m.ctx);
  }

  lemma SafeHeap(states: seq<int>, c: Ctx)
    requires Safe(states, c)
    ensures Good(c.heap) && !c.fault
  {
  }

  lemma ReplyMeans(states: seq<int>, r: Reply<Ctx>)
    requires SafeReply(states, r)
    ensures match r
            case Abort(c) => Good(c.heap) && !c.fault
            case Continue(c) => Safe(states, c)
  {
  }

  lemma TokenSizes(m: Machine<Ctx>)
    requires TokenVals(m.states, m.vals)
    ensures |m.states| == |m.vals|
  {
  }

  lemma LhsIsNonterminal(rule: int)
    requires 2 <= rule <= 36
    ensures YyR1(rule) >= YYNTOKENS
  {
  }

  lemma {:induction false} RunSafely(m: Machine<Ctx>)
    requires SafeMachine(m)
    ensures Good(Run(m, ACT).ctx.heap) && !Run(m, ACT).ctx.fault
    decreases Measure(m)
  {
    hide SafeMachine;
    hide Good;
    hide Step;
    hide Measure;
    assert Inv(m) by { SafeInv(m); }
    StepSafely(m);
    StepInv(m, ACT);
    match Step(m, ACT)
    case Goes(m') => RunSafely(m');
    case Stops(_) =>
  }

  lemma SafeInv(m: Machine<Ctx>)
    requires SafeMachine(m)
    ensures Inv(m)
  {
  }

  // Whatever is read and however it ends, no null cursor is used and the settings read so far
  // are linked, named and typed as they should be.
  lemma {:induction false} ReadSafely(input: seq<Token>)
    ensures Good(Read(input).ctx.heap) && !Read(input).ctx.fault
  {
    StartIsSafe(input);
    RunSafely(Start(input, StartCtx()));
  }

  lemma StartIsSafe(input: seq<Token>)
    ensures SafeMachine(Start(input, StartCtx()))
  {
    StartGood();
  }
}
