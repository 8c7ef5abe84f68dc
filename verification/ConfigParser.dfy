/** The table-driven shift/reduce loop of the configuration parser, for any semantic actions. */
module ConfigParser {
  import opened Wrappers
  import opened ConfigTables

  // The first part is the loop itself: a machine with a state stack, a value stack, the tokens not
  // yet read and the parse context C that the actions change. Step is one turn of the loop and Run
  // the whole parse. The second part is the grammar: derivation trees, the tokens they yield, the
  // effect of their actions taken left to right, and the stack room they need. The theorem at the
  // end says that the loop accepts exactly the derivable token sequences whose actions all go
  // through and whose derivation fits the stack.

  // What the scanner returns, with the semantic value of the tokens that have one. Floating
  // point values are kept as the text they were written with.
  datatype Token =
    | TokBoolean(ival: int)
    | TokInteger(ival: int)
    | TokHex(ival: int)
    | TokInteger64(llval: int)
    | TokHex64(llval: int)
    | TokFloat(fval: string)
    | TokString(sval: string)
    | TokName(sval: string)
    | TokEquals
    | TokNewline
    | TokArrayStart
    | TokArrayEnd
    | TokListStart
    | TokListEnd
    | TokComma
    | TokGroupStart
    | TokGroupEnd
    | TokEnd
    | TokGarbage
    | TokError
  {
    // The parser's number for the token.
    function Symbol(): (s: int)
      ensures 0 < s < YYNTOKENS
    {
      match this
      case TokBoolean(_) => 3
      case TokInteger(_) => 4
      case TokHex(_) => 5
      case TokInteger64(_) => 6
      case TokHex64(_) => 7
      case TokFloat(_) => 8
      case TokString(_) => 9
      case TokName(_) => 10
      case TokEquals => 11
      case TokNewline => 12
      case TokArrayStart => 13
      case TokArrayEnd => 14
      case TokListStart => 15
      case TokListEnd => 16
      case TokComma => 17
      case TokGroupStart => 18
      case TokGroupEnd => 19
      case TokEnd => 20
      case TokGarbage => 21
      case TokError => 22
    }
  }

  // ---------- the machine ----------

  // A slot of the value stack. Reducing by a rule with an empty right-hand side pushes whatever
  // lies above the top of the stack; no action ever looks at such a slot.
  datatype Val = Garbage | Sem(token: Token)

  // What a semantic action does: change the context and go on, or YYABORT.
  datatype Reply<C> = Continue(ctx: C) | Abort(ctx: C)

  // The action of a rule. The only value an action uses is the one on top of the value stack
  // when the rule is reduced: $1 of rules 18 and 20..25, $2 of rule 19, and for the mid-rule
  // action 8 the $1 of the setting being read, which is on top because rule 8 pops nothing.
  type SemAction<!C> = (int, Val, C) -> Reply<C>

  datatype Machine<C> = Machine(states: seq<int>, vals: seq<Val>, rest: seq<Token>, ctx: C)

  datatype Verdict<C> = Accepted(ctx: C) | SyntaxError(ctx: C) | Aborted(ctx: C) | Exhausted(ctx: C)

  datatype Turn<C> = Goes(m: Machine<C>) | Stops(verdict: Verdict<C>)

  // The most entries the stacks may hold. They start with room for 200 and double as needed up
  // to this bound, so a push fails exactly when it fills the last slot.
  const YYMAXDEPTH: int := 10000

  function Last<T>(s: seq<T>): T
    requires s != []
  {
    s[|s| - 1]
  }

  function Peek(rest: seq<Token>): (t: int)
    ensures 0 <= t < YYNTOKENS
    ensures t == 0 <==> rest == []
  {
    if rest == [] then 0 else rest[0].Symbol()
  }

  // The state stack is a path of the automaton from state 0.
  ghost predicate Chain(states: seq<int>) {
    && states != []
    && IsState(Last(states))
    && if |states| == 1 then states[0] == 0
       else Chain(states[..|states| - 1]) && Link(states[|states| - 2], Last(states))
  }

  ghost predicate Inv<C>(m: Machine<C>) {
    && m.states != [] && Chain(m.states)
    && |m.vals| == |m.states| < YYMAXDEPTH
    && m.vals[0] == Garbage
  }

  function Start<C>(input: seq<Token>, ctx: C): Machine<C> {
    Machine([0], [Garbage], input, ctx)
  }

  // Labels yynewstate and yysetstate.
  function Push<C>(m: Machine<C>, state: int, val: Val): Turn<C> {
    if |m.states| + 1 >= YYMAXDEPTH then Stops(Exhausted(m.ctx))
    else Goes(m.(states := m.states + [state], vals := m.vals + [val]))
  }

  // Below a state that holds an item with the dot at d lie the d symbols before the dot, and
  // the state under them holds the item with the dot in front.
  lemma {:induction false} HandleOnTop(states: seq<int>, rule: int, d: nat)
    requires Chain(states) && LrItem(Last(states), rule, d)
    ensures d < |states| && d <= YyR2(rule)
    ensures Chain(states[..|states| - d]) && LrItem(states[|states| - d - 1], rule, 0)
    ensures forall j :: 0 <= j < d ==> YyStos(states[|states| - d + j]) == RhsAt(rule, j)
  {
    hide LrItem;
    hide Link;
    hide RhsAt;
    hide YyR2;
    hide YyStos;
    if d == 0 {
      assert states[..|states| - d] == states;
      ItemRange(Last(states), rule, d);
    } else {
      StartHasNoPast(rule, d);
      var below := states[..|states| - 1];
      BackFact(Last(below), Last(states), rule, d - 1);
      HandleOnTop(below, rule, d - 1);
      assert below[..|below| - (d - 1)] == states[..|states| - d];
      forall j | 0 <= j < d
        ensures YyStos(states[|states| - d + j]) == RhsAt(rule, j)
      {
        if j < d - 1 {
          assert below[|below| - (d - 1) + j] == states[|states| - d + j];
        }
      }
    }
  }

  lemma StartHasNoPast(rule: int, d: int)
    requires d > 0
    ensures !LrItem(0, rule, d)
  {
  }

  lemma ItemRange(s: int, rule: int, d: int)
    requires LrItem(s, rule, d)
    ensures 1 <= rule <= 36 && 0 <= d <= YyR2(rule)
  {
  }

  // Labels yybackup to yyreduce: one turn of the loop. A syntax error ends the parse because
  // no state can shift the error token, so error recovery pops the whole stack.
  function Step<C>(m: Machine<C>, act: SemAction<C>): Turn<C>
    requires Inv(m)
  {
    StepSafe(m);
    match Action(Last(m.states), Peek(m.rest))
    case Error => Stops(SyntaxError(m.ctx))
    case Accept => Stops(Accepted(m.ctx))
    case Shift(q) => Push(m.(rest := m.rest[1..]), q, Sem(m.rest[0]))
    case Reduce(rule) =>
      match act(rule, Last(m.vals), m.ctx)
      case Abort(c) => Stops(Aborted(c))
      case Continue(c) =>
        var len := YyR2(rule);
        var base := |m.states| - len;
        var val := if len == 0 then Garbage else m.vals[base];
        Push(Machine(m.states[..base], m.vals[..base], m.rest, c),
             Goto(m.states[base - 1], YyR1(rule)), val)
  }

  // No turn of the loop reads past the input or below the bottom of a stack.
  lemma {:induction false} StepSafe<C>(m: Machine<C>)
    requires Inv(m)
    ensures var a := Action(Last(m.states), Peek(m.rest));
      && (a.Shift? ==> m.rest != [])
      && (a.Reduce? ==> 2 <= a.rule <= 36 && 0 <= YyR2(a.rule) < |m.states|)
  {
    hide LrItem;
    hide Action;
    hide YyR2;
    var s, t := Last(m.states), Peek(m.rest);
    match Action(s, t)
    case Shift(_) => ShiftFact(s, t);
    case Reduce(rule) =>
      ReduceFact(s, t);
      ItemRange(s, rule, YyR2(rule));
      HandleOnTop(m.states, rule, YyR2(rule));
    case _ =>
  }

  // Decreases with every turn of the loop, for every input.
  function Measure<C>(m: Machine<C>): int
    requires m.states != []
  {
    8 * |m.rest| + |m.states| + Weight(Last(m.states))
  }

  lemma {:induction false} PushChain(states: seq<int>, q: int)
    requires Chain(states) && IsState(q) && Link(Last(states), q)
    ensures Chain(states + [q])
  {
    assert (states + [q])[..|states|] == states;
  }

  lemma {:induction false} AfterReduce(states: seq<int>, t: int)
    requires Chain(states) && 0 <= t < YYNTOKENS && Action(Last(states), t).Reduce?
    ensures var rule := Action(Last(states), t).rule;
      && 2 <= rule <= 36 && 0 <= YyR2(rule) < |states|
      && var below := states[..|states| - YyR2(rule)];
         var q := Goto(Last(below), YyR1(rule));
      && Chain(below) && LrItem(Last(below), rule, 0)
      && Chain(below + [q]) && YyStos(q) == YyR1(rule)
      && Weight(q) < Weight(Last(states)) + YyR2(rule) - 1
  {
    hide LrItem;
    hide Link;
    hide Action;
    hide Goto;
    hide YyR1;
    hide YyR2;
    hide YyStos;
    hide IsState;
    var rule := Action(Last(states), t).rule;
    ReduceFact(Last(states), t) by {
      LastIsState(states);
    }
    HandleOnTop(states, rule, YyR2(rule)) by {
      ItemRange(Last(states), rule, YyR2(rule));
    }
    var below := states[..|states| - YyR2(rule)];
    GotoFact(Last(below), rule);
    WeightFact(Last(below), Last(states), rule);
    PushChain(below, Goto(Last(below), YyR1(rule)));
  }

  lemma {:induction false} LastIsState(states: seq<int>)
    requires Chain(states)
    ensures IsState(Last(states))
  {
  }

  lemma {:induction false} StepInv<C>(m: Machine<C>, act: SemAction<C>)
    requires Inv(m)
    ensures var turn := Step(m, act);
      turn.Goes? ==> Inv(turn.m) && 0 <= Measure(turn.m) < Measure(m)
  {
    hide Chain;
    hide LrItem;
    hide Link;
    hide Action;
    hide Goto;
    hide YyR1;
    hide YyR2;
    hide YyStos;
    hide Weight;
    StepSafe(m);
    var s, t := Last(m.states), Peek(m.rest);
    LastIsState(m.states);
    match Action(s, t)
    case Shift(q) =>
      ShiftFact(s, t);
      PushChain(m.states, q);
    case Reduce(rule) =>
      AfterReduce(m.states, t);
    case _ =>
  }

  // The whole parse.
  function Run<C>(m: Machine<C>, act: SemAction<C>): Verdict<C>
    requires Inv(m)
    decreases Measure(m)
  {
    StepInv(m, act);
    match Step(m, act)
    case Stops(verdict) => verdict
    case Goes(m') => Run(m', act)
  }

  // ---------- derivation trees ----------

  datatype Tree = Leaf(token: Token) | Node(rule: int, kids: seq<Tree>)

  function Root(t: Tree): int {
    match t
    case Leaf(token) => token.Symbol()
    case Node(rule, _) => YyR1(rule)
  }

  // A tree all of whose nodes are instances of productions 2 to 36.
  ghost predicate Derivation(t: Tree) {
    t.Node? ==>
      && 2 <= t.rule <= 36
      && |t.kids| == YyR2(t.rule)
      && forall i :: 0 <= i < |t.kids| ==> Derivation(t.kids[i]) && Root(t.kids[i]) == RhsAt(t.rule, i)
  }

  function Yield(t: Tree): seq<Token>
    decreases t, 0
  {
    match t
    case Leaf(token) => [token]
    case Node(_, kids) => YieldAll(kids)
  }

  function YieldAll(ts: seq<Tree>): seq<Token>
    decreases ts, 1
  {
    if ts == [] then [] else YieldAll(ts[..|ts| - 1]) + Yield(Last(ts))
  }

  // The value left on the value stack for a tree, and the one on top after a row of trees.
  function ValOf(t: Tree): Val {
    match t
    case Leaf(token) => Sem(token)
    case Node(_, kids) => if kids == [] then Garbage else ValOf(kids[0])
  }

  function TopVal(left: Val, ts: seq<Tree>): Val {
    if ts == [] then left else ValOf(Last(ts))
  }

  // The effect of a tree's actions on the context, the leftmost and innermost first.
  function Exec<C>(t: Tree, left: Val, ctx: C, act: SemAction<C>): Reply<C>
    decreases t, 0
  {
    match t
    case Leaf(_) => Continue(ctx)
    case Node(rule, kids) =>
      match ExecAll(kids, left, ctx, act)
      case Abort(c) => Abort(c)
      case Continue(c) => act(rule, TopVal(left, kids), c)
  }

  function ExecAll<C>(ts: seq<Tree>, left: Val, ctx: C, act: SemAction<C>): Reply<C>
    decreases ts, 1
  {
    if ts == [] then Continue(ctx)
    else
      match ExecAll(ts[..|ts| - 1], left, ctx, act)
      case Abort(c) => Abort(c)
      case Continue(c) => Exec(Last(ts), TopVal(left, ts[..|ts| - 1]), c, act)
  }

  // How many stack entries reading a tree takes at most on top of what is there.
  function Room(t: Tree): (r: int)
    ensures r >= 1
    decreases t, 0
  {
    match t
    case Leaf(_) => 1
    case Node(_, kids) => Max(1, RoomAll(kids))
  }

  function RoomAll(ts: seq<Tree>): (r: int)
    ensures r >= 0
    ensures r >= |ts|
    decreases ts, 1
  {
    if ts == [] then 0 else Max(RoomAll(ts[..|ts| - 1]), |ts| - 1 + Room(Last(ts)))
  }

  function Max(a: int, b: int): int {
    if a < b then b else a
  }

  lemma {:induction false} AppendYield(ts: seq<Tree>, us: seq<Tree>)
    ensures YieldAll(ts + us) == YieldAll(ts) + YieldAll(us)
  {
    if us == [] {
      assert ts + us == ts;
    } else {
      var front, last := us[..|us| - 1], us[|us| - 1];
      AppendYield(ts, front);
      assert (ts + us)[..|ts + us| - 1] == ts + front && (ts + us)[|ts + us| - 1] == last;
      Regroup(YieldAll(ts), YieldAll(front), Yield(last));
    }
  }

  lemma {:induction false} AppendRoom(ts: seq<Tree>, us: seq<Tree>)
    ensures RoomAll(ts + us) == if us == [] then RoomAll(ts) else Max(RoomAll(ts), |ts| + RoomAll(us))
  {
    if us == [] {
      assert ts + us == ts;
    } else {
      AppendRoom(ts, us[..|us| - 1]);
      assert (ts + us)[..|ts + us| - 1] == ts + us[..|us| - 1];
    }
  }

  lemma {:induction false} AppendExec<C>(ts: seq<Tree>, us: seq<Tree>, left: Val, ctx: C, act: SemAction<C>)
    ensures ExecAll(ts + us, left, ctx, act) ==
      match ExecAll(ts, left, ctx, act)
      case Abort(c) => Abort(c)
      case Continue(c) => ExecAll(us, TopVal(left, ts), c, act)
  {
    if us == [] {
      assert ts + us == ts;
    } else {
      AppendExec(ts, us[..|us| - 1], left, ctx, act);
      assert (ts + us)[..|ts + us| - 1] == ts + us[..|us| - 1];
    }
  }

  // ---------- soundness ----------

  // The trees standing for the entries of the stacks above the bottom one.
  ghost predicate Stacked(states: seq<int>, vals: seq<Val>, ts: seq<Tree>) {
    && |states| == |vals| == |ts| + 1
    && vals[0] == Garbage
    && forall i :: 0 <= i < |ts| ==>
      Derivation(ts[i]) && Root(ts[i]) == YyStos(states[i + 1]) && ValOf(ts[i]) == vals[i + 1]
  }

  // Their yields are the tokens read so far and the effects of their actions the present context.
  ghost predicate Tracks<C>(m: Machine<C>, ts: seq<Tree>, input: seq<Token>, ctx0: C, act: SemAction<C>) {
    && Stacked(m.states, m.vals, ts)
    && YieldAll(ts) + m.rest == input
    && ExecAll(ts, Garbage, ctx0, act) == Continue(m.ctx)
    && 1 + RoomAll(ts) < YYMAXDEPTH
  }

  lemma {:induction false} PushStacked(states: seq<int>, vals: seq<Val>, ts: seq<Tree>, q: int, t: Tree)
    requires Stacked(states, vals, ts)
    requires Derivation(t) && Root(t) == YyStos(q)
    ensures Stacked(states + [q], vals + [ValOf(t)], ts + [t])
    ensures (ts + [t])[..|ts|] == ts
  {
    hide Derivation;
    hide Root;
    hide YyStos;
    hide ValOf;
  }

  lemma {:induction false} PopStacked(states: seq<int>, vals: seq<Val>, ts: seq<Tree>, k: nat)
    requires Stacked(states, vals, ts) && k <= |ts|
    ensures Stacked(states[..|states| - k], vals[..|states| - k], ts[..|ts| - k])
  {
    hide Derivation;
    hide Root;
    hide YyStos;
    hide ValOf;
  }

  // The trees after one more turn of the loop.
  function Grow(m: Machine, ts: seq<Tree>): seq<Tree>
    requires Inv(m) && |ts| + 1 == |m.states|
  {
    StepSafe(m);
    match Action(Last(m.states), Peek(m.rest))
    case Shift(_) => ts + [Leaf(m.rest[0])]
    case Reduce(rule) =>
      var base := |ts| - YyR2(rule);
      ts[..base] + [Node(rule, ts[base..])]
    case _ => ts
  }

  lemma {:induction false} TracksShift<C>(m: Machine<C>, ts: seq<Tree>, input: seq<Token>, ctx0: C, act: SemAction<C>, q: int)
    requires Inv(m) && Tracks(m, ts, input, ctx0, act)
    requires Action(Last(m.states), Peek(m.rest)) == Shift(q)
    requires Step(m, act).Goes?
    ensures Tracks(Step(m, act).m, Grow(m, ts), input, ctx0, act)
  {
    hide LrItem;
    hide Link;
    hide Action;
    hide YyStos;
    hide Stacked;
    hide Chain;
    StepSafe(m);
    LastIsState(m.states);
    ShiftFact(Last(m.states), Peek(m.rest));
    var leaf := Leaf(m.rest[0]);
    PushStacked(m.states, m.vals, ts, q, leaf);
    assert |ts| + 1 == |m.states| by { StackedSizes(m.states, m.vals, ts); }
    assert m.rest == [m.rest[0]] + m.rest[1..];
    assert Grow(m, ts) == ts + [leaf];
    var m' := Step(m, act).m;
    assert m'.states == m.states + [q];
    assert m'.vals == m.vals + [ValOf(leaf)];
    assert m'.rest == m.rest[1..] && m'.ctx == m.ctx;
    assert YieldAll(ts + [leaf]) == YieldAll(ts) + [m.rest[0]];
    assert YieldAll(ts + [leaf]) + m'.rest == input;
    assert ExecAll(ts + [leaf], Garbage, ctx0, act) == Continue(m.ctx);
    assert RoomAll(ts + [leaf]) == Max(RoomAll(ts), |ts| + 1);
  }

  lemma {:induction false} StackedSizes(states: seq<int>, vals: seq<Val>, ts: seq<Tree>)
    requires Stacked(states, vals, ts)
    ensures |states| == |vals| == |ts| + 1
    ensures Last(vals) == TopVal(Garbage, ts)
  {
  }

  lemma {:induction false} TracksReduce<C>(m: Machine<C>, ts: seq<Tree>, input: seq<Token>, ctx0: C, act: SemAction<C>, rule: int)
    requires Inv(m) && Tracks(m, ts, input, ctx0, act)
    requires Action(Last(m.states), Peek(m.rest)) == Reduce(rule)
    requires Step(m, act).Goes?
    ensures Tracks(Step(m, act).m, Grow(m, ts), input, ctx0, act)
  {
    hide LrItem;
    hide Link;
    hide Action;
    hide Goto;
    hide YyStos;
    hide YyR1;
    hide YyR2;
    hide Stacked;
    hide Chain;
    hide Derivation;
    hide YieldAll;
    hide RoomAll;
    hide ExecAll;
    StepSafe(m);
    StackedSizes(m.states, m.vals, ts);
    var len := YyR2(rule);
    var pre, kids := ts[..|ts| - len], ts[|ts| - len..];
    var states, vals := m.states[..|m.states| - len], m.vals[..|m.states| - len];
    var node := Node(rule, kids);
    var q := Goto(Last(states), YyR1(rule));
    assert Grow(m, ts) == pre + [node];
    HandleRoots(m, ts, rule);
    if len > 0 { FirstVal(m.states, m.vals, ts, len); }
    var m' := Step(m, act).m;
    assert m'.states == states + [q] && m'.vals == vals + [ValOf(node)] && m'.rest == m.rest;
    assert Stacked(m'.states, m'.vals, pre + [node]) by {
      PopStacked(m.states, m.vals, ts, len);
      AfterReduce(m.states, Peek(m.rest));
      PushStacked(states, vals, pre, q, node);
    }
    FoldYield(pre, kids, rule);
    FoldRoom(pre, kids, rule);
    FoldExec(pre, kids, rule, ctx0, act);
    assert ts == pre + kids;
  }

  // Putting the last trees of a row under a new node keeps the yield and the room, and runs the
  // node's action after theirs.
  lemma {:induction false} FoldYield(pre: seq<Tree>, kids: seq<Tree>, rule: int)
    ensures YieldAll(pre + [Node(rule, kids)]) == YieldAll(pre + kids)
  {
    assert (pre + [Node(rule, kids)])[..|pre|] == pre;
    assert Yield(Node(rule, kids)) == YieldAll(kids);
    AppendYield(pre, kids);
  }

  lemma {:induction false} FoldRoom(pre: seq<Tree>, kids: seq<Tree>, rule: int)
    ensures RoomAll(pre + [Node(rule, kids)]) == Max(RoomAll(pre + kids), |pre| + 1)
  {
    assert (pre + [Node(rule, kids)])[..|pre|] == pre;
    assert Room(Node(rule, kids)) == Max(1, RoomAll(kids));
    assert RoomAll(pre + [Node(rule, kids)]) == Max(RoomAll(pre), |pre| + Room(Node(rule, kids)));
    AppendRoom(pre, kids);
    assert kids == [] ==> pre + kids == pre;
  }

  lemma {:induction false} FoldExec<C>(pre: seq<Tree>, kids: seq<Tree>, rule: int, ctx0: C, act: SemAction<C>)
    ensures ExecAll(pre + [Node(rule, kids)], Garbage, ctx0, act) ==
      match ExecAll(pre + kids, Garbage, ctx0, act)
      case Abort(c) => Abort(c)
      case Continue(c) => act(rule, TopVal(Garbage, pre + kids), c)
  {
    assert (pre + [Node(rule, kids)])[..|pre|] == pre;
    AppendExec(pre, kids, Garbage, ctx0, act);
    assert kids == [] ==> pre + kids == pre;
    assert TopVal(TopVal(Garbage, pre), kids) == TopVal(Garbage, pre + kids);
  }

  lemma {:induction false} FirstVal(states: seq<int>, vals: seq<Val>, ts: seq<Tree>, len: nat)
    requires Stacked(states, vals, ts) && 0 < len <= |ts|
    ensures ValOf(ts[|ts| - len..][0]) == vals[|states| - len]
  {
  }

  lemma {:induction false} HandleRoots<C>(m: Machine<C>, ts: seq<Tree>, rule: int)
    requires Inv(m) && Stacked(m.states, m.vals, ts)
    requires Action(Last(m.states), Peek(m.rest)) == Reduce(rule)
    ensures 2 <= rule <= 36 && 0 <= YyR2(rule) <= |ts| && Derivation(Node(rule, ts[|ts| - YyR2(rule)..]))
  {
    hide LrItem;
    hide Link;
    hide Action;
    hide YyStos;
    hide YyR1;
    hide YyR2;
    hide RhsAt;
    hide Derivation;
    StepSafe(m);
    LastIsState(m.states);
    ReduceFact(Last(m.states), Peek(m.rest));
    HandleOnTop(m.states, rule, YyR2(rule));
    TopRoots(m.states, m.vals, ts, rule);
    HandleTree(rule, ts[|ts| - YyR2(rule)..]);
  }

  lemma {:induction false} TopRoots(states: seq<int>, vals: seq<Val>, ts: seq<Tree>, rule: int)
    requires Stacked(states, vals, ts) && 0 <= YyR2(rule) < |states|
    requires forall j :: 0 <= j < YyR2(rule) ==> YyStos(states[|states| - YyR2(rule) + j]) == RhsAt(rule, j)
    ensures YyR2(rule) <= |ts|
    ensures forall j :: 0 <= j < YyR2(rule) ==>
      var t := ts[|ts| - YyR2(rule)..][j]; Derivation(t) && Root(t) == RhsAt(rule, j)
  {
    hide YyStos;
    hide YyR2;
    hide RhsAt;
    hide Derivation;
    hide Root;
    var len := YyR2(rule);
    forall j | 0 <= j < len
      ensures var t := ts[|ts| - len..][j]; Derivation(t) && Root(t) == RhsAt(rule, j)
    {
      assert ts[|ts| - len..][j] == ts[|ts| - len + j];
      assert states[|ts| - len + j + 1] == states[|states| - len + j];
    }
  }

  lemma {:induction false} HandleTree(rule: int, kids: seq<Tree>)
    requires 2 <= rule <= 36 && |kids| == YyR2(rule)
    requires forall j :: 0 <= j < |kids| ==> Derivation(kids[j]) && Root(kids[j]) == RhsAt(rule, j)
    ensures Derivation(Node(rule, kids))
  {
    hide YyR2;
    hide RhsAt;
  }

  // The grammar's start symbol.
  const CONFIGURATION: int := 24

  // A tree explains a parse: it derives the input, its actions lead to the final context, and
  // reading it keeps the stacks below their bound.
  ghost predicate Explains<C>(t: Tree, input: seq<Token>, ctx0: C, ctx: C, act: SemAction<C>) {
    && Derivation(t) && Root(t) == CONFIGURATION && Yield(t) == input
    && Exec(t, Garbage, ctx0, act) == Continue(ctx)
    && 1 + Room(t) < YYMAXDEPTH
  }

  lemma {:induction false} AcceptStack(states: seq<int>, t: int)
    requires Chain(states) && 0 <= t < YYNTOKENS && Action(Last(states), t) == Accept
    ensures states == [0, 2] && t == 0 && YyStos(2) == CONFIGURATION
  {
    hide Action;
    LastIsState(states);
    AcceptFact(Last(states), t);
    var below := states[..|states| - 1];
    assert |states| > 1;
    assert Last(below) == 0;
    assert |below| == 1;
  }

  lemma {:induction false} AloneOnStack<C>(t: Tree, ctx0: C, act: SemAction<C>)
    ensures YieldAll([t]) == Yield(t) && RoomAll([t]) == Room(t)
    ensures ExecAll([t], Garbage, ctx0, act) == Exec(t, Garbage, ctx0, act)
  {
    assert [t][..0] == [];
  }

  lemma {:induction false} RunSound<C>(m: Machine<C>, ts: seq<Tree>, input: seq<Token>, ctx0: C, act: SemAction<C>)
    returns (t: Tree)
    requires Inv(m) && Tracks(m, ts, input, ctx0, act) && Run(m, act).Accepted?
    ensures Explains(t, input, ctx0, Run(m, act).ctx, act)
    decreases Measure(m)
  {
    hide Chain;
    hide Action;
    hide Goto;
    hide YyStos;
    hide Weight;
    hide YyR2;
    StepSafe(m);
    StepInv(m, act);
    StackedSizes(m.states, m.vals, ts);
    match Action(Last(m.states), Peek(m.rest))
    case Accept =>
      AcceptStack(m.states, Peek(m.rest));
      t := ts[0];
      assert ts == [t] && m.rest == [];
      AloneOnStack(t, ctx0, act);
    case Shift(q) =>
      TracksShift(m, ts, input, ctx0, act, q);
      t := RunSound(Step(m, act).m, Grow(m, ts), input, ctx0, act);
    case Reduce(rule) =>
      TracksReduce(m, ts, input, ctx0, act, rule);
      t := RunSound(Step(m, act).m, Grow(m, ts), input, ctx0, act);
    case Error =>
  }

  // ---------- completeness ----------

  // What follows a tree in the input is something that may follow its root.
  lemma {:induction false} HeadOfTree(t: Tree)
    requires Derivation(t)
    ensures Yield(t) == [] ==> Nullable(Root(t))
    ensures Yield(t) != [] ==> First(Root(t), Yield(t)[0].Symbol())
    decreases t
  {
    hide YyR1;
    hide YyR2;
    hide RhsAt;
    hide Nullable;
    match t
    case Leaf(token) =>
    case Node(rule, kids) =>
      FirstFact(rule, 0);
      if kids != [] {
        HeadOfTree(kids[0]);
        AppendYield([kids[0]], kids[1..]);
        assert [kids[0]] + kids[1..] == kids;
        assert YieldAll([kids[0]]) == Yield(kids[0]);
        FirstFact(rule, Yield(t)[0].Symbol());
      }
  }

  // What the scanner shows when the first d trees of a row have been read is something the
  // rule allows at position d.
  lemma {:induction false} HeadOfRest(rule: int, kids: seq<Tree>, d: nat, after: seq<Token>)
    requires Derivation(Node(rule, kids)) && d <= |kids|
    requires Follow(YyR1(rule), Peek(after))
    ensures Next(rule, d, Peek(YieldAll(kids[d..]) + after))
    decreases |kids| - d
  {
    hide YyR1;
    hide YyR2;
    hide RhsAt;
    hide Nullable;
    hide First;
    hide Follow;
    if d == |kids| {
      assert YieldAll(kids[d..]) + after == after;
    } else {
      HeadOfRest(rule, kids, d + 1, after);
      HeadOfTree(kids[d]);
      FirstYield(kids, d);
      Regroup(Yield(kids[d]), YieldAll(kids[d + 1..]), after);
      PeekFront(Yield(kids[d]), YieldAll(kids[d + 1..]) + after);
    }
  }

  lemma {:induction false} FirstYield(kids: seq<Tree>, d: nat)
    requires d < |kids|
    ensures YieldAll(kids[d..]) == Yield(kids[d]) + YieldAll(kids[d + 1..])
  {
    assert kids[d..] == [kids[d]] + kids[d + 1..];
    AppendYield([kids[d]], kids[d + 1..]);
    OneYield(kids[d]);
  }

  lemma OneYield(t: Tree)
    ensures YieldAll([t]) == Yield(t)
  {
    assert [t][..0] == [];
  }

  lemma PeekFront(a: seq<Token>, b: seq<Token>)
    ensures a == [] ==> a + b == b
    ensures a != [] ==> (a + b)[0] == a[0] && Peek(a + b) == Peek(a)
  {
  }

  // The loop, started on top of a state that expects a tree's root, reads the tree's yield and
  // goes on with one more entry on its stacks.
  ghost predicate Reads<C>(m: Machine<C>, m': Machine<C>, val: Val, after: seq<Token>, c: C, act: SemAction<C>) {
    && Inv(m) && Inv(m')
    && |m'.states| == |m.states| + 1 && m'.states[..|m.states|] == m.states
    && m'.vals == m.vals + [val]
    && m'.rest == after && m'.ctx == c
    && Run(m, act) == Run(m', act)
  }

  // The dot of a rule stands at position d before a symbol, with a token after it in sight that
  // the rule allows there.
  ghost predicate Expects(s: int, rule: int, d: int, symbol: int, t: int) {
    && 1 <= rule <= 36 && 0 <= d < YyR2(rule) && LrItem(s, rule, d) && RhsAt(rule, d) == symbol
    && (if rule == 1 then t == 0 else Next(rule, d + 1, t))
  }

  lemma {:induction false} Drive<C>(t: Tree, m: Machine<C>, after: seq<Token>, c: C, act: SemAction<C>, rule: int, d: int)
    returns (m': Machine<C>)
    requires Inv(m) && Derivation(t) && m.rest == Yield(t) + after
    requires Expects(Last(m.states), rule, d, Root(t), Peek(after))
    requires Exec(t, Last(m.vals), m.ctx, act) == Continue(c)
    requires |m.states| + Room(t) < YYMAXDEPTH
    ensures Reads(m, m', ValOf(t), after, c, act) && LrItem(Last(m'.states), rule, d + 1)
    decreases t, 0
  {
    hide Chain;
    hide Action;
    hide Goto;
    hide LrItem;
    hide Next;
    hide Run;
    hide YyStos;
    hide YyR1;
    hide YyR2;
    hide RhsAt;
    hide Follow;
    hide Reads;
    hide YieldAll;
    hide ExecAll;
    hide RoomAll;
    hide Derivation;
    match t
    case Leaf(token) =>
      m' := DriveLeaf(token, m, after, act, rule, d);
    case Node(r, kids) =>
      NodeMeans(r, kids, Last(m.vals), m.ctx, act);
      FollowFact(rule, d, Peek(after)) by { RootIsNonterminal(r); }
      ClosureFact(Last(m.states), rule, d, r);
      assert kids[..|kids|] == kids;
      var mk := DriveKids(r, kids, |kids|, m, after, act);
      assert mk.rest == after by { assert kids[|kids|..] == []; NoYield(); }
      m' := DriveReduce(r, kids, m, mk, c, act);
      NonterminalFact(Last(m.states), rule, d) by { RootIsNonterminal(r); }
  }

  lemma NoYield()
    ensures YieldAll([]) == []
  {
  }

  // What it takes to derive, run and read a node.
  lemma {:induction false} NodeMeans<C>(r: int, kids: seq<Tree>, left: Val, c: C, act: SemAction<C>)
    requires Derivation(Node(r, kids))
    ensures 2 <= r <= 36 && |kids| == YyR2(r)
    ensures Yield(Node(r, kids)) == YieldAll(kids) && RoomAll(kids) <= Room(Node(r, kids)) && 1 <= Room(Node(r, kids))
    ensures Exec(Node(r, kids), left, c, act) ==
      match ExecAll(kids, left, c, act)
      case Abort(c') => Abort(c')
      case Continue(c') => act(r, TopVal(left, kids), c')
  {
    hide YyR2;
    hide RhsAt;
  }

  lemma RootIsNonterminal(r: int)
    ensures YyR1(r) >= YYNTOKENS || r == 0
  {
  }

  lemma {:induction false} DriveLeaf<C>(token: Token, m: Machine<C>, after: seq<Token>, act: SemAction<C>, rule: int, d: int)
    returns (m': Machine<C>)
    requires Inv(m) && m.rest == [token] + after
    requires Expects(Last(m.states), rule, d, token.Symbol(), Peek(after))
    requires |m.states| + 1 < YYMAXDEPTH
    ensures Reads(m, m', Sem(token), after, m.ctx, act) && LrItem(Last(m'.states), rule, d + 1)
  {
    hide Chain;
    hide Action;
    hide LrItem;
    hide Next;
    hide Weight;
    TerminalFact(Last(m.states), rule, d);
    StepSafe(m);
    StepInv(m, act);
    m' := Step(m, act).m;
  }

  lemma {:induction false} DriveReduce<C>(r: int, kids: seq<Tree>, m: Machine<C>, mk: Machine<C>, c: C, act: SemAction<C>)
    returns (m': Machine<C>)
    requires 2 <= r <= 36 && |kids| == YyR2(r)
    requires ReadAll(r, kids, |kids|, m, mk, act) && Follow(YyR1(r), Peek(mk.rest))
    requires act(r, Last(mk.vals), mk.ctx) == Continue(c)
    requires |m.states| + 1 < YYMAXDEPTH
    ensures Reads(m, m', ValOf(Node(r, kids)), mk.rest, c, act)
    ensures Last(m'.states) == Goto(Last(m.states), YyR1(r))
  {
    hide Chain;
    hide Action;
    hide Goto;
    hide LrItem;
    hide Weight;
    hide YyR1;
    hide YyR2;
    hide Follow;
    CompleteItemFact(Last(mk.states), r, Peek(mk.rest));
    StepSafe(mk);
    StepInv(mk, act);
    m' := Step(mk, act).m;
  }

  // The first k trees under a node have been read.
  ghost predicate ReadAll<C>(r: int, kids: seq<Tree>, k: nat, m: Machine<C>, mk: Machine<C>, act: SemAction<C>)
    requires k <= |kids|
  {
    && Inv(m) && Inv(mk)
    && |mk.states| == |m.states| + k && mk.states[..|m.states|] == m.states
    && mk.vals[..|m.states|] == m.vals
    && (k > 0 ==> mk.vals[|m.states|] == ValOf(kids[0]))
    && Last(mk.vals) == TopVal(Last(m.vals), kids[..k])
    && ExecAll(kids[..k], Last(m.vals), m.ctx, act) == Continue(mk.ctx)
    && LrItem(Last(mk.states), r, k)
    && Run(m, act) == Run(mk, act)
  }

  lemma {:induction false} DriveKids<C>(r: int, kids: seq<Tree>, k: nat, m: Machine<C>, after: seq<Token>, act: SemAction<C>)
    returns (mk: Machine<C>)
    requires Inv(m) && Derivation(Node(r, kids)) && k <= |kids|
    requires m.rest == YieldAll(kids) + after && Follow(YyR1(r), Peek(after))
    requires LrItem(Last(m.states), r, 0)
    requires ExecAll(kids, Last(m.vals), m.ctx, act).Continue?
    requires |m.states| + RoomAll(kids[..k]) < YYMAXDEPTH
    ensures ReadAll(r, kids, k, m, mk, act) && mk.rest == YieldAll(kids[k..]) + after
    decreases kids, k + 1
  {
    hide Chain;
    hide Action;
    hide Goto;
    hide LrItem;
    hide Next;
    hide Weight;
    hide YyStos;
    hide YyR1;
    hide YyR2;
    hide RhsAt;
    hide Follow;
    hide Run;
    hide ExecAll;
    hide RoomAll;
    hide Room;
    hide YieldAll;
    hide Yield;
    if k == 0 {
      mk := m;
      assert kids[0..] == kids && kids[..0] == [];
      assert ExecAll(kids[..0], Last(m.vals), m.ctx, act) == Continue(m.ctx) by { ExecNone(Last(m.vals), m.ctx, act); }
    } else {
      SplitRow(kids, k, Last(m.vals), m.ctx, act);
      var m1 := DriveKids(r, kids, k - 1, m, after, act);
      var t, rest := kids[k - 1], YieldAll(kids[k..]) + after;
      HeadOfRest(r, kids, k, after);
      assert m1.rest == Yield(t) + rest;
      mk := Drive(t, m1, rest, Exec(t, Last(m1.vals), m1.ctx, act).ctx, act, r, k - 1);
      ReadOneMore(r, kids, k, m, m1, mk, rest, act);
    }
  }

  lemma ExecNone<C>(left: Val, ctx: C, act: SemAction<C>)
    ensures ExecAll([], left, ctx, act) == Continue(ctx)
  {
  }

  lemma {:induction false} ReadOneMore<C>(r: int, kids: seq<Tree>, k: nat, m: Machine<C>, m1: Machine<C>, mk: Machine<C>,
      rest: seq<Token>, act: SemAction<C>)
    requires 0 < k <= |kids| && ReadAll(r, kids, k - 1, m, m1, act)
    requires Reads(m1, mk, ValOf(kids[k - 1]), rest, mk.ctx, act) && LrItem(Last(mk.states), r, k)
    requires Continue(mk.ctx) == Exec(kids[k - 1], Last(m1.vals), m1.ctx, act)
    requires ExecAll(kids[..k], Last(m.vals), m.ctx, act) ==
      Exec(kids[k - 1], TopVal(Last(m.vals), kids[..k - 1]), m1.ctx, act)
    ensures ReadAll(r, kids, k, m, mk, act)
  {
    hide Chain;
    hide LrItem;
    hide Run;
    hide Exec;
    hide ExecAll;
    assert mk.states[..|m.states|] == m1.states[..|m.states|];
    assert mk.vals[..|m.states|] == m1.vals[..|m.states|];
  }

  lemma {:induction false} SplitRow<C>(kids: seq<Tree>, k: nat, left: Val, ctx: C, act: SemAction<C>)
    requires 0 < k <= |kids| && ExecAll(kids, left, ctx, act).Continue?
    ensures YieldAll(kids[k - 1..]) == Yield(kids[k - 1]) + YieldAll(kids[k..])
    ensures RoomAll(kids[..k]) == Max(RoomAll(kids[..k - 1]), k - 1 + Room(kids[k - 1]))
    ensures ExecAll(kids[..k - 1], left, ctx, act).Continue?
    ensures var c := ExecAll(kids[..k - 1], left, ctx, act).ctx;
      && Exec(kids[k - 1], TopVal(left, kids[..k - 1]), c, act).Continue?
      && ExecAll(kids[..k], left, ctx, act) == Exec(kids[k - 1], TopVal(left, kids[..k - 1]), c, act)
  {
    AppendYield([kids[k - 1]], kids[k..]);
    assert [kids[k - 1]] + kids[k..] == kids[k - 1..];
    assert YieldAll([kids[k - 1]]) == Yield(kids[k - 1]);
    AppendExec(kids[..k], kids[k..], left, ctx, act);
    assert kids[..k] + kids[k..] == kids;
    assert kids[..k][..k - 1] == kids[..k - 1];
  }

  // ---------- the theorem ----------

  lemma {:induction false} RunComplete<C>(t: Tree, input: seq<Token>, ctx0: C, ctx: C, act: SemAction<C>)
    requires Explains(t, input, ctx0, ctx, act)
    ensures Run(Start(input, ctx0), act) == Accepted(ctx)
  {
    hide Run;
    var m := Start(input, ctx0);
    assert m.rest == Yield(t) + [];
    var m' := Drive(t, m, [], ctx, act, 1, 0);
    EndOfParse(m');
    assert Run(m', act) == Accepted(ctx) by { RunAccept(m', act); }
  }

  lemma {:induction false} EndOfParse<C>(m: Machine<C>)
    requires Inv(m) && LrItem(Last(m.states), 1, 1) && m.rest == []
    ensures Action(Last(m.states), 0) == Accept
  {
  }

  lemma {:induction false} RunAccept<C>(m: Machine<C>, act: SemAction<C>)
    requires Inv(m) && Action(Last(m.states), Peek(m.rest)) == Accept
    ensures Run(m, act) == Accepted(m.ctx)
  {
    hide Action;
  }

  // The loop accepts an input, with a final context, exactly when some derivation explains it.
  lemma {:induction false} ParserCorrect<C>(input: seq<Token>, ctx0: C, ctx: C, act: SemAction<C>)
    ensures Run(Start(input, ctx0), act) == Accepted(ctx) <==>
      exists t: Tree :: Explains(t, input, ctx0, ctx, act)
  {
    hide Run;
    hide Explains;
    if Run(Start(input, ctx0), act) == Accepted(ctx) {
      StartTracks(input, ctx0, act);
      var t := RunSound(Start(input, ctx0), [], input, ctx0, act);
    }
    if t: Tree :| Explains(t, input, ctx0, ctx, act) {
      RunComplete(t, input, ctx0, ctx, act);
    }
  }

  lemma {:induction false} StartTracks<C>(input: seq<Token>, ctx0: C, act: SemAction<C>)
    ensures Inv(Start(input, ctx0)) && Tracks(Start(input, ctx0), [], input, ctx0, act)
  {
  }

  // ---------- running out of stack ----------

  // A derivation whose actions go through but which does not fit ends the parse there.
  lemma {:induction false} DriveFull<C>(t: Tree, m: Machine<C>, after: seq<Token>, act: SemAction<C>, rule: int, d: int)
    requires Inv(m) && Derivation(t) && m.rest == Yield(t) + after
    requires Expects(Last(m.states), rule, d, Root(t), Peek(after))
    requires Exec(t, Last(m.vals), m.ctx, act).Continue?
    requires |m.states| + Room(t) >= YYMAXDEPTH
    ensures Run(m, act).Exhausted?
    decreases t, 0
  {
    hide Chain;
    hide Action;
    hide Goto;
    hide LrItem;
    hide Next;
    hide Weight;
    hide YyStos;
    hide YyR1;
    hide YyR2;
    hide RhsAt;
    hide Follow;
    match t
    case Leaf(token) =>
      LeafFull(token, m, after, act, rule, d);
    case Node(r, kids) =>
      FollowFact(rule, d, Peek(after)) by { RootIsNonterminal(r); }
      ClosureFact(Last(m.states), rule, d, r);
      if |m.states| + RoomAll(kids) >= YYMAXDEPTH {
        assert kids[..|kids|] == kids;
        DriveFullKids(r, kids, |kids|, m, after, act);
      } else {
        assert kids[..|kids|] == kids;
        var mk := DriveKids(r, kids, |kids|, m, after, act);
        assert mk.rest == after by { assert kids[|kids|..] == []; }
        ReduceFull(r, kids, m, mk, act);
      }
  }

  lemma RoomNone()
    ensures RoomAll([]) == 0
  {
  }

  lemma {:induction false} LeafFull<C>(token: Token, m: Machine<C>, after: seq<Token>, act: SemAction<C>, rule: int, d: int)
    requires Inv(m) && m.rest == [token] + after
    requires Expects(Last(m.states), rule, d, token.Symbol(), Peek(after))
    requires |m.states| + 1 >= YYMAXDEPTH
    ensures Run(m, act).Exhausted?
  {
    hide Chain;
    hide Action;
    hide LrItem;
    hide Next;
    TerminalFact(Last(m.states), rule, d);
    StepSafe(m);
  }

  lemma {:induction false} ReduceFull<C>(r: int, kids: seq<Tree>, m: Machine<C>, mk: Machine<C>, act: SemAction<C>)
    requires 2 <= r <= 36 && |kids| == YyR2(r)
    requires ReadAll(r, kids, |kids|, m, mk, act) && Follow(YyR1(r), Peek(mk.rest))
    requires act(r, Last(mk.vals), mk.ctx).Continue?
    requires |m.states| + 1 >= YYMAXDEPTH
    ensures Run(m, act).Exhausted?
  {
    hide Chain;
    hide Action;
    hide Goto;
    hide LrItem;
    hide YyR1;
    hide YyR2;
    hide Follow;
    CompleteItemFact(Last(mk.states), r, Peek(mk.rest));
    StepSafe(mk);
  }

  // The first of some trees that does not fit.
  lemma {:induction false} DriveFullKids<C>(r: int, kids: seq<Tree>, k: nat, m: Machine<C>, after: seq<Token>, act: SemAction<C>)
    requires Inv(m) && Derivation(Node(r, kids)) && k <= |kids|
    requires m.rest == YieldAll(kids) + after && Follow(YyR1(r), Peek(after))
    requires LrItem(Last(m.states), r, 0)
    requires ExecAll(kids, Last(m.vals), m.ctx, act).Continue?
    requires |m.states| + RoomAll(kids[..k]) >= YYMAXDEPTH
    ensures Run(m, act).Exhausted?
    decreases kids, k + 1
  {
    hide Chain;
    hide Action;
    hide Goto;
    hide LrItem;
    hide Next;
    hide YyStos;
    hide YyR1;
    hide YyR2;
    hide RhsAt;
    hide Follow;
    hide Run;
    hide ExecAll;
    hide RoomAll;
    hide Room;
    hide YieldAll;
    hide Yield;
    if k == 0 {
      assert kids[..0] == [];
      RoomNone();
    } else {
      var t, rest := kids[k - 1], YieldAll(kids[k..]) + after;
      SplitRow(kids, k, Last(m.vals), m.ctx, act);
      if |m.states| + RoomAll(kids[..k - 1]) >= YYMAXDEPTH {
        DriveFullKids(r, kids, k - 1, m, after, act);
      } else {
        var m1 := DriveKids(r, kids, k - 1, m, after, act);
        HeadOfRest(r, kids, k, after);
        assert m1.rest == Yield(t) + rest;
        DriveFull(t, m1, rest, act, r, k - 1);
      }
    }
  }

  // What becomes of a derivable input whose actions all go through.
  lemma {:induction false} DerivableOutcome<C>(t: Tree, ctx0: C, act: SemAction<C>)
    requires Derivation(t) && Root(t) == CONFIGURATION && Exec(t, Garbage, ctx0, act).Continue?
    ensures var v := Run(Start(Yield(t), ctx0), act);
      if 1 + Room(t) < YYMAXDEPTH then v == Accepted(Exec(t, Garbage, ctx0, act).ctx) else v.Exhausted?
  {
    hide Run;
    if 1 + Room(t) < YYMAXDEPTH {
      RunComplete(t, Yield(t), ctx0, Exec(t, Garbage, ctx0, act).ctx, act);
    } else {
      var m := Start(Yield(t), ctx0);
      assert m.rest == Yield(t) + [];
      DriveFull(t, m, [], act, 1, 0);
    }
  }
}
