/** The parser as it runs: the loop over its two stacks, updating the configuration and the
    cursors in place. It computes what ConfigActions.Read says. */
module ConfigReader {
  import opened Wrappers
  import opened ConfigTables
  import opened ConfigParser
  import opened ConfigHeap
  import opened ConfigGrowth
  import opened ConfigActions
  import opened ConfigCursors
  import opened ConfigApi

  const YYEMPTY: int := -2

  // struct parse_context and what it points to.
  class Parser {
    const config: Config
    var parent: Option<int>
    var setting: Option<int>
    var text: string

    ghost function TheCtx(): Ctx
      reads this, config
    {
      Ctx(config.TheHeap(), parent, setting, text, false)
    }

    // __config_read, up to the call of yyparse.
    constructor ()
      ensures TheCtx() == StartCtx() && fresh(config)
    {
      config := new Config();
      parent := Some(ROOT);
      setting := Some(ROOT);
      text := "";
    }

    predicate CursorIn(kind: Kind)
      reads this, config
    {
      parent.Some? && parent.value in config.cells && config.cells[parent.value].kind == kind
    }

    method BeginSetting(name: string) returns (ok: bool)
      requires Good(config.TheHeap()) && !ConfigActions.BeginSetting(name, TheCtx()).ctx.fault
      modifies this, config
      ensures var r := old(ConfigActions.BeginSetting(name, TheCtx())); ok == r.Continue? && TheCtx() == r.ctx
    {
      GoodIsWellFormed(config.TheHeap());
      if parent.Some? && parent.value !in config.cells { setting := None; return false; }
      setting := config.Add(parent, Some(name), KNone);
      return setting.Some?;
    }

    method OpenAggregate(kind: Kind) returns (ok: bool)
      requires Good(config.TheHeap()) && !ConfigActions.OpenAggregate(kind, TheCtx()).ctx.fault
      modifies this, config
      ensures var r := old(ConfigActions.OpenAggregate(kind, TheCtx())); ok == r.Continue? && TheCtx() == r.ctx
    {
      GoodIsWellFormed(config.TheHeap());
      if CursorIn(KList) {
        parent := config.Add(parent, None, kind);
      } else {
        var id := setting.value;
        config.cells := config.cells[id := config.cells[id].(kind := kind)];
        parent := setting;
        setting := None;
      }
      return true;
    }

    // The integer actions give what they stored its format.
    method GiveFormat(id: int, v: NewValue, format: Format)
      requires id in config.cells
      modifies config
      ensures config.cells == old(config.cells)[id := WithFormat(old(config.cells)[id], v, format)]
      ensures config.next == old(config.next)
    {
      if v.NewInt? || v.NewInt64? {
        var _ := config.SetFormat(id, format);
      } else {
        assert config.cells == config.cells[id := config.cells[id]];
      }
    }

    method StoreScalar(v: NewValue, format: Format) returns (ok: bool)
      requires Good(config.TheHeap()) && !ConfigActions.StoreScalar(v, format, TheCtx()).ctx.fault
      modifies config
      ensures var r := old(ConfigActions.StoreScalar(v, format, TheCtx())); ok == r.Continue? && TheCtx() == r.ctx
    {
      hide Good;
      if CursorIn(KArray) || CursorIn(KList) {
        GoodIsWellFormed(config.TheHeap());
        var e := config.SetElem(parent.value, -1, v);
        if e.None? { return false; }
        GiveFormat(e.value, v, format);
      } else {
        ghost var cells0, id := config.cells, setting.value;
        var _ := config.SetScalar(setting.value, v);
        GiveFormat(setting.value, v, format);
        ghost var cell := match ConfigHeap.SetScalar(cells0[id], v) case None => cells0[id] case Some(cell) => cell;
        assert config.cells == cells0[id := WithFormat(cell, v, format)];
      }
      return true;
    }

    // The switch over the rules in yyreduce; false is YYABORT.
    method Reduce(rule: int, val: Val) returns (ok: bool)
      requires Good(config.TheHeap()) && !Act(rule, val, TheCtx()).ctx.fault
      modifies this, config
      ensures var r := old(Act(rule, val, TheCtx())); ok == r.Continue? && TheCtx() == r.ctx
    {
      if rule == 8 {
        ok := BeginSetting(val.token.sval);
      } else if rule == 10 {
        ok := OpenAggregate(KArray);
      } else if rule == 12 {
        ok := OpenAggregate(KList);
      } else if rule == 35 {
        ok := OpenAggregate(KGroup);
      } else if rule == 11 || rule == 13 || rule == 36 {
        if parent.Some? { parent := config.cells[parent.value].parent; }
        ok := true;
      } else if rule == 18 || rule == 19 {
        text := text + val.token.sval;
        ok := true;
      } else if 20 <= rule <= 25 {
        var (v, format) := ScalarToken(rule, val).value;
        ok := StoreScalar(v, format);
      } else if rule == 26 {
        var s := text;
        text := "";
        ok := StoreScalar(NewString(Some(s)), Plain);
      } else {
        ok := true;
      }
    }

    // Label yybackup: the move to make and the look-ahead symbol, read if it was needed.
    static method Yybackup(yystate: int, yychar: int, rest: seq<Token>) returns (move: Move, yychar': int)
      requires yychar == YYEMPTY || yychar == Peek(rest)
      ensures move == Action(yystate, Peek(rest))
      ensures yychar' == YYEMPTY || yychar' == Peek(rest)
    {
      yychar' := yychar;
      var yyn := YyPact(yystate);
      if yyn == YYPACT_NINF {
        return DefaultMove(yystate), yychar';
      }
      if yychar' == YYEMPTY { yychar' := if rest == [] then 0 else rest[0].Symbol(); }
      yyn := yyn + yychar';
      if yyn < 0 || YYLAST < yyn || YyCheck(yyn) != yychar' {
        return DefaultMove(yystate), yychar';
      }
      yyn := YyTable(yyn);
      if yyn <= 0 {
        move := if yyn == 0 || yyn == YYTABLE_NINF then Error else Move.Reduce(-yyn);
      } else {
        move := if yyn == YYFINAL then Accept else Shift(yyn);
      }
    }

    // yyparse: 0 accepted, 1 syntax error or abort, 2 stack exhausted.
    method Yyparse(input: seq<Token>) returns (result: int)
      requires TheCtx() == StartCtx()
      modifies this, config
      ensures TheCtx() == Read(input).ctx
      ensures result == (match Read(input) case Accepted(_) => 0 case Exhausted(_) => 2 case _ => 1)
    {
      hide Ready;
      hide Good;
      hide Read;
      hide Measure;
      hide Act;
      hide Action;
      hide Goto;
      hide YyR1;
      hide YyR2;
      var yyss: seq<int>, yyvs: seq<Val> := [0], [Garbage];
      var pos, yychar := 0, YYEMPTY;
      ReadyAtStart(input);
      assert input[0..] == input;
      ghost var m := Start(input, StartCtx());
      while true
        invariant 0 <= pos <= |input|
        invariant m == Machine(yyss, yyvs, input[pos..], TheCtx())
        invariant Ready(m, input) && m.states != []
        invariant yychar == YYEMPTY || yychar == Peek(input[pos..])
        decreases Measure(m)
      {
        TurnKeeps(m, input);
        var move;
        move, yychar := Yybackup(yyss[|yyss| - 1], yychar, input[pos..]);
        match move {
          case Accept => return 0;
          case Error => return 1;  // yyerrlab: no state shifts the error token, so all are popped
          case Shift(yystate) =>
            assert input[pos..][1..] == input[pos + 1..];
            yyss, yyvs := yyss + [yystate], yyvs + [Sem(input[pos])];
            pos, yychar := pos + 1, YYEMPTY;
          case Reduce(rule) =>
            var yylen := YyR2(rule);
            var base := |yyss| - yylen;
            var yyval := if yylen == 0 then Garbage else yyvs[base];
            var ok := Reduce(rule, yyvs[|yyvs| - 1]);
            if !ok { return 1; }
            yyss, yyvs := yyss[..base], yyvs[..base];
            yyss, yyvs := yyss + [Goto(yyss[base - 1], YyR1(rule))], yyvs + [yyval];
        }
        if |yyss| >= YYMAXDEPTH { return 2; }
        m := Machine(yyss, yyvs, input[pos..], TheCtx());
      }
    }
  }

  // Error recovery finds no state to go on from: none has an entry for the error token.
  lemma NoErrorRule(state: int)
    requires IsState(state) && YyPact(state) != YYPACT_NINF
    ensures var n := YyPact(state) + 1; 0 <= n <= YYLAST ==> YyCheck(n) != 1
  {
  }

  // The loop may go on from this machine, which still leads where the whole input leads.
  ghost predicate Ready(m: Machine<Ctx>, input: seq<Token>) {
    SafeMachine(m) && Run(m, ACT) == Read(input)
  }

  lemma ReadyAtStart(input: seq<Token>)
    ensures Ready(Start(input, StartCtx()), input)
  {
    hide Run;
    StartIsSafe(input);
    StartIsReady(input);
  }

  lemma {:induction false} TurnKeeps(m: Machine<Ctx>, input: seq<Token>)
    requires Ready(m, input)
    ensures Inv(m) && |m.vals| == |m.states| > 0 && Good(m.ctx.heap) && !m.ctx.fault
    ensures var a := Action(Last(m.states), Peek(m.rest));
      && (a.Shift? ==> m.rest != [])
      && (a.Reduce? ==> 0 <= YyR2(a.rule) < |m.states|)
      && (a.Reduce? ==> !Act(a.rule, Last(m.vals), m.ctx).ctx.fault)
    ensures match Step(m, ACT)
            case Stops(v) => v == Read(input)
            case Goes(m') => Ready(m', input) && 0 <= Measure(m') < Measure(m)
  {
    hide Safe;
    hide TokenVals;
    hide Good;
    hide Chain;
    hide Run;
    hide Read;
    hide Step;
    hide Action;
    hide Act;
    hide Measure;
    hide YyR2;
    StepSafe(m);
    StepSafely(m);
    StepInv(m, ACT);
    UnfoldRun(m);
    SafeParts(m);
    match Action(Last(m.states), Peek(m.rest))
    case Reduce(rule) => ActsWithoutFault(m, rule);
    case _ =>
  }

  lemma UnfoldRun(m: Machine<Ctx>)
    requires Inv(m)
    ensures Run(m, ACT) == match Step(m, ACT) case Stops(v) => v case Goes(m') => (StepInv(m, ACT); Run(m', ACT))
  {
  }

  lemma SafeParts(m: Machine<Ctx>)
    requires SafeMachine(m)
    ensures Good(m.ctx.heap) && !m.ctx.fault
  {
    SafeHeap(m.states, m.ctx);
  }

  lemma {:induction false} ActsWithoutFault(m: Machine<Ctx>, rule: int)
    requires SafeMachine(m) && Inv(m) && Action(Last(m.states), Peek(m.rest)) == Move.Reduce(rule)
    ensures !Act(rule, Last(m.vals), m.ctx).ctx.fault
  {
    hide SafeMachine;
    hide Good;
    hide Act;
    hide Action;
    hide Chain;
    hide Goto;
    StepSafely(m);
    match Step(m, ACT)
    case Goes(m') => SafeParts(m');
    case Stops(_) =>
  }
}
