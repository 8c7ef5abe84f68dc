/** The semantic actions of the configuration grammar, and what a configuration means. */
module ConfigActions {
  import opened Wrappers
  import opened ConfigTables
  import opened ConfigParser
  import opened ConfigHeap
  import opened ConfigGrowth

  // The actions build the settings through the cursors ctx->parent and ctx->setting.
  //
  // Denote gives the meaning of a derivation directly, without heap or cursors. The theorem is that
  // running the actions of a whole derivation goes through exactly when the derivation has a
  // meaning, leaves that meaning in the heap and both cursors where they started.

  // The parse context. fault records that an action used a null cursor.
  datatype Ctx = Ctx(heap: Heap, parent: Option<int>, setting: Option<int>, text: string, fault: bool)

  function StartCtx(): Ctx {
    Ctx(InitHeap(), Some(ROOT), Some(ROOT), "", false)
  }

  predicate InKind(c: Ctx, kind: Kind) {
    c.parent.Some? && c.parent.value in c.heap.cells && c.heap.cells[c.parent.value].kind == kind
  }

  function Fault(c: Ctx): Reply<Ctx> {
    Abort(c.(fault := true))
  }

  // The action of rule 8: a new member of the current group, of no type yet.
  ghost function BeginSetting(name: string, c: Ctx): Reply<Ctx> {
    if c.parent.None? || c.parent.value !in c.heap.cells then Abort(c.(setting := None))
    else
      match Add(c.heap, c.parent.value, Some(name), KNone)
      case Added(h) => Continue(c.(heap := h, setting := Some(c.heap.next)))
      case Refused => Abort(c.(setting := None))
      case Crashes => Fault(c)
  }

  // The actions of rules 10, 12 and 35: inside a list a new element, otherwise the setting just
  // named, becomes an aggregate and the current parent.
  ghost function OpenAggregate(kind: Kind, c: Ctx): Reply<Ctx> {
    if InKind(c, KList) then
      match Add(c.heap, c.parent.value, None, kind)
      case Added(h) => Continue(c.(heap := h, parent := Some(c.heap.next)))
      case _ => Fault(c)
    else if c.setting.None? || c.setting.value !in c.heap.cells then Fault(c)
    else
      var id := c.setting.value;
      Continue(c.(heap := c.heap.(cells := c.heap.cells[id := c.heap.cells[id].(kind := kind)]),
                  parent := c.setting, setting := None))
  }

  // The actions of rules 11, 13 and 36.
  function CloseAggregate(c: Ctx): Reply<Ctx> {
    if c.parent.None? then Continue(c)
    else if c.parent.value !in c.heap.cells then Fault(c)
    else Continue(c.(parent := c.heap.cells[c.parent.value].parent))
  }

  // The actions of rules 20 to 26: inside an array or list a new element, otherwise the value of
  // the setting just named.
  function StoreScalar(v: NewValue, format: Format, c: Ctx): Reply<Ctx> {
    if InKind(c, KArray) || InKind(c, KList) then
      match SetElem(c.heap, c.parent.value, -1, v)
      case None => Abort(c)
      case Some((h, e)) =>
        if e !in h.cells then Fault(c)
        else Continue(c.(heap := h.(cells := h.cells[e := WithFormat(h.cells[e], v, format)])))
    else if c.setting.None? || c.setting.value !in c.heap.cells then Fault(c)
    else
      var id := c.setting.value;
      var cell := match SetScalar(c.heap.cells[id], v)
                  case None => c.heap.cells[id]
                  case Some(cell) => cell;
      Continue(c.(heap := c.heap.(cells := c.heap.cells[id := WithFormat(cell, v, format)])))
  }

  // Only the integer actions set a format.
  function WithFormat(cell: Setting, v: NewValue, format: Format): Setting {
    if v.NewInt? || v.NewInt64? then SetFormat(cell, format) else cell
  }

  ghost function Act(rule: int, val: Val, c: Ctx): Reply<Ctx> {
    if rule == 8 then (if val.Sem? && val.token.TokName? then BeginSetting(val.token.sval, c) else Fault(c))
    else if rule == 10 then OpenAggregate(KArray, c)
    else if rule == 12 then OpenAggregate(KList, c)
    else if rule == 35 then OpenAggregate(KGroup, c)
    else if rule == 11 || rule == 13 || rule == 36 then CloseAggregate(c)
    else if rule == 18 || rule == 19 then
      if val.Sem? && val.token.TokString? then Continue(c.(text := c.text + val.token.sval)) else Fault(c)
    else if 20 <= rule <= 25 then
      match ScalarToken(rule, val)
      case None => Fault(c)
      case Some((v, format)) => StoreScalar(v, format, c)
    else if rule == 26 then StoreScalar(NewString(Some(c.text)), Plain, c.(text := ""))
    else Continue(c)
  }

  // What each of these rules reads of its token, and the format it gives.
  function ScalarToken(rule: int, val: Val): Option<(NewValue, Format)> {
    if val.Garbage? then None
    else
      match val.token
      case TokBoolean(i) => if rule == 20 then Some((NewBool(i), Plain)) else None
      case TokInteger(i) => if rule == 21 then Some((NewInt(i), Plain)) else None
      case TokInteger64(i) => if rule == 22 then Some((NewInt64(i), Plain)) else None
      case TokHex(i) => if rule == 23 then Some((NewInt(i), Hex)) else None
      case TokHex64(i) => if rule == 24 then Some((NewInt64(i), Hex)) else None
      case TokFloat(f) => if rule == 25 then Some((NewFloat(f), Plain)) else None
      case _ => None
  }

  ghost const ACT: SemAction<Ctx> := (rule, val, c) => Act(rule, val, c)

  // ---------- the meaning of a derivation ----------

  function DenoteString(t: Tree): string {
    if t.Node? && t.rule == 18 && |t.kids| == 1 && t.kids[0].Leaf? && t.kids[0].token.TokString? then
      t.kids[0].token.sval
    else if t.Node? && t.rule == 19 && |t.kids| == 2 && t.kids[1].Leaf? && t.kids[1].token.TokString? then
      DenoteString(t.kids[0]) + t.kids[1].token.sval
    else ""
  }

  // A scalar: the value to be stored and its format.
  function DenoteScalar(t: Tree): (NewValue, Format) {
    if t.Node? && |t.kids| == 1 then
      if t.rule == 26 then (NewString(Some(DenoteString(t.kids[0]))), Plain)
      else
        match ScalarToken(t.rule, ValOf(t.kids[0]))
        case None => (NewBool(0), Plain)
        case Some(p) => p
    else (NewBool(0), Plain)
  }

  function ConfOf(v: NewValue, format: Format): Conf {
    match v
    case NewInt(i) => IntC(i, format)
    case NewInt64(i) => Int64C(i, format)
    case NewFloat(f) => FloatC(f)
    case NewBool(i) => BoolC(i)
    case NewString(s) => StringC(s)
  }

  function KindOfConf(c: Conf): Kind {
    match c
    case NoneC => KNone
    case BoolC(_) => KBool
    case IntC(_, _) => KInt
    case Int64C(_, _) => KInt64
    case FloatC(_) => KFloat
    case StringC(_) => KString
    case GroupC(_) => KGroup
    case ArrayC(_) => KArray
    case ListC(_) => KList
  }

  function Element(t: Tree): Item {
    var (v, format) := DenoteScalar(t);
    Item(None, ConfOf(v, format))
  }

  // The elements of an array; none if they differ in type from the first.
  function DenoteScalars(t: Tree): Option<seq<Item>> {
    if t.Node? && t.rule == 31 && |t.kids| == 1 then Some([Element(t.kids[0])])
    else if t.Node? && t.rule == 32 && |t.kids| == 3 then
      match DenoteScalars(t.kids[0])
      case None => None
      case Some(items) =>
        var e := Element(t.kids[2]);
        if items != [] && KindOfConf(items[0].conf) != KindOfConf(e.conf) then None else Some(items + [e])
    else None
  }

  function DenoteValue(t: Tree): Option<Conf> {
    if !(t.Node? && |t.kids| == 1) then None
    else if t.rule == 14 then Some(Element(t.kids[0]).conf)
    else if !(t.kids[0].Node? && |t.kids[0].kids| == 4) then None
    else
      var body := t.kids[0].kids[2];
      if t.rule == 15 then
        match OrEmpty(body, if HasBody(body) then DenoteScalars(body.kids[0]) else None)
        case None => None
        case Some(items) => Some(ArrayC(items))
      else if t.rule == 16 then
        match OrEmpty(body, if HasBody(body) then DenoteValues(body.kids[0]) else None)
        case None => None
        case Some(items) => Some(ListC(items))
      else if t.rule == 17 then
        match OrEmpty(body, if HasBody(body) then DenoteMembers(body.kids[0]) else None)
        case None => None
        case Some(items) => Some(GroupC(items))
      else None
  }

  predicate HasBody(t: Tree) {
    t.Node? && |t.kids| == 1
  }

  function OrEmpty(body: Tree, items: Option<seq<Item>>): Option<seq<Item>> {
    if HasBody(body) then items else Some([])
  }

  // The elements of a list.
  function DenoteValues(t: Tree): Option<seq<Item>> {
    if t.Node? && t.rule == 27 && |t.kids| == 1 then
      match DenoteValue(t.kids[0])
      case None => None
      case Some(v) => Some([Item(None, v)])
    else if t.Node? && t.rule == 28 && |t.kids| == 3 then
      match DenoteValues(t.kids[0])
      case None => None
      case Some(items) =>
        match DenoteValue(t.kids[2])
        case None => None
        case Some(v) => Some(items + [Item(None, v)])
    else None
  }

  function DenoteMember(t: Tree): Option<Item> {
    if t.Node? && t.rule == 9 && |t.kids| == 5 && t.kids[0].Leaf? && t.kids[0].token.TokName?
       && ValidName(t.kids[0].token.sval) then
      match DenoteValue(t.kids[3])
      case None => None
      case Some(v) => Some(Item(Some(t.kids[0].token.sval), v))
    else None
  }

  // The members of a group; none if a name is invalid or comes twice.
  function DenoteMembers(t: Tree): Option<seq<Item>> {
    if t.Node? && t.rule == 4 && |t.kids| == 1 then
      match DenoteMember(t.kids[0])
      case None => None
      case Some(m) => Some([m])
    else if t.Node? && t.rule == 5 && |t.kids| == 2 then
      match DenoteMembers(t.kids[0])
      case None => None
      case Some(items) =>
        match DenoteMember(t.kids[1])
        case None => None
        case Some(m) => if Named(items, m.name) then None else Some(items + [m])
    else None
  }

  predicate Named(items: seq<Item>, name: Option<string>) {
    exists i :: 0 <= i < |items| && items[i].name == name
  }

  // A whole configuration.
  function Denote(t: Tree): Option<Conf> {
    if HasBody(t) then
      match DenoteMembers(t.kids[0])
      case None => None
      case Some(items) => Some(GroupC(items))
    else Some(GroupC([]))
  }

  // ---------- shapes of derivations ----------

  lemma RulesOf(rule: int)
    requires 2 <= rule <= 36
    ensures var s := YyR1(rule);
      && (s == 24 ==> rule in {2, 3}) && (s == 25 ==> rule in {4, 5}) && (s == 26 ==> rule in {6, 7})
      && (s == 27 ==> rule == 9) && (s == 28 ==> rule == 8) && (s == 29 ==> rule == 11)
      && (s == 30 ==> rule == 10) && (s == 31 ==> rule == 13) && (s == 32 ==> rule == 12)
      && (s == 33 ==> rule in {14, 15, 16, 17}) && (s == 34 ==> rule in {18, 19})
      && (s == 35 ==> 20 <= rule <= 26) && (s == 36 ==> rule in {27, 28}) && (s == 37 ==> rule in {29, 30})
      && (s == 38 ==> rule in {31, 32}) && (s == 39 ==> rule in {33, 34}) && (s == 40 ==> rule == 36)
      && (s == 41 ==> rule == 35) && 24 <= s
  {
  }

  lemma {:induction false} NodeOf(t: Tree)
    requires Derivation(t) && Root(t) >= YYNTOKENS
    ensures t.Node? && 2 <= t.rule <= 36 && YyR1(t.rule) == Root(t) && |t.kids| == YyR2(t.rule)
    ensures forall i :: 0 <= i < |t.kids| ==> Derivation(t.kids[i]) && Root(t.kids[i]) == RhsAt(t.rule, i)
  {
  }

  lemma {:induction false} LeafOf(t: Tree)
    requires Derivation(t) && Root(t) < YYNTOKENS
    ensures t.Leaf? && t.token.Symbol() == Root(t)
  {
    if t.Node? { RulesOf(t.rule); }
  }

  // An aggregate: a bracket, the mid-rule action, the optional body and the other bracket.
  ghost predicate Brackets(t: Tree, rule: int, open: int, body: int) {
    && t.Node? && t.rule == rule && |t.kids| == 4
    && t.kids[0].Leaf? && t.kids[1] == Node(open, []) && t.kids[3].Leaf?
    && Derivation(t.kids[2]) && Root(t.kids[2]) == body
  }

  lemma {:induction false} AggregateShape(t: Tree)
    requires Derivation(t) && Root(t) in {29, 31, 40}
    ensures Root(t) == 29 ==> Brackets(t, 11, 10, 39)
    ensures Root(t) == 31 ==> Brackets(t, 13, 12, 37)
    ensures Root(t) == 40 ==> Brackets(t, 36, 35, 26)
  {
    NodeOf(t);
    RulesOf(t.rule);
    LeafOf(t.kids[0]);
    LeafOf(t.kids[3]);
    NodeOf(t.kids[1]);
    RulesOf(t.kids[1].rule);
  }

  // An optional body: nothing, or one tree of a given root.
  lemma {:induction false} BodyShape(t: Tree)
    requires Derivation(t) && Root(t) in {24, 26, 37, 39}
    ensures t.Node? && Act(t.rule, Garbage, StartCtx()) == Continue(StartCtx())
    ensures t.kids == [] || (HasBody(t) && Derivation(t.kids[0]))
    ensures HasBody(t) ==> Root(t.kids[0]) == if Root(t) == 37 then 36 else if Root(t) == 39 then 38 else 25
    ensures t.rule in {2, 3, 6, 7, 29, 30, 33, 34}
  {
    NodeOf(t);
    RulesOf(t.rule);
  }

  lemma {:induction false} ValueShape(t: Tree)
    requires Derivation(t) && Root(t) == 33
    ensures t.Node? && t.rule in {14, 15, 16, 17} && |t.kids| == 1 && Derivation(t.kids[0])
    ensures Root(t.kids[0]) == if t.rule == 14 then 35 else if t.rule == 15 then 29 else if t.rule == 16 then 31 else 40
  {
    NodeOf(t);
    RulesOf(t.rule);
  }

  lemma {:induction false} ScalarShape(t: Tree)
    requires Derivation(t) && Root(t) == 35
    ensures t.Node? && 20 <= t.rule <= 26 && |t.kids| == 1 && Derivation(t.kids[0])
    ensures t.rule < 26 ==> t.kids[0].Leaf? && ScalarToken(t.rule, Sem(t.kids[0].token)).Some?
    ensures t.rule == 26 ==> Root(t.kids[0]) == 34
  {
    NodeOf(t);
    RulesOf(t.rule);
    if t.rule < 26 { LeafOf(t.kids[0]); }
  }

  lemma {:induction false} StringShape(t: Tree)
    requires Derivation(t) && Root(t) == 34
    ensures t.Node? && t.rule in {18, 19} && |t.kids| == t.rule - 17
    ensures t.kids[t.rule - 18].Leaf? && t.kids[t.rule - 18].token.TokString?
    ensures t.rule == 19 ==> Derivation(t.kids[0]) && Root(t.kids[0]) == 34
  {
    NodeOf(t);
    RulesOf(t.rule);
    LeafOf(t.kids[t.rule - 18]);
  }

  // The left-recursive rows: one tree, or a row, perhaps a comma, and a tree.
  ghost predicate Row(t: Tree, one: int, more: int, row: int, elem: int) {
    && t.Node? && t.rule in {one, more}
    && (t.rule == one ==> |t.kids| == 1 && Derivation(t.kids[0]) && Root(t.kids[0]) == elem)
    && (t.rule == more ==>
      && |t.kids| == (if row == 25 then 2 else 3)
      && Derivation(t.kids[0]) && Root(t.kids[0]) == row
      && (row != 25 ==> t.kids[1].Leaf?)
      && Derivation(t.kids[|t.kids| - 1]) && Root(t.kids[|t.kids| - 1]) == elem)
  }

  lemma {:induction false} RowShape(t: Tree)
    requires Derivation(t) && Root(t) in {25, 36, 38}
    ensures Root(t) == 25 ==> Row(t, 4, 5, 25, 27)
    ensures Root(t) == 36 ==> Row(t, 27, 28, 36, 33)
    ensures Root(t) == 38 ==> Row(t, 31, 32, 38, 35)
  {
    NodeOf(t);
    RulesOf(t.rule);
    if |t.kids| == 3 { LeafOf(t.kids[1]); }
  }

  lemma {:induction false} MemberShape(t: Tree)
    requires Derivation(t) && Root(t) == 27
    ensures t.Node? && t.rule == 9 && |t.kids| == 5
    ensures t.kids[0].Leaf? && t.kids[0].token.TokName? && t.kids[1] == Node(8, [])
    ensures t.kids[2].Leaf? && t.kids[4].Leaf?
    ensures Derivation(t.kids[3]) && Root(t.kids[3]) == 33
  {
    NodeOf(t);
    RulesOf(t.rule);
    LeafOf(t.kids[0]);
    LeafOf(t.kids[2]);
    LeafOf(t.kids[4]);
    NodeOf(t.kids[1]);
    RulesOf(t.kids[1].rule);
  }

  // ---------- running the actions of nodes ----------

  lemma {:induction false} ExecFront<C>(ts: seq<Tree>, left: Val, c: C, act: SemAction<C>)
    requires ts != []
    ensures ExecAll(ts, left, c, act) ==
      match Exec(ts[0], left, c, act)
      case Abort(c') => Abort(c')
      case Continue(c') => ExecAll(ts[1..], ValOf(ts[0]), c', act)
  {
    AppendExec([ts[0]], ts[1..], left, c, act);
    assert [ts[0]] + ts[1..] == ts;
    assert [ts[0]][..0] == [];
  }

  lemma {:induction false} ExecOne<C>(rule: int, t: Tree, left: Val, c: C, act: SemAction<C>)
    ensures Exec(Node(rule, [t]), left, c, act) ==
      match Exec(t, left, c, act)
      case Abort(c') => Abort(c')
      case Continue(c') => act(rule, ValOf(t), c')
  {
    ExecFront([t], left, c, act);
  }

  lemma {:induction false} ExecTwo<C>(rule: int, t: Tree, u: Tree, left: Val, c: C, act: SemAction<C>)
    ensures Exec(Node(rule, [t, u]), left, c, act) ==
      match Exec(t, left, c, act)
      case Abort(c') => Abort(c')
      case Continue(c') =>
        match Exec(u, ValOf(t), c', act)
        case Abort(c'') => Abort(c'')
        case Continue(c'') => act(rule, ValOf(u), c'')
  {
    ExecFront([t, u], left, c, act);
    assert [t, u][1..] == [u];
    if Exec(t, left, c, act).Continue? {
      ExecFront([u], ValOf(t), Exec(t, left, c, act).ctx, act);
    }
  }

  // A row, a comma and one more tree.
  lemma {:induction false} ExecComma<C>(rule: int, t: Tree, comma: Token, u: Tree, left: Val, c: C, act: SemAction<C>)
    ensures Exec(Node(rule, [t, Leaf(comma), u]), left, c, act) ==
      match Exec(t, left, c, act)
      case Abort(c') => Abort(c')
      case Continue(c') =>
        match Exec(u, Sem(comma), c', act)
        case Abort(c'') => Abort(c'')
        case Continue(c'') => act(rule, ValOf(u), c'')
  {
    var ts := [t, Leaf(comma), u];
    ExecFront(ts, left, c, act);
    assert ts[1..] == [Leaf(comma), u] && ts[1..][1..] == [u];
    if Exec(t, left, c, act).Continue? {
      var c' := Exec(t, left, c, act).ctx;
      ExecFront(ts[1..], ValOf(t), c', act);
      ExecFront([u], Sem(comma), c', act);
    }
  }

  // A token, a mid-rule action, and what comes after it.
  lemma {:induction false} ExecMidRule<C>(token: Token, open: int, rest: seq<Tree>, left: Val, c: C, act: SemAction<C>)
    ensures ExecAll([Leaf(token), Node(open, [])] + rest, left, c, act) ==
      match act(open, Sem(token), c)
      case Abort(c') => Abort(c')
      case Continue(c') => ExecAll(rest, Garbage, c', act)
  {
    var ts := [Leaf(token), Node(open, [])] + rest;
    ExecFront(ts, left, c, act);
    assert ts[1..] == [Node(open, [])] + rest && ts[1..][1..] == rest;
    ExecFront(ts[1..], Sem(token), c, act);
  }

  lemma {:induction false} ExecBrackets<C>(t: Tree, rule: int, open: int, body: int, left: Val, c: C, act: SemAction<C>)
    requires Brackets(t, rule, open, body)
    ensures Exec(t, left, c, act) ==
      match act(open, Sem(t.kids[0].token), c)
      case Abort(c') => Abort(c')
      case Continue(c') =>
        match Exec(t.kids[2], Garbage, c', act)
        case Abort(c'') => Abort(c'')
        case Continue(c'') => act(rule, Sem(t.kids[3].token), c'')
  {
    var rest := [t.kids[2], t.kids[3]];
    assert t.kids == [Leaf(t.kids[0].token), Node(open, [])] + rest;
    ExecMidRule(t.kids[0].token, open, rest, left, c, act);
    match act(open, Sem(t.kids[0].token), c)
    case Abort(_) =>
    case Continue(c') =>
      ExecFront(rest, Garbage, c', act);
      assert rest[1..] == [t.kids[3]];
      if Exec(t.kids[2], Garbage, c', act).Continue? {
        ExecFront([t.kids[3]], ValOf(t.kids[2]), Exec(t.kids[2], Garbage, c', act).ctx, act);
      }
  }

  // Rules without an action.
  predicate NoAction(rule: int) {
    rule !in {8, 10, 11, 12, 13, 18, 19, 35, 36} && !(20 <= rule <= 26)
  }

  lemma {:induction false} ExecPlain(t: Tree, left: Val, c: Ctx)
    requires t.Node? && |t.kids| == 1 && NoAction(t.rule)
    ensures Exec(t, left, c, ACT) == Exec(t.kids[0], left, c, ACT)
  {
    hide Exec;
    assert t == Node(t.rule, [t.kids[0]]);
    ExecOne(t.rule, t.kids[0], left, c, ACT);
  }

  lemma {:induction false} ExecRow(t: Tree, left: Val, c: Ctx)
    requires t.Node? && t.rule in {5, 28, 32}
    requires if t.rule == 5 then |t.kids| == 2 else |t.kids| == 3 && t.kids[1].Leaf?
    ensures Exec(t, left, c, ACT) ==
      match Exec(t.kids[0], left, c, ACT)
      case Abort(c') => Abort(c')
      case Continue(c') => Exec(t.kids[|t.kids| - 1], ValOf(t.kids[|t.kids| - 2]), c', ACT)
  {
    hide Exec;
    if t.rule == 5 {
      assert t == Node(5, [t.kids[0], t.kids[1]]);
      ExecTwo(5, t.kids[0], t.kids[1], left, c, ACT);
    } else {
      assert t == Node(t.rule, [t.kids[0], Leaf(t.kids[1].token), t.kids[2]]);
      ExecComma(t.rule, t.kids[0], t.kids[1].token, t.kids[2], left, c, ACT);
    }
  }

  // ---------- the actions at work ----------

  // Between values: nothing pending, and the current parent is there.
  ghost predicate Clean(c: Ctx) {
    Good(c.heap) && !c.fault && c.text == "" && c.parent.Some? && c.parent.value in c.heap.cells
  }

  // A value about to be read becomes an element of the current list, or of the current array,
  // or the value of the setting just named.
  ghost predicate InVector(c: Ctx) {
    Clean(c) && (InKind(c, KArray) || InKind(c, KList))
  }

  ghost predicate InSetting(c: Ctx) {
    && Clean(c) && InKind(c, KGroup)
    && c.setting.Some? && c.setting.value in c.heap.cells && c.setting.value != ROOT
    && c.heap.cells[c.setting.value].kind == KNone && c.heap.cells[c.setting.value].kids == []
    && c.heap.cells[c.setting.value].parent == c.parent
  }

  ghost predicate Filled(c: Ctx, c': Ctx, conf: Conf) {
    && Clean(c') && c'.parent == c.parent
    && (InVector(c) ==> Extends(c.heap, c'.heap, c.parent.value, [Item(None, conf)]))
    && (InSetting(c) ==> Fills(c.heap, c'.heap, c.setting.value, conf))
  }

  function NewElement(v: NewValue, format: Format, parent: int): Setting {
    WithFormat(NewSetting(None, v.KindOf(), Some(parent)).(value := v.Stored()), v, format)
  }

  lemma {:induction false} StoreElementHeap(v: NewValue, format: Format, c: Ctx)
    requires InKind(c, KArray) || InKind(c, KList)
    requires c.parent.value != c.heap.next
    ensures var h, p := c.heap, c.parent.value;
      StoreScalar(v, format, c) ==
        if CheckType(h, h.cells[p], v.KindOf())
        then Continue(c.(heap := var h1 := Create(h, p, None, v.KindOf());
                                 h1.(cells := h1.cells[h.next := NewElement(v, format, p)])))
        else Abort(c)
  {
    var h, p := c.heap, c.parent.value;
    var h1 := Create(h, p, None, v.KindOf());
    assert h1.cells[h.next] == NewSetting(None, v.KindOf(), Some(p));
    var x, y := h1.cells[h.next].(value := v.Stored()), NewElement(v, format, p);
    assert h1.cells[h.next := x][h.next := y] == h1.cells[h.next := y];
  }

  lemma {:induction false} StoreElement(v: NewValue, format: Format, c: Ctx)
    requires InVector(c)
    ensures var r := StoreScalar(v, format, c);
      if CheckType(c.heap, c.heap.cells[c.parent.value], v.KindOf())
      then r.Continue? && Filled(c, r.ctx, ConfOf(v, format))
      else r.Abort? && !r.ctx.fault
  {
    hide Good;
    hide StoreScalar;
    hide CheckType;
    GoodInRange(c.heap, c.parent.value);
    StoreElementHeap(v, format, c);
    if CheckType(c.heap, c.heap.cells[c.parent.value], v.KindOf()) {
      StoredElement(c.heap, c.parent.value, v, format);
    }
  }

  lemma {:induction false} StoredElement(h: Heap, p: int, v: NewValue, format: Format)
    requires Good(h) && p in h.cells && Vector(h.cells[p].kind) && CheckType(h, h.cells[p], v.KindOf())
    ensures var h1 := Create(h, p, None, v.KindOf());
      Extends(h, h1.(cells := h1.cells[h.next := NewElement(v, format, p)]), p, [Item(None, ConfOf(v, format))])
  {
    hide Good;
    var h1 := Create(h, p, None, v.KindOf());
    CreateExtends(h, p, None, v.KindOf());
    var cell := NewElement(v, format, p);
    assert ScalarOf(cell) == ConfOf(v, format);
    GoodInRange(h, p);
    FillScalar(h1, h.next, cell);
    CreateThenFill(h, h1.(cells := h1.cells[h.next := cell]), p, None, v.KindOf(), ConfOf(v, format));
  }

  lemma {:induction false} StoreInSetting(v: NewValue, format: Format, c: Ctx)
    requires InSetting(c)
    ensures var r := StoreScalar(v, format, c); r.Continue? && Filled(c, r.ctx, ConfOf(v, format))
  {
    hide Good;
    var id := c.setting.value;
    var cell := WithFormat(c.heap.cells[id].(kind := v.KindOf(), value := v.Stored()), v, format);
    FillScalar(c.heap, id, cell);
    assert ScalarOf(cell) == ConfOf(v, format);
  }

  lemma {:induction false} ExecString(t: Tree, left: Val, c: Ctx)
    requires Derivation(t) && Root(t) == 34
    ensures Exec(t, left, c, ACT) == Continue(c.(text := c.text + DenoteString(t)))
    decreases t
  {
    hide Derivation;
    hide Root;
    StringShape(t);
    if t.rule == 18 {
      assert t == Node(18, [t.kids[0]]);
      ExecOne(18, t.kids[0], left, c, ACT);
    } else {
      ExecString(t.kids[0], left, c);
      assert t == Node(19, [t.kids[0], t.kids[1]]);
      ExecTwo(19, t.kids[0], t.kids[1], left, c, ACT);
      var d, s := DenoteString(t.kids[0]), t.kids[1].token.sval;
      assert (c.text + d) + s == c.text + (d + s);
    }
  }

  // Reading a scalar comes down to storing it.
  lemma {:induction false} ExecScalar(t: Tree, left: Val, c: Ctx)
    requires Derivation(t) && Root(t) == 35 && c.text == ""
    ensures Exec(t, left, c, ACT) == StoreScalar(DenoteScalar(t).0, DenoteScalar(t).1, c)
  {
    hide StoreScalar;
    ScalarShape(t);
    var k := t.kids[0];
    assert t == Node(t.rule, [k]);
    ExecOne(t.rule, k, left, c, ACT);
    if t.rule == 26 {
      ExecString(k, left, c);
      assert "" + DenoteString(k) == DenoteString(k);
    }
  }

  // ---------- aggregates ----------

  // Just after an aggregate has been opened.
  ghost predicate Opened(c: Ctx, c1: Ctx, kind: Kind) {
    && Clean(c1) && InKind(c1, kind) && c1.heap.cells[c1.parent.value].kids == []
    && (InVector(c) ==> c1.heap == Create(c.heap, c.parent.value, None, kind) && c1.parent.value == c.heap.next)
    && (InSetting(c) ==>
      && c1.parent == c.setting
      && c1.heap == c.heap.(cells := c.heap.cells[c.setting.value := c.heap.cells[c.setting.value].(kind := kind)]))
  }

  lemma {:induction false} OpenWorks(kind: Kind, c: Ctx)
    requires Aggregate(kind) && Clean(c) && (InKind(c, KList) || InSetting(c))
    ensures OpenAggregate(kind, c).Continue? && Opened(c, OpenAggregate(kind, c).ctx, kind)
  {
    hide Good;
    var h := c.heap;
    GoodInRange(h, c.parent.value);
    if InKind(c, KList) {
      CreateExtends(h, c.parent.value, None, kind);
    } else {
      var id := c.setting.value;
      FillGood(h, id, h.cells[id].(kind := kind));
    }
  }

  // Closing an aggregate whose items have been read leaves it in its place.
  lemma {:induction false} CloseWorks(kind: Kind, c: Ctx, c1: Ctx, c2: Ctx, items: seq<Item>)
    requires Aggregate(kind) && Clean(c) && (InKind(c, KList) || InSetting(c))
    requires Opened(c, c1, kind) && Clean(c2) && c2.parent == c1.parent
    requires Extends(c1.heap, c2.heap, c1.parent.value, items)
    ensures CloseAggregate(c2).Continue? && Filled(c, CloseAggregate(c2).ctx, Aggregated(kind, items))
  {
    hide Good;
    var h, h1, h2, id := c.heap, c1.heap, c2.heap, c1.parent.value;
    GoodInRange(h, c.parent.value);
    if InKind(c, KList) {
      var p := c.parent.value;
      assert h1.cells[id] == NewSetting(None, kind, Some(p));
      assert h1.(cells := h1.cells[id := h1.cells[id]]) == h1;
      FillAggregate(h1, h2, id, h1.cells[id], items) by { GoodInRange(h, p); }
      CreateThenFill(h, h2, p, None, kind, Aggregated(kind, items));
    } else {
      FillAggregate(h, h2, id, h.cells[id].(kind := kind), items);
    }
  }

  // What reading a row of items in the current aggregate comes to: nothing if it has no
  // meaning, its items appended otherwise.
  ghost predicate Appends(c: Ctx, r: Reply<Ctx>, items: Option<seq<Item>>)
    requires c.parent.Some?
  {
    match items
    case None => r.Abort? && !r.ctx.fault
    case Some(items) =>
      && r.Continue? && Clean(r.ctx) && r.ctx.parent == c.parent
      && Extends(c.heap, r.ctx.heap, c.parent.value, items)
  }

  // Two rows one after the other.
  lemma {:induction false} AppendsTwice(c: Ctx, c1: Ctx, c2: Ctx, a: seq<Item>, b: seq<Item>)
    requires Clean(c) && Appends(c, Continue(c1), Some(a)) && Appends(c1, Continue(c2), Some(b))
    ensures Appends(c, Continue(c2), Some(a + b))
  {
    ExtendsTrans(c.heap, c1.heap, c2.heap, c.parent.value, a, b);
  }

  lemma {:induction false} ExecScalars(t: Tree, left: Val, c: Ctx)
    requires Derivation(t) && Root(t) == 38
    requires InVector(c) && InKind(c, KArray) && c.heap.cells[c.parent.value].kids == []
    ensures Appends(c, Exec(t, left, c, ACT), DenoteScalars(t))
    ensures DenoteScalars(t).Some? ==> DenoteScalars(t).value != []
    decreases t
  {
    hide Act;
    hide Exec;
    hide Appends;
    hide InVector;
    hide Element;
    hide Derivation;
    hide Root;
    RowShape(t);
    var e := t.kids[|t.kids| - 1];
    if t.rule == 31 {
      ExecPlain(t, left, c);
      FirstScalar(e, left, c);
    } else {
      ExecRow(t, left, c);
      ExecScalars(t.kids[0], left, c);
      AppendsOrAborts(c, Exec(t.kids[0], left, c, ACT), DenoteScalars(t.kids[0]));
      if DenoteScalars(t.kids[0]).Some? {
        NextScalar(e, ValOf(t.kids[1]), c, Exec(t.kids[0], left, c, ACT).ctx, DenoteScalars(t.kids[0]).value);
      }
    }
  }

  lemma {:induction false} FirstScalar(e: Tree, left: Val, c: Ctx)
    requires Derivation(e) && Root(e) == 35
    requires InVector(c) && InKind(c, KArray) && c.heap.cells[c.parent.value].kids == []
    ensures Appends(c, Exec(e, left, c, ACT), Some([Element(e)]))
  {
    hide Good;
    hide StoreScalar;
    hide Extends;
    hide Exec;
    hide Derivation;
    var (v, format) := DenoteScalar(e);
    ExecScalar(e, left, c);
    StoreElement(v, format, c);
  }

  // One more element behind a row of them.
  lemma {:induction false} NextScalar(e: Tree, left: Val, c: Ctx, c1: Ctx, items: seq<Item>)
    requires Derivation(e) && Root(e) == 35
    requires InVector(c) && InKind(c, KArray) && c.heap.cells[c.parent.value].kids == [] && items != []
    requires Appends(c, Continue(c1), Some(items))
    ensures Appends(c, Exec(e, left, c1, ACT),
      if KindOfConf(items[0].conf) == KindOfConf(Element(e).conf) then Some(items + [Element(e)]) else None)
  {
    hide Good;
    hide StoreScalar;
    hide Extends;
    hide Exec;
    hide Derivation;
    hide CheckType;
    var (v, format) := DenoteScalar(e);
    ArrayType(c, c1, items, v.KindOf());
    ExecScalar(e, left, c1);
    assert KindOfConf(ConfOf(v, format)) == v.KindOf();
    StoreElement(v, format, c1);
    if KindOfConf(items[0].conf) == v.KindOf() {
      AppendsTwice(c, c1, StoreScalar(v, format, c1).ctx, items, [Element(e)]);
    }
  }

  // A row without a meaning aborts, one with a meaning leaves the cursor where it was.
  lemma AppendsOrAborts(c: Ctx, r: Reply<Ctx>, items: Option<seq<Item>>)
    requires c.parent.Some? && Appends(c, r, items)
    ensures if items.None? then r.Abort? else r.Continue? && Clean(r.ctx) && r.ctx.parent == c.parent
  {
  }

  // The type check of an array looks at its first element.
  lemma {:induction false} ArrayType(c: Ctx, c1: Ctx, items: seq<Item>, kind: Kind)
    requires InVector(c) && InKind(c, KArray) && c.heap.cells[c.parent.value].kids == [] && items != []
    requires Appends(c, Continue(c1), Some(items))
    ensures InVector(c1) && InKind(c1, KArray)
    ensures CheckType(c1.heap, c1.heap.cells[c1.parent.value], kind) <==> KindOfConf(items[0].conf) == kind
  {
    hide Good;
    hide Items;
    hide Abs;
    var h, id := c1.heap, c1.parent.value;
    assert |AllItems(c.heap, id)| == 0 && |AllItems(h, id)| == |h.cells[id].kids|;
    assert AllItems(h, id) == items;
    FirstItem(h, id);
    AbsKind(h, h.cells[id].kids[0]);
  }

  lemma {:induction false} FirstItem(h: Heap, id: int)
    requires Good(h) && id in h.cells && h.cells[id].kids != []
    ensures id < h.next && h.cells[id].kids[0] in h.cells
    ensures AllItems(h, id)[0].conf == Abs(h, h.cells[id].kids[0])
  {
    ItemAt(h, id, 0);
  }

  lemma {:induction false} AbsKind(h: Heap, id: int)
    requires Good(h) && id in h.cells
    ensures KindOfConf(Abs(h, id)) == h.cells[id].kind
  {
    hide Good;
    hide Items;
    GoodInRange(h, id);
  }

  // ---------- the main induction ----------

  ghost predicate EmptyBody(c: Ctx, kind: Kind) {
    Clean(c) && InKind(c, kind) && c.heap.cells[c.parent.value].kids == []
  }

  lemma {:induction false} ExecScalarValue(k: Tree, left: Val, c: Ctx)
    requires Derivation(k) && Root(k) == 35
    requires Clean(c) && (InKind(c, KList) || InSetting(c))
    ensures var r := Exec(k, left, c, ACT); r.Continue? && Filled(c, r.ctx, Element(k).conf)
  {
    hide Good;
    hide StoreScalar;
    hide Extends;
    hide Fills;
    hide Exec;
    ExecScalar(k, left, c);
    var (v, format) := DenoteScalar(k);
    if InSetting(c) { StoreInSetting(v, format, c); } else { StoreElement(v, format, c); }
  }

  // The aggregate opened by rule open and closed by rule close.
  ghost predicate AggregateRules(kind: Kind, open: int, close: int, body: int) {
    || (kind == KArray && open == 10 && close == 11 && body == 39)
    || (kind == KList && open == 12 && close == 13 && body == 37)
    || (kind == KGroup && open == 35 && close == 36 && body == 26)
  }

  lemma {:induction false} ExecAggregate(k: Tree, kind: Kind, open: int, close: int, left: Val, c: Ctx)
    requires exists root :: AggregateRules(kind, open, close, root) && Brackets(k, close, open, root)
    requires Clean(c) && (InKind(c, KList) || InSetting(c))
    ensures var r := Exec(k, left, c, ACT);
      match DenoteBody(k.kids[2], kind)
      case None => r.Abort? && !r.ctx.fault
      case Some(items) => r.Continue? && Filled(c, r.ctx, Aggregated(kind, items))
    decreases k
  {
    hide Good;
    hide Clean;
    hide Act;
    hide OpenAggregate;
    hide CloseAggregate;
    hide Filled;
    hide Exec;
    hide Derivation;
    hide DenoteBody;
    var body := k.kids[2];
    AggregateRuns(k, kind, open, close, left, c);
    OpenWorks(kind, c);
    var c1 := OpenAggregate(kind, c).ctx;
    OpenedEmpty(c, c1, kind);
    ExecBody(body, c1, kind);
    AppendsOrAborts(c1, Exec(body, Garbage, c1, ACT), DenoteBody(body, kind));
    if DenoteBody(body, kind).Some? {
      CloseWorks(kind, c, c1, Exec(body, Garbage, c1, ACT).ctx, DenoteBody(body, kind).value);
    }
  }

  lemma {:induction false} AggregateRuns(k: Tree, kind: Kind, open: int, close: int, left: Val, c: Ctx)
    requires exists root :: AggregateRules(kind, open, close, root) && Brackets(k, close, open, root)
    ensures Exec(k, left, c, ACT) ==
      match OpenAggregate(kind, c)
      case Abort(c') => Abort(c')
      case Continue(c') =>
        match Exec(k.kids[2], Garbage, c', ACT)
        case Abort(c'') => Abort(c'')
        case Continue(c'') => CloseAggregate(c'')
  {
    hide OpenAggregate;
    hide CloseAggregate;
    hide Exec;
    hide Derivation;
    ExecBrackets(k, close, open, Root(k.kids[2]), left, c, ACT);
  }

  lemma OpenedEmpty(c: Ctx, c1: Ctx, kind: Kind)
    requires Opened(c, c1, kind)
    ensures EmptyBody(c1, kind)
  {
  }

  lemma {:induction false} ExecValue(t: Tree, left: Val, c: Ctx)
    requires Derivation(t) && Root(t) == 33
    requires Clean(c) && (InKind(c, KList) || InSetting(c))
    ensures var r := Exec(t, left, c, ACT);
      match DenoteValue(t)
      case None => r.Abort? && !r.ctx.fault
      case Some(conf) => r.Continue? && Filled(c, r.ctx, conf)
    decreases t, 0
  {
    hide Clean;
    hide InSetting;
    hide Filled;
    hide Act;
    hide Exec;
    hide Derivation;
    hide DenoteScalars;
    hide DenoteValues;
    hide DenoteMembers;
    hide Element;
    ValueShape(t);
    var k := t.kids[0];
    ExecPlain(t, left, c);
    if t.rule == 14 {
      ExecScalarValue(k, left, c);
    } else {
      AggregateShape(k);
      if t.rule == 15 {
        ExecAggregate(k, KArray, 10, 11, left, c);
      } else if t.rule == 16 {
        ExecAggregate(k, KList, 12, 13, left, c);
      } else {
        ExecAggregate(k, KGroup, 35, 36, left, c);
      }
    }
  }

  function DenoteBody(t: Tree, kind: Kind): Option<seq<Item>> {
    OrEmpty(t,
      if !HasBody(t) then None
      else if kind == KArray then DenoteScalars(t.kids[0])
      else if kind == KList then DenoteValues(t.kids[0])
      else DenoteMembers(t.kids[0]))
  }

  // The optional contents of an aggregate.
  lemma {:induction false} ExecBody(t: Tree, c: Ctx, kind: Kind)
    requires Derivation(t) && Aggregate(kind)
    requires Root(t) == if kind == KArray then 39 else if kind == KList then 37 else 26
    requires EmptyBody(c, kind)
    ensures Appends(c, Exec(t, Garbage, c, ACT), DenoteBody(t, kind))
    decreases t
  {
    hide Act;
    hide Exec;
    hide Appends;
    hide Derivation;
    hide DenoteScalars;
    hide DenoteValues;
    hide DenoteMembers;
    BodyShape(t);
    if t.kids == [] {
      assert t == Node(t.rule, []);
      EmptyAppends(t.rule, c);
    } else {
      var k := t.kids[0];
      ExecPlain(t, Garbage, c);
      if kind == KArray {
        ExecScalars(k, Garbage, c);
      } else if kind == KList {
        ExecValues(k, Garbage, c);
      } else {
        ExecMembers(k, Garbage, c);
      }
    }
  }

  lemma {:induction false} EmptyAppends(rule: int, c: Ctx)
    requires NoAction(rule) && Clean(c)
    ensures Appends(c, Exec(Node(rule, []), Garbage, c, ACT), Some([]))
  {
    hide Exec;
    hide Good;
    hide Extends;
    ExecEmpty(rule, Garbage, c, ACT);
    ExtendsNothing(c.heap, c.parent.value);
  }

  lemma {:induction false} ExecValues(t: Tree, left: Val, c: Ctx)
    requires Derivation(t) && Root(t) == 36 && Clean(c) && InKind(c, KList)
    ensures Appends(c, Exec(t, left, c, ACT), DenoteValues(t))
    decreases t
  {
    hide Act;
    hide Exec;
    hide Clean;
    hide Appends;
    hide Derivation;
    hide Root;
    hide DenoteValue;
    RowShape(t);
    var e := t.kids[|t.kids| - 1];
    CleanParent(c);
    if t.rule == 27 {
      ExecPlain(t, left, c);
      ExecElement(e, left, c);
    } else {
      ExecRow(t, left, c);
      ExecValues(t.kids[0], left, c);
      AppendsOrAborts(c, Exec(t.kids[0], left, c, ACT), DenoteValues(t.kids[0]));
      if DenoteValues(t.kids[0]).Some? {
        var items := DenoteValues(t.kids[0]).value;
        var c1 := Exec(t.kids[0], left, c, ACT).ctx;
        StaysInKind(c, c1, items, KList);
        ExecElement(e, ValOf(t.kids[1]), c1);
        AppendsMore(c, c1, Exec(e, ValOf(t.kids[1]), c1, ACT), items, ElementOf(e));
      }
    }
  }

  lemma CleanParent(c: Ctx)
    requires Clean(c)
    ensures c.parent.Some?
  {
  }

  function ElementOf(e: Tree): Option<seq<Item>> {
    match DenoteValue(e)
    case None => None
    case Some(conf) => Some([Item(None, conf)])
  }

  lemma {:induction false} ExecElement(e: Tree, left: Val, c: Ctx)
    requires Derivation(e) && Root(e) == 33 && Clean(c) && InKind(c, KList)
    ensures Appends(c, Exec(e, left, c, ACT), ElementOf(e))
    decreases e, 1
  {
    hide Good;
    hide Extends;
    hide Fills;
    hide Act;
    hide Exec;
    hide Derivation;
    hide DenoteValue;
    ExecValue(e, left, c);
  }

  lemma StaysInKind(c: Ctx, c1: Ctx, items: seq<Item>, kind: Kind)
    requires InKind(c, kind) && Appends(c, Continue(c1), Some(items))
    ensures InKind(c1, kind)
  {
  }

  // What follows a row is appended to it, or aborts.
  lemma {:induction false} AppendsMore(c: Ctx, c1: Ctx, r: Reply<Ctx>, items: seq<Item>, more: Option<seq<Item>>)
    requires Clean(c) && c1.parent.Some? && Appends(c, Continue(c1), Some(items)) && Appends(c1, r, more)
    ensures Appends(c, r, if more.None? then None else Some(items + more.value))
  {
    hide Clean;
    hide Extends;
    if more.Some? { AppendsTwice(c, c1, r.ctx, items, more.value); }
  }

  // Naming a setting makes it, unless the name is invalid or taken.
  lemma {:induction false} NameSetting(name: string, c: Ctx)
    requires Clean(c) && InKind(c, KGroup)
    ensures c.parent.value < c.heap.next
    ensures var r := BeginSetting(name, c);
      if !ValidName(name) || Named(AllItems(c.heap, c.parent.value), Some(name)) then r.Abort? && !r.ctx.fault
      else
        && MayCreate(c.heap, c.parent.value, Some(name), KNone)
        && r == Continue(c.(heap := Create(c.heap, c.parent.value, Some(name), KNone), setting := Some(c.heap.next)))
        && InSetting(r.ctx)
  {
    hide Good;
    hide Items;
    var h, p := c.heap, c.parent.value;
    GoodInRange(h, p);
    if ValidName(name) {
      MemberIsItem(h, p, name);
      if !Named(AllItems(h, p), Some(name)) {
        CreateExtends(h, p, Some(name), KNone);
      }
    }
  }

  lemma {:induction false} ExecNamed<C>(t: Tree, left: Val, c: C, act: SemAction<C>)
    requires t.Node? && t.rule == 9 && |t.kids| == 5
    requires t.kids[0].Leaf? && t.kids[1] == Node(8, []) && t.kids[2].Leaf? && t.kids[4].Leaf?
    ensures Exec(t, left, c, act) ==
      match act(8, Sem(t.kids[0].token), c)
      case Abort(c') => Abort(c')
      case Continue(c') =>
        match Exec(t.kids[3], Sem(t.kids[2].token), c', act)
        case Abort(c'') => Abort(c'')
        case Continue(c'') => act(9, Sem(t.kids[4].token), c'')
  {
    var rest := t.kids[2..];
    assert t.kids == [Leaf(t.kids[0].token), Node(8, [])] + rest;
    ExecMidRule(t.kids[0].token, 8, rest, left, c, act);
    match act(8, Sem(t.kids[0].token), c)
    case Abort(_) =>
    case Continue(c') =>
      var eq := Sem(t.kids[2].token);
      ExecFront(rest, Garbage, c', act);
      assert rest[1..] == [t.kids[3], t.kids[4]] && rest[1..][1..] == [t.kids[4]];
      ExecFront(rest[1..], eq, c', act);
      if Exec(t.kids[3], eq, c', act).Continue? {
        ExecFront([t.kids[4]], ValOf(t.kids[3]), Exec(t.kids[3], eq, c', act).ctx, act);
      }
  }

  lemma {:induction false} MemberRuns(t: Tree, left: Val, c: Ctx)
    requires Derivation(t) && Root(t) == 27
    ensures t.Node? && |t.kids| == 5 && t.kids[0].Leaf? && t.kids[0].token.TokName? && t.kids[2].Leaf?
    ensures Derivation(t.kids[3]) && Root(t.kids[3]) == 33
    ensures Exec(t, left, c, ACT) ==
      match BeginSetting(t.kids[0].token.sval, c)
      case Abort(c') => Abort(c')
      case Continue(c') => Exec(t.kids[3], Sem(t.kids[2].token), c', ACT)
    ensures DenoteMember(t) ==
      if !ValidName(t.kids[0].token.sval) || DenoteValue(t.kids[3]).None? then None
      else Some(Item(Some(t.kids[0].token.sval), DenoteValue(t.kids[3]).value))
  {
    hide Exec;
    hide BeginSetting;
    hide DenoteValue;
    hide ValidName;
    MemberShape(t);
    ExecNamed(t, left, c, ACT);
  }

  // What a member comes to behind the members already there.
  ghost function MemberAfter(items: seq<Item>, member: Option<Item>): Option<seq<Item>> {
    match member
    case None => None
    case Some(m) => if Named(items, m.name) then None else Some([m])
  }

  lemma {:induction false} ExecMember(t: Tree, left: Val, c: Ctx)
    requires Derivation(t) && Root(t) == 27 && Clean(c) && InKind(c, KGroup)
    ensures c.parent.value < c.heap.next
    ensures Appends(c, Exec(t, left, c, ACT), MemberAfter(AllItems(c.heap, c.parent.value), DenoteMember(t)))
    decreases t
  {
    hide Clean;
    hide InKind;
    hide InSetting;
    hide MayCreate;
    hide Appends;
    hide Items;
    hide Act;
    hide Exec;
    hide BeginSetting;
    hide Derivation;
    hide DenoteMember;
    hide DenoteValue;
    MemberRuns(t, left, c);
    var name, v, eq := t.kids[0].token.sval, t.kids[3], Sem(t.kids[2].token);
    NameSetting(name, c);
    CleanParent(c);
    if BeginSetting(name, c).Continue? {
      var c1 := BeginSetting(name, c).ctx;
      SettingIsClean(c1);
      ExecValue(v, eq, c1);
      NamedThenFilled(c, c1, Exec(v, eq, c1, ACT), name, DenoteValue(v));
    } else {
      AbortAppends(c, BeginSetting(name, c));
    }
  }

  lemma SettingIsClean(c: Ctx)
    requires InSetting(c)
    ensures Clean(c)
  {
  }

  lemma AbortAppends(c: Ctx, r: Reply<Ctx>)
    requires c.parent.Some? && r.Abort? && !r.ctx.fault
    ensures Appends(c, Abort(r.ctx), None)
  {
  }

  // A setting named and then given its value is one more member.
  lemma {:induction false} NamedThenFilled(c: Ctx, c1: Ctx, r: Reply<Ctx>, name: string, conf: Option<Conf>)
    requires Clean(c) && c.parent.Some? && MayCreate(c.heap, c.parent.value, Some(name), KNone) && InSetting(c1)
    requires c1 == c.(heap := Create(c.heap, c.parent.value, Some(name), KNone), setting := Some(c.heap.next))
    requires match conf
             case None => r.Abort? && !r.ctx.fault
             case Some(conf) => r.Continue? && Filled(c1, r.ctx, conf)
    ensures Appends(c, r, match conf case None => None case Some(conf) => Some([Item(Some(name), conf)]))
  {
    hide Good;
    hide Fills;
    hide Extends;
    hide MayCreate;
    if conf.Some? {
      CreateThenFill(c.heap, r.ctx.heap, c.parent.value, Some(name), KNone, conf.value);
    }
  }

  lemma {:induction false} ExecMembers(t: Tree, left: Val, c: Ctx)
    requires Derivation(t) && Root(t) == 25 && EmptyBody(c, KGroup)
    ensures Appends(c, Exec(t, left, c, ACT), DenoteMembers(t))
    decreases t
  {
    hide EmptyBody;
    hide Appends;
    hide Items;
    hide Act;
    hide Exec;
    hide Derivation;
    hide Root;
    hide DenoteMember;
    RowShape(t);
    var e := t.kids[|t.kids| - 1];
    NothingThere(c, KGroup);
    if t.rule == 4 {
      ExecPlain(t, left, c);
      ExecMember(e, left, c);
    } else {
      ExecRow(t, left, c);
      ExecMembers(t.kids[0], left, c);
      AppendsOrAborts(c, Exec(t.kids[0], left, c, ACT), DenoteMembers(t.kids[0]));
      if DenoteMembers(t.kids[0]).Some? {
        var items, eq := DenoteMembers(t.kids[0]).value, ValOf(t.kids[0]);
        var c1 := Exec(t.kids[0], left, c, ACT).ctx;
        StaysInKind(c, c1, items, KGroup);
        ExecMember(e, eq, c1);
        ItemsThere(c, c1, items);
        AppendsMore(c, c1, Exec(e, eq, c1, ACT), items, MemberAfter(items, DenoteMember(e)));
      }
    }
  }

  lemma {:induction false} NothingThere(c: Ctx, kind: Kind)
    requires EmptyBody(c, kind)
    ensures Clean(c) && InKind(c, kind) && c.parent.value < c.heap.next && AllItems(c.heap, c.parent.value) == []
  {
    hide Good;
    GoodInRange(c.heap, c.parent.value);
  }

  lemma {:induction false} ItemsThere(c: Ctx, c1: Ctx, items: seq<Item>)
    requires c.parent.Some? && c.parent.value in c.heap.cells && c.parent.value < c.heap.next
    requires AllItems(c.heap, c.parent.value) == [] && Appends(c, Continue(c1), Some(items))
    ensures c1.parent == c.parent && c.parent.value in c1.heap.cells && c.parent.value < c1.heap.next
    ensures AllItems(c1.heap, c.parent.value) == items
  {
    hide Good;
    hide Items;
  }

  // A whole configuration: the actions go through exactly when it has a meaning, and then the
  // heap stands for that meaning and the cursor is back at the root.
  lemma {:induction false} ExecConfiguration(t: Tree)
    requires Derivation(t) && Root(t) == CONFIGURATION
    ensures var r := Exec(t, Garbage, StartCtx(), ACT);
      match Denote(t)
      case None => r.Abort? && !r.ctx.fault
      case Some(conf) => r.Continue? && Clean(r.ctx) && r.ctx.parent == Some(ROOT) && Abs(r.ctx.heap, ROOT) == conf
  {
    hide Act;
    hide Exec;
    hide StartCtx;
    hide EmptyBody;
    hide Clean;
    hide Appends;
    hide Derivation;
    hide DenoteMembers;
    hide Abs;
    var c := StartCtx();
    StartGood();
    BodyShape(t);
    if HasBody(t) {
      ExecPlain(t, Garbage, c);
      ExecMembers(t.kids[0], Garbage, c);
      RootIs(c, Exec(t.kids[0], Garbage, c, ACT), DenoteMembers(t.kids[0]));
    } else {
      assert t == Node(t.rule, []);
      EmptyAppends(t.rule, c);
      RootIs(c, Exec(t, Garbage, c, ACT), Some([]));
    }
  }

  lemma {:induction false} RootIs(c: Ctx, r: Reply<Ctx>, items: Option<seq<Item>>)
    requires EmptyBody(c, KGroup) && c.parent == Some(ROOT) && Appends(c, r, items)
    ensures match items
            case None => r.Abort? && !r.ctx.fault
            case Some(items) =>
              r.Continue? && Clean(r.ctx) && r.ctx.parent == Some(ROOT) && Abs(r.ctx.heap, ROOT) == GroupC(items)
  {
    hide Good;
    hide Items;
    NothingThere(c, KGroup);
  }

  lemma ExecEmpty<C>(rule: int, left: Val, c: C, act: SemAction<C>)
    ensures Exec(Node(rule, []), left, c, act) == act(rule, left, c)
  {
  }

  lemma StartGood()
    ensures Clean(StartCtx()) && InKind(StartCtx(), KGroup) && EmptyBody(StartCtx(), KGroup)
    ensures StartCtx().parent == Some(ROOT)
    ensures Abs(InitHeap(), ROOT) == GroupC([])
  {
  }

  // ---------- reading ----------

  // Parsing the tokens of a file, starting from an empty configuration.
  ghost function Read(input: seq<Token>): Verdict<Ctx> {
    StartIsReady(input);
    Run(Start(input, StartCtx()), ACT)
  }

  lemma StartIsReady(input: seq<Token>)
    ensures Inv(Start(input, StartCtx()))
  {
  }
}
