/** Writing a configuration and reading it back. */
module ConfigRoundTrip {
  import opened Wrappers
  import opened ConfigTables
  import opened ConfigParser
  import opened ConfigHeap
  import opened ConfigGrowth
  import opened ConfigActions

  // ValueTokens and MemberTokens are the tokens of what the writer prints. The theorem is exact:
  // reading them gives the configuration back if and only if it is Printable and its nesting fits
  // the parser's stacks.

  // ---------- what the writer prints ----------

  // __config_write_value. A value without a type prints as three question marks, none of which
  // any rule of the scanner takes.
  function ValueTokens(c: Conf): seq<Token>
    decreases c, 1
  {
    match c
    case NoneC => [TokGarbage, TokGarbage, TokGarbage]
    case BoolC(i) => [TokBoolean(if i != 0 then 1 else 0)]
    case IntC(i, Plain) => [TokInteger(i)]
    case IntC(i, Hex) => [TokHex(i)]
    case Int64C(i, Plain) => [TokInteger64(i)]
    case Int64C(i, Hex) => [TokHex64(i)]
    case FloatC(f) => [TokFloat(f)]
    case StringC(s) => [TokString(if s.Some? then s.value else "")]
    case ListC(items) => [TokListStart] + ElementTokens(items) + [TokListEnd]
    case ArrayC(items) => [TokArrayStart] + ElementTokens(items) + [TokArrayEnd]
    case GroupC(items) => [TokGroupStart] + MemberTokens(items) + [TokGroupEnd]
  }

  // The value of an item.
  function ItemTokens(item: Item): seq<Token>
    decreases item, 2
  {
    ValueTokens(item.conf)
  }

  function ElementTokens(items: seq<Item>): seq<Token>
    decreases items, 0
  {
    if items == [] then []
    else
      var n := |items| - 1;
      ElementTokens(items[..n]) + (if n > 0 then [TokComma] else []) + ItemTokens(items[n])
  }

  // __config_write_setting for the members of a group.
  function MemberTokens(items: seq<Item>): seq<Token>
    decreases items, 0
  {
    if items == [] then []
    else
      var n := |items| - 1;
      MemberTokens(items[..n])
        + (if items[n].name.Some? then [TokName(items[n].name.value), TokEquals] else [])
        + ItemTokens(items[n]) + [TokEnd]
  }

  // ---------- what can be read back ----------

  predicate ScalarConf(c: Conf) {
    match c
    case NoneC => false
    case GroupC(_) => false
    case ArrayC(_) => false
    case ListC(_) => false
    case _ => true
  }

  // Every setting has a type, truth values are 0 or 1, no string is null, the elements of arrays
  // are scalars of one type, and members of groups have valid, different names.
  predicate Printable(c: Conf) {
    match c
    case NoneC => false
    case BoolC(i) => i == 0 || i == 1
    case StringC(s) => s.Some?
    case ListC(items) =>
      forall i :: 0 <= i < |items| ==> items[i].name == None && Printable(items[i].conf)
    case ArrayC(items) =>
      forall i :: 0 <= i < |items| ==>
        items[i].name == None && ScalarConf(items[i].conf) && Printable(items[i].conf)
        && KindOfConf(items[i].conf) == KindOfConf(items[0].conf)
    case GroupC(items) =>
      && (forall i :: 0 <= i < |items| ==>
        items[i].name.Some? && ValidName(items[i].name.value) && Printable(items[i].conf))
      && (forall i, j :: 0 <= i < j < |items| ==> items[i].name != items[j].name)
    case _ => true
  }

  // The stack entries that reading a value takes.
  function Need(c: Conf): (n: int)
    ensures n >= 1
    decreases c, 1
  {
    match c
    case ListC(items) => Max(4, 2 + Max(1, NeedElements(items)))
    case ArrayC(items) => if |items| <= 1 then 4 else 5
    case GroupC(items) => Max(4, 2 + Max(1, NeedMembers(items)))
    case _ => 1
  }

  function NeedItem(item: Item): (n: int)
    ensures n >= 1
    decreases item, 2
  {
    Need(item.conf)
  }

  function NeedElements(items: seq<Item>): (n: int)
    ensures n >= 0 && (items != [] ==> n >= 1)
    decreases items, 0
  {
    if items == [] then 0
    else
      var n := |items| - 1;
      if n == 0 then NeedItem(items[0])
      else Max(NeedElements(items[..n]), 2 + NeedItem(items[n]))
  }

  function NeedMembers(items: seq<Item>): (n: int)
    ensures n >= 0 && (items != [] ==> n >= 1)
    decreases items, 0
  {
    if items == [] then 0
    else
      var n := |items| - 1;
      Max(NeedMembers(items[..n]), (if n > 0 then 1 else 0) + 3 + Max(2, NeedItem(items[n])))
  }

  // ---------- the derivation of what is printed ----------

  function ScalarTree(c: Conf): Tree {
    match c
    case BoolC(i) => Node(20, [Leaf(TokBoolean(i))])
    case IntC(i, Plain) => Node(21, [Leaf(TokInteger(i))])
    case Int64C(i, Plain) => Node(22, [Leaf(TokInteger64(i))])
    case IntC(i, Hex) => Node(23, [Leaf(TokHex(i))])
    case Int64C(i, Hex) => Node(24, [Leaf(TokHex64(i))])
    case FloatC(f) => Node(25, [Leaf(TokFloat(f))])
    case StringC(Some(s)) => Node(26, [Node(18, [Leaf(TokString(s))])])
    case _ => Leaf(TokGarbage)
  }

  function ValueTree(c: Conf): Tree
    decreases c, 1
  {
    match c
    case ArrayC(items) =>
      Node(15, [Node(11, [Leaf(TokArrayStart), Node(10, []),
                          if items == [] then Node(33, []) else Node(34, [ScalarsTree(items)]),
                          Leaf(TokArrayEnd)])])
    case ListC(items) =>
      Node(16, [Node(13, [Leaf(TokListStart), Node(12, []),
                          if items == [] then Node(29, []) else Node(30, [ElementsTree(items)]),
                          Leaf(TokListEnd)])])
    case GroupC(items) =>
      Node(17, [Node(36, [Leaf(TokGroupStart), Node(35, []),
                          if items == [] then Node(6, []) else Node(7, [MembersTree(items)]),
                          Leaf(TokGroupEnd)])])
    case _ => Node(14, [ScalarTree(c)])
  }

  function ScalarsTree(items: seq<Item>): Tree {
    if items == [] then Leaf(TokGarbage)
    else
      var n := |items| - 1;
      if n == 0 then Node(31, [ScalarTree(items[0].conf)])
      else Node(32, [ScalarsTree(items[..n]), Leaf(TokComma), ScalarTree(items[n].conf)])
  }

  function ItemTree(item: Item): Tree
    decreases item, 2
  {
    ValueTree(item.conf)
  }

  function ElementsTree(items: seq<Item>): Tree
    decreases items, 0
  {
    if items == [] then Leaf(TokGarbage)
    else
      var n := |items| - 1;
      if n == 0 then Node(27, [ItemTree(items[0])])
      else Node(28, [ElementsTree(items[..n]), Leaf(TokComma), ItemTree(items[n])])
  }

  function MemberTree(item: Item): Tree
    decreases item, 3
  {
    Node(9, [Leaf(TokName(if item.name.Some? then item.name.value else "")), Node(8, []), Leaf(TokEquals),
             ItemTree(item), Leaf(TokEnd)])
  }

  function MembersTree(items: seq<Item>): Tree
    decreases items, 0
  {
    if items == [] then Leaf(TokGarbage)
    else
      var n := |items| - 1;
      if n == 0 then Node(4, [MemberTree(items[0])])
      else Node(5, [MembersTree(items[..n]), MemberTree(items[n])])
  }

  // ---------- nodes with few children ----------

  ghost predicate Derives(t: Tree, root: int, yield_: seq<Token>, room: int) {
    Derivation(t) && Root(t) == root && Yield(t) == yield_ && Room(t) == room
  }

  lemma {:induction false} Front(ts: seq<Tree>)
    requires ts != []
    ensures YieldAll(ts) == Yield(ts[0]) + YieldAll(ts[1..])
    ensures RoomAll(ts) == if |ts| == 1 then Room(ts[0]) else Max(Room(ts[0]), 1 + RoomAll(ts[1..]))
  {
    assert [ts[0]] + ts[1..] == ts;
    AppendYield([ts[0]], ts[1..]);
    AppendRoom([ts[0]], ts[1..]);
    assert YieldAll([ts[0]]) == Yield(ts[0]);
    assert RoomAll([ts[0]]) == Room(ts[0]);
  }

  lemma {:induction false} One(rule: int, t: Tree, y: seq<Token>, r: int)
    requires 2 <= rule <= 36 && YyR2(rule) == 1 && Derives(t, RhsAt(rule, 0), y, r)
    ensures Derives(Node(rule, [t]), YyR1(rule), y, r)
  {
    hide YyR1;
    Front([t]);
  }

  lemma {:induction false} Empty(rule: int)
    requires 2 <= rule <= 36 && YyR2(rule) == 0
    ensures Derives(Node(rule, []), YyR1(rule), [], 1)
  {
    hide YyR1;
  }

  lemma {:induction false} Two(rule: int, t: Tree, u: Tree, y: seq<Token>, z: seq<Token>, r: int, q: int)
    requires 2 <= rule <= 36 && YyR2(rule) == 2
    requires Derives(t, RhsAt(rule, 0), y, r) && Derives(u, RhsAt(rule, 1), z, q)
    ensures Derives(Node(rule, [t, u]), YyR1(rule), y + z, Max(r, 1 + q))
  {
    hide YyR1;
    Front([t, u]);
    assert [t, u][1..] == [u];
    Front([u]);
  }

  // A node is derived if its children are; its yield and room are those of the row of them.
  lemma {:induction false} NodeDerives(rule: int, ts: seq<Tree>)
    requires 2 <= rule <= 36 && |ts| == YyR2(rule)
    requires forall i :: 0 <= i < |ts| ==> Derivation(ts[i]) && Root(ts[i]) == RhsAt(rule, i)
    ensures Derives(Node(rule, ts), YyR1(rule), YieldAll(ts), Max(1, RoomAll(ts)))
  {
    hide YyR1;
    hide YyR2;
    hide RhsAt;
    hide YieldAll;
    hide RoomAll;
  }

  lemma {:induction false} Pair(t: Tree, u: Tree)
    ensures YieldAll([t, u]) == Yield(t) + Yield(u) && RoomAll([t, u]) == Max(Room(t), 1 + Room(u))
  {
    Front([t, u]);
    assert [t, u][1..] == [u];
    Front([u]);
  }

  lemma {:induction false} Triple(t: Tree, token: Token, u: Tree)
    ensures YieldAll([t, Leaf(token), u]) == Yield(t) + [token] + Yield(u)
    ensures RoomAll([t, Leaf(token), u]) == Max(Room(t), 2 + Room(u))
  {
    hide YieldAll;
    hide RoomAll;
    var ts := [t, Leaf(token), u];
    Front(ts);
    assert ts[1..] == [Leaf(token), u];
    Pair(Leaf(token), u);
    assert Yield(t) + ([token] + Yield(u)) == Yield(t) + [token] + Yield(u);
  }

  lemma {:induction false} Comma(rule: int, t: Tree, u: Tree, y: seq<Token>, z: seq<Token>, r: int, q: int)
    requires 2 <= rule <= 36 && YyR2(rule) == 3 && RhsAt(rule, 1) == TokComma.Symbol()
    requires Derives(t, RhsAt(rule, 0), y, r) && Derives(u, RhsAt(rule, 2), z, q)
    ensures Derives(Node(rule, [t, Leaf(TokComma), u]), YyR1(rule), y + [TokComma] + z, Max(r, 2 + q))
  {
    hide YyR1;
    hide RhsAt;
    hide YieldAll;
    hide RoomAll;
    Triple(t, TokComma, u);
    NodeDerives(rule, [t, Leaf(TokComma), u]);
  }

  lemma {:induction false} MidRule(a: Token, open: int, rest: seq<Tree>)
    requires rest != []
    ensures YieldAll([Leaf(a), Node(open, [])] + rest) == [a] + YieldAll(rest)
    ensures RoomAll([Leaf(a), Node(open, [])] + rest) == Max(2, 2 + RoomAll(rest))
  {
    Pair(Leaf(a), Node(open, []));
    AppendYield([Leaf(a), Node(open, [])], rest);
    AppendRoom([Leaf(a), Node(open, [])], rest);
    assert Yield(Node(open, [])) == [] && Room(Node(open, [])) == 1;
  }

  lemma {:induction false} Bracketed(rule: int, a: Token, open: int, body: Tree, z: Token, y: seq<Token>, r: int)
    requires 2 <= rule <= 36 && YyR2(rule) == 4 && 2 <= open <= 36 && YyR2(open) == 0
    requires RhsAt(rule, 0) == a.Symbol() && RhsAt(rule, 1) == YyR1(open) && RhsAt(rule, 3) == z.Symbol()
    requires Derives(body, RhsAt(rule, 2), y, r)
    ensures Derives(Node(rule, [Leaf(a), Node(open, []), body, Leaf(z)]), YyR1(rule), [a] + y + [z], Max(4, 2 + r))
  {
    hide YyR1;
    hide RhsAt;
    hide YieldAll;
    hide RoomAll;
    var ts := [Leaf(a), Node(open, []), body, Leaf(z)];
    assert ts == [Leaf(a), Node(open, [])] + [body, Leaf(z)];
    MidRule(a, open, [body, Leaf(z)]);
    Pair(body, Leaf(z));
    assert [a] + (y + [z]) == [a] + y + [z];
    Empty(open);
    NodeDerives(rule, ts);
  }

  lemma {:induction false} Member(name: string, v: Tree, y: seq<Token>, r: int)
    requires Derives(v, 33, y, r)
    ensures Derives(Node(9, [Leaf(TokName(name)), Node(8, []), Leaf(TokEquals), v, Leaf(TokEnd)]), 27,
                    [TokName(name), TokEquals] + y + [TokEnd], 3 + Max(2, r))
  {
    hide YieldAll;
    hide RoomAll;
    var rest := [Leaf(TokEquals), v, Leaf(TokEnd)];
    var ts := [Leaf(TokName(name)), Node(8, [])] + rest;
    assert ts == [Leaf(TokName(name)), Node(8, []), Leaf(TokEquals), v, Leaf(TokEnd)];
    MidRule(TokName(name), 8, rest);
    Front(rest);
    assert rest[1..] == [v, Leaf(TokEnd)];
    Pair(v, Leaf(TokEnd));
    assert [TokName(name)] + ([TokEquals] + (y + [TokEnd])) == [TokName(name), TokEquals] + y + [TokEnd];
    Empty(8);
    NodeDerives(9, ts);
  }

  // ---------- the derivation yields the tokens ----------

  lemma {:induction false} LeafDerives(token: Token)
    ensures Derives(Leaf(token), token.Symbol(), [token], 1)
  {
  }

  lemma {:induction false} ScalarDerives(c: Conf)
    requires ScalarConf(c) && Printable(c)
    ensures Derives(ScalarTree(c), 35, ValueTokens(c), 1)
  {
    hide Derives;
    LeafDerives(ValueTokens(c)[0]);
    if c.StringC? {
      One(18, Leaf(TokString(c.s.value)), ValueTokens(c), 1);
      One(26, ScalarTree(c).kids[0], ValueTokens(c), 1);
    } else {
      One(ScalarTree(c).rule, Leaf(ValueTokens(c)[0]), ValueTokens(c), 1);
    }
  }

  lemma {:induction false} LastElement(items: seq<Item>)
    requires items != []
    ensures var n := |items| - 1;
      ElementTokens(items)
      == (if n == 0 then ItemTokens(items[n]) else ElementTokens(items[..n]) + [TokComma] + ItemTokens(items[n]))
  {
    hide ItemTokens;
    if |items| == 1 { assert ElementTokens(items[..0]) == []; }
  }

  lemma {:induction false} LastScalarTree(items: seq<Item>)
    requires items != []
    ensures var n := |items| - 1;
      ScalarsTree(items)
      == (if n == 0 then Node(31, [ScalarTree(items[n].conf)])
          else Node(32, [ScalarsTree(items[..n]), Leaf(TokComma), ScalarTree(items[n].conf)]))
  {
    hide ScalarTree;
  }

  lemma {:induction false} LastElementTree(items: seq<Item>)
    requires items != []
    ensures var n := |items| - 1;
      ElementsTree(items)
      == (if n == 0 then Node(27, [ItemTree(items[n])])
          else Node(28, [ElementsTree(items[..n]), Leaf(TokComma), ItemTree(items[n])]))
  {
    hide ItemTree;
  }

  lemma {:induction false} ScalarsDerive(items: seq<Item>)
    requires items != [] && Printable(ArrayC(items))
    ensures Derives(ScalarsTree(items), 38, ElementTokens(items), if |items| == 1 then 1 else 3)
  {
    hide Derives;
    hide ValueTokens;
    hide ElementTokens;
    hide ScalarsTree;
    hide ScalarTree;
    LastElement(items);
    LastScalarTree(items);
    var n := |items| - 1;
    var e, y := ScalarTree(items[n].conf), ItemTokens(items[n]);
    ScalarDerives(items[n].conf);
    if n == 0 {
      One(31, e, y, 1);
    } else {
      ScalarsDerive(items[..n]);
      Comma(32, ScalarsTree(items[..n]), e, ElementTokens(items[..n]), y, if n == 1 then 1 else 3, 1);
    }
  }

  lemma {:induction false} ValueDerives(c: Conf)
    requires Printable(c)
    ensures Derives(ValueTree(c), 33, ValueTokens(c), Need(c))
    decreases c, 1
  {
    hide Derives;
    match c
    case ArrayC(items) =>
      ArrayDerives(items);
    case ListC(items) =>
      if items != [] { ElementsDerive(items); }
      ListDerives(items);
    case GroupC(items) =>
      if items != [] { MembersDerive(items); }
      GroupDerives(items);
    case _ =>
      ScalarDerives(c);
      One(14, ScalarTree(c), ValueTokens(c), 1);
  }

  lemma {:induction false} ListDerives(items: seq<Item>)
    requires items != [] ==> Derives(ElementsTree(items), 36, ElementTokens(items), NeedElements(items))
    ensures Derives(ValueTree(ListC(items)), 33, ValueTokens(ListC(items)), Need(ListC(items)))
  {
    hide Derives;
    hide ElementsTree;
    var body := if items == [] then Node(29, []) else Node(30, [ElementsTree(items)]);
    if items == [] {
      Empty(29);
    } else {
      One(30, ElementsTree(items), ElementTokens(items), NeedElements(items));
    }
    var r := if items == [] then 1 else NeedElements(items);
    Bracketed(13, TokListStart, 12, body, TokListEnd, ElementTokens(items), r);
    One(16, ValueTree(ListC(items)).kids[0], ValueTokens(ListC(items)), Max(4, 2 + r));
  }

  lemma {:induction false} GroupDerives(items: seq<Item>)
    requires items != [] ==> Derives(MembersTree(items), 25, MemberTokens(items), NeedMembers(items))
    ensures Derives(ValueTree(GroupC(items)), 33, ValueTokens(GroupC(items)), Need(GroupC(items)))
  {
    hide Derives;
    hide MembersTree;
    var body := if items == [] then Node(6, []) else Node(7, [MembersTree(items)]);
    if items == [] {
      Empty(6);
    } else {
      One(7, MembersTree(items), MemberTokens(items), NeedMembers(items));
    }
    var r := if items == [] then 1 else NeedMembers(items);
    Bracketed(36, TokGroupStart, 35, body, TokGroupEnd, MemberTokens(items), r);
    One(17, ValueTree(GroupC(items)).kids[0], ValueTokens(GroupC(items)), Max(4, 2 + r));
  }

  lemma {:induction false} ArrayDerives(items: seq<Item>)
    requires Printable(ArrayC(items))
    ensures Derives(ValueTree(ArrayC(items)), 33, ValueTokens(ArrayC(items)), Need(ArrayC(items)))
  {
    hide Derives;
    var body := if items == [] then Node(33, []) else Node(34, [ScalarsTree(items)]);
    var r := if |items| <= 1 then 1 else 3;
    if items == [] {
      Empty(33);
    } else {
      ScalarsDerive(items);
      One(34, ScalarsTree(items), ElementTokens(items), r);
    }
    Bracketed(11, TokArrayStart, 10, body, TokArrayEnd, ElementTokens(items), r);
    One(15, ValueTree(ArrayC(items)).kids[0], ValueTokens(ArrayC(items)), Max(4, 2 + r));
  }

  lemma {:induction false} ItemDerives(item: Item)
    requires Printable(item.conf)
    ensures Derives(ItemTree(item), 33, ItemTokens(item), NeedItem(item))
    decreases item, 2
  {
    ValueDerives(item.conf);
  }

  lemma {:induction false} ElementsDerive(items: seq<Item>)
    requires items != [] && Printable(ListC(items))
    ensures Derives(ElementsTree(items), 36, ElementTokens(items), NeedElements(items))
    decreases items, 0
  {
    hide Derives;
    hide ItemTokens;
    hide ItemTree;
    hide NeedItem;
    hide ElementTokens;
    hide ElementsTree;
    LastElement(items);
    LastElementTree(items);
    var n := |items| - 1;
    ItemDerives(items[n]);
    var y, r := ItemTokens(items[n]), NeedItem(items[n]);
    if n == 0 {
      One(27, ItemTree(items[n]), y, r);
    } else {
      ElementsDerive(items[..n]);
      Comma(28, ElementsTree(items[..n]), ItemTree(items[n]), ElementTokens(items[..n]), y, NeedElements(items[..n]), r);
    }
  }

  lemma {:induction false} LastMember(items: seq<Item>)
    requires items != [] && items[|items| - 1].name.Some?
    ensures var n := |items| - 1;
      MemberTokens(items)
      == MemberTokens(items[..n]) + ([TokName(items[n].name.value), TokEquals] + ItemTokens(items[n]) + [TokEnd])
  {
    hide ItemTokens;
  }

  lemma {:induction false} LastMemberTree(items: seq<Item>)
    requires items != []
    ensures var n := |items| - 1;
      MembersTree(items)
      == (if n == 0 then Node(4, [MemberTree(items[n])]) else Node(5, [MembersTree(items[..n]), MemberTree(items[n])]))
  {
    hide MemberTree;
  }

  lemma {:induction false} NoMembers(items: seq<Item>)
    requires items == []
    ensures MemberTokens(items) == [] && NeedMembers(items) == 0
  {
  }

  lemma {:induction false} MembersDerive(items: seq<Item>)
    requires items != [] && Printable(GroupC(items))
    ensures Derives(MembersTree(items), 25, MemberTokens(items), NeedMembers(items))
    decreases items, 0
  {
    hide Derives;
    hide ItemTokens;
    hide ItemTree;
    hide NeedItem;
    hide MemberTokens;
    hide MembersTree;
    LastMember(items);
    LastMemberTree(items);
    var n := |items| - 1;
    ItemDerives(items[n]);
    var y, r := ItemTokens(items[n]), NeedItem(items[n]);
    var name := items[n].name.value;
    var e, y', r' := MemberTree(items[n]), [TokName(name), TokEquals] + y + [TokEnd], 3 + Max(2, r);
    Member(name, ItemTree(items[n]), y, r);
    if n == 0 {
      One(4, e, y', r');
      NoMembers(items[..0]);
      assert [] + y' == y';
    } else {
      MembersDerive(items[..n]);
      Two(5, MembersTree(items[..n]), e, MemberTokens(items[..n]), y', NeedMembers(items[..n]), r');
    }
  }

  // ---------- the derivation means the configuration ----------

  lemma {:induction false} ScalarDenotes(c: Conf)
    requires ScalarConf(c) && Printable(c)
    ensures Element(ScalarTree(c)) == Item(None, c)
  {
  }

  lemma {:induction false} ScalarsDenote(items: seq<Item>)
    requires items != [] && Printable(ArrayC(items))
    ensures DenoteScalars(ScalarsTree(items)) == Some(items)
  {
    hide ScalarTree;
    hide Element;
    var n := |items| - 1;
    ScalarDenotes(items[n].conf);
    assert items[..n] + [items[n]] == items;
    if n > 0 { ScalarsDenote(items[..n]); }
  }

  lemma {:induction false} ArrayDenotes(items: seq<Item>)
    requires items != [] ==> DenoteScalars(ScalarsTree(items)) == Some(items)
    ensures DenoteValue(ValueTree(ArrayC(items))) == Some(ArrayC(items))
  {
    hide DenoteScalars;
    hide ScalarsTree;
  }

  lemma {:induction false} ListDenotes(items: seq<Item>)
    requires items != [] ==> DenoteValues(ElementsTree(items)) == Some(items)
    ensures DenoteValue(ValueTree(ListC(items))) == Some(ListC(items))
  {
    hide DenoteValues;
    hide ElementsTree;
  }

  lemma {:induction false} GroupDenotes(items: seq<Item>)
    requires items != [] ==> DenoteMembers(MembersTree(items)) == Some(items)
    ensures DenoteValue(ValueTree(GroupC(items))) == Some(GroupC(items))
  {
    hide DenoteMembers;
    hide MembersTree;
  }

  lemma {:induction false} ValueDenotes(c: Conf)
    requires Printable(c)
    ensures DenoteValue(ValueTree(c)) == Some(c)
    decreases c, 1
  {
    hide ScalarTree;
    hide Element;
    hide DenoteScalars;
    hide DenoteValues;
    hide DenoteMembers;
    match c
    case ArrayC(items) =>
      if items != [] { ScalarsDenote(items); }
      ArrayDenotes(items);
    case ListC(items) =>
      if items != [] { ElementsDenote(items); }
      ListDenotes(items);
    case GroupC(items) =>
      if items != [] { MembersDenote(items); }
      GroupDenotes(items);
    case _ =>
      ScalarDenotes(c);
  }

  lemma {:induction false} ItemDenotes(item: Item)
    requires Printable(item.conf)
    ensures DenoteValue(ItemTree(item)) == Some(item.conf)
    decreases item, 2
  {
    ValueDenotes(item.conf);
  }

  lemma {:induction false} ElementsDenote(items: seq<Item>)
    requires items != [] && Printable(ListC(items))
    ensures DenoteValues(ElementsTree(items)) == Some(items)
    decreases items, 0
  {
    hide ItemTree;
    var n := |items| - 1;
    ItemDenotes(items[n]);
    assert items[..n] + [items[n]] == items;
    if n > 0 { ElementsDenote(items[..n]); }
  }

  lemma {:induction false} MemberDenotes(item: Item)
    requires DenoteValue(ItemTree(item)) == Some(item.conf) && item.name.Some? && ValidName(item.name.value)
    ensures DenoteMember(MemberTree(item)) == Some(item)
  {
    hide ItemTree;
    hide DenoteValue;
    hide ValidName;
  }

  lemma {:induction false} MembersDenote(items: seq<Item>)
    requires items != [] && Printable(GroupC(items))
    ensures DenoteMembers(MembersTree(items)) == Some(items)
    decreases items, 0
  {
    hide MembersTree;
    hide MemberTree;
    hide ItemTree;
    LastMemberTree(items);
    var n := |items| - 1;
    ItemDenotes(items[n]);
    MemberDenotes(items[n]);
    assert items[..n] + [items[n]] == items;
    if n > 0 {
      MembersDenote(items[..n]);
      assert !Named(items[..n], items[n].name);
    }
  }

  // ---------- only printable configurations can be read ----------

  ghost predicate BoolsOk(ts: seq<Token>) {
    forall i :: 0 <= i < |ts| && ts[i].TokBoolean? ==> ts[i].ival == 0 || ts[i].ival == 1
  }

  lemma {:induction false} MiddleBools(a: seq<Token>, b: seq<Token>, c: seq<Token>)
    requires BoolsOk(a + (b + c))
    ensures BoolsOk(b)
  {
    forall j | 0 <= j < |b| && b[j].TokBoolean?
      ensures b[j].ival == 0 || b[j].ival == 1
    {
      assert (a + (b + c))[|a| + j] == b[j];
    }
  }

  lemma {:induction false} KidBools(kids: seq<Tree>, i: nat)
    requires i < |kids| && BoolsOk(YieldAll(kids))
    ensures BoolsOk(Yield(kids[i]))
  {
    hide BoolsOk;
    hide YieldAll;
    hide Yield;
    assert kids == kids[..i] + kids[i..] && kids[i..] == [kids[i]] + kids[i + 1..];
    AppendYield(kids[..i], kids[i..]);
    Front(kids[i..]);
    assert kids[i..][1..] == kids[i + 1..];
    MiddleBools(YieldAll(kids[..i]), Yield(kids[i]), YieldAll(kids[i + 1..]));
  }

  lemma {:induction false} ScalarPrintable(t: Tree)
    requires Derivation(t) && Root(t) == 35 && BoolsOk(Yield(t))
    ensures Element(t).name == None && ScalarConf(Element(t).conf) && Printable(Element(t).conf)
  {
    ScalarShape(t);
    KidBools(t.kids, 0);
    if t.rule < 26 { assert t.kids[0].token == Yield(t.kids[0])[0]; }
  }

  lemma {:induction false} ScalarsPrintable(t: Tree)
    requires Derivation(t) && Root(t) == 38 && BoolsOk(Yield(t)) && DenoteScalars(t).Some?
    ensures Printable(ArrayC(DenoteScalars(t).value)) && DenoteScalars(t).value != []
    decreases t
  {
    hide Derivation;
    hide Element;
    hide ScalarConf;
    RowShape(t);
    var n := |t.kids| - 1;
    KidBools(t.kids, n);
    ScalarPrintable(t.kids[n]);
    if t.rule == 32 {
      KidBools(t.kids, 0);
      ScalarsPrintable(t.kids[0]);
    }
  }

  lemma {:induction false} ValuePrintable(t: Tree)
    requires Derivation(t) && Root(t) == 33 && BoolsOk(Yield(t)) && DenoteValue(t).Some?
    ensures Printable(DenoteValue(t).value)
    decreases t
  {
    hide Derivation;
    hide Element;
    ValueShape(t);
    var k := t.kids[0];
    KidBools(t.kids, 0);
    if t.rule == 14 {
      ScalarPrintable(k);
    } else {
      AggregateShape(k);
      var body := k.kids[2];
      KidBools(k.kids, 2);
      BodyShape(body);
      if HasBody(body) {
        KidBools(body.kids, 0);
        if t.rule == 15 {
          ScalarsPrintable(body.kids[0]);
        } else if t.rule == 16 {
          ValuesPrintable(body.kids[0]);
        } else {
          MembersPrintable(body.kids[0]);
        }
      }
    }
  }

  lemma {:induction false} ValuesPrintable(t: Tree)
    requires Derivation(t) && Root(t) == 36 && BoolsOk(Yield(t)) && DenoteValues(t).Some?
    ensures Printable(ListC(DenoteValues(t).value))
    decreases t
  {
    hide Derivation;
    RowShape(t);
    var n := |t.kids| - 1;
    KidBools(t.kids, n);
    ValuePrintable(t.kids[n]);
    if t.rule == 28 {
      KidBools(t.kids, 0);
      ValuesPrintable(t.kids[0]);
    }
  }

  lemma {:induction false} MembersPrintable(t: Tree)
    requires Derivation(t) && Root(t) == 25 && BoolsOk(Yield(t)) && DenoteMembers(t).Some?
    ensures Printable(GroupC(DenoteMembers(t).value))
    decreases t
  {
    hide Derivation;
    RowShape(t);
    var n := |t.kids| - 1;
    var m := t.kids[n];
    KidBools(t.kids, n);
    MemberShape(m);
    KidBools(m.kids, 3);
    ValuePrintable(m.kids[3]);
    if t.rule == 5 {
      KidBools(t.kids, 0);
      MembersPrintable(t.kids[0]);
    }
  }

  lemma {:induction false} ValueBools(c: Conf)
    ensures BoolsOk(ValueTokens(c))
    decreases c, 1
  {
    match c
    case ListC(items) => ElementBools(items);
    case ArrayC(items) => ElementBools(items);
    case GroupC(items) => MemberBools(items);
    case _ =>
  }

  lemma {:induction false} ItemBools(item: Item)
    ensures BoolsOk(ItemTokens(item))
    decreases item, 2
  {
    ValueBools(item.conf);
  }

  lemma {:induction false} ElementBools(items: seq<Item>)
    ensures BoolsOk(ElementTokens(items))
    decreases items, 0
  {
    if items != [] {
      ElementBools(items[..|items| - 1]);
      ItemBools(items[|items| - 1]);
    }
  }

  lemma {:induction false} MemberBools(items: seq<Item>)
    ensures BoolsOk(MemberTokens(items))
    decreases items, 0
  {
    if items != [] {
      MemberBools(items[..|items| - 1]);
      ItemBools(items[|items| - 1]);
    }
  }

  // ---------- the round trip ----------

  predicate Fits(items: seq<Item>) {
    1 + Max(1, NeedMembers(items)) < YYMAXDEPTH
  }

  // What is accepted is exactly what has a meaning and fits; then the heap stands for the
  // meaning, its invariants hold and the cursor is back at the root.
  lemma {:induction false} ReadCorrect(input: seq<Token>, conf: Conf)
    ensures var v := Read(input);
      v.Accepted? && Abs(v.ctx.heap, ROOT) == conf <==>
        exists t :: Derivation(t) && Root(t) == CONFIGURATION && Yield(t) == input
          && 1 + Room(t) < YYMAXDEPTH && Denote(t) == Some(conf)
    ensures Read(input).Accepted? ==> Clean(Read(input).ctx) && Read(input).ctx.parent == Some(ROOT)
  {
    hide Run;
    hide Exec;
    hide Denote;
    hide Derivation;
    StartIsReady(input);
    var v := Run(Start(input, StartCtx()), ACT);
    if v.Accepted? {
      ParserCorrect(input, StartCtx(), v.ctx, ACT);
      var t :| Explains(t, input, StartCtx(), v.ctx, ACT);
      ExecConfiguration(t);
    }
    if t :| Derivation(t) && Root(t) == CONFIGURATION && Yield(t) == input
          && 1 + Room(t) < YYMAXDEPTH && Denote(t) == Some(conf) {
      ExecConfiguration(t);
      DerivableOutcome(t, StartCtx(), ACT);
    }
  }

  lemma {:induction false} WrittenIsRead(items: seq<Item>)
    requires Printable(GroupC(items))
    ensures var v := Read(MemberTokens(items));
      if Fits(items) then v.Accepted? && Abs(v.ctx.heap, ROOT) == GroupC(items) else v.Exhausted?
  {
    hide Run;
    hide Exec;
    hide DenoteMembers;
    hide MembersTree;
    hide MemberTokens;
    hide NeedMembers;
    NoMembers([]);
    var t := if items == [] then Node(2, []) else Node(3, [MembersTree(items)]);
    if items == [] {
      Empty(2);
    } else {
      MembersDerive(items);
      MembersDenote(items);
      One(3, MembersTree(items), MemberTokens(items), NeedMembers(items));
    }
    assert Derives(t, CONFIGURATION, MemberTokens(items), Max(1, NeedMembers(items)));
    assert Denote(t) == Some(GroupC(items));
    ExecConfiguration(t);
    DerivableOutcome(t, StartCtx(), ACT);
  }

  // Reading what was written gives the same configuration back exactly when it is printable
  // and its nesting fits the parser.
  lemma {:induction false} RoundTrip(items: seq<Item>)
    ensures var v := Read(MemberTokens(items));
      v.Accepted? && Abs(v.ctx.heap, ROOT) == GroupC(items) <==> Printable(GroupC(items)) && Fits(items)
  {
    hide Read;
    hide Printable;
    hide Fits;
    var input := MemberTokens(items);
    var v := Read(input);
    if v.Accepted? && Abs(v.ctx.heap, ROOT) == GroupC(items) {
      ReadCorrect(input, GroupC(items));
      var t :| Derivation(t) && Root(t) == CONFIGURATION && Yield(t) == input
          && 1 + Room(t) < YYMAXDEPTH && Denote(t) == Some(GroupC(items));
      MemberBools(items);
      MeaningPrintable(t);
    }
    if Printable(GroupC(items)) { WrittenIsRead(items); }
  }

  lemma {:induction false} MeaningPrintable(t: Tree)
    requires Derivation(t) && Root(t) == CONFIGURATION && BoolsOk(Yield(t)) && Denote(t).Some?
    ensures Printable(Denote(t).value)
  {
    BodyShape(t);
    if HasBody(t) {
      KidBools(t.kids, 0);
      MembersPrintable(t.kids[0]);
    }
  }

  // A setting without a type is not read back: x = ???;
  lemma {:induction false} UntypedLost()
    ensures var v := Read(MemberTokens([Item(Some("x"), NoneC)]));
      !(v.Accepted? && Abs(v.ctx.heap, ROOT) == GroupC([Item(Some("x"), NoneC)]))
  {
    hide Read;
    hide MemberTokens;
    var items := [Item(Some("x"), NoneC)];
    assert !Printable(items[0].conf);
    RoundTrip(items);
  }
}
