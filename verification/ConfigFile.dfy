/** A whole configuration file, written as text and read back. */
module ConfigFile {
  import opened Wrappers
  import opened ConfigTables
  import opened ConfigParser
  import opened ConfigHeap
  import opened ConfigActions
  import opened ConfigRoundTrip
  import opened ConfigScanner
  import opened ConfigText

  // What the writer prints scans to the tokens of the configuration, and reading it back gives the
  // configuration again.

  // ---------- the writer ----------

  // __config_indent: a padded space, or tabs.
  function Indent(depth: nat, w: nat): string
  {
    if w > 0 then
      var n := if depth > 0 then (depth - 1) * w else 0;
      seq(if n == 0 then 1 else n, _ => ' ')
    else seq(if depth > 0 then depth - 1 else 0, _ => '\t')
  }

  function DeepIndent(depth: nat, w: nat): string {
    if depth > 1 then Indent(depth, w) else []
  }

  // What the writer can be given: numbers that fit their words, strings of C, and names that the
  // library lets in.
  predicate Writable(c: Conf) {
    match c
    case NoneC => true
    case ListC(items) => forall i :: 0 <= i < |items| ==> Writable(items[i].conf)
    case ArrayC(items) => forall i :: 0 <= i < |items| ==> Writable(items[i].conf)
    case GroupC(items) =>
      forall i :: 0 <= i < |items| ==>
        (items[i].name.Some? ==> ValidName(items[i].name.value)) && Writable(items[i].conf)
    case _ => ScalarText(c)
  }

  // __config_write_value inside another setting
  function WriteValue(c: Conf, depth: nat, w: nat): string
    requires Writable(c)
    decreases c, 1
  {
    match c
    case NoneC => "???"
    case ListC(items) => "( " + WriteElements(items, depth + 1, w, false) + ")"
    case ArrayC(items) => "[ " + WriteElements(items, depth + 1, w, false) + "]"
    case GroupC(items) =>
      "\n" + DeepIndent(depth, w) + "{\n" + WriteMembers(items, depth + 1, w) + DeepIndent(depth, w) + "}"
    case _ => WriteScalar(c)
  }

  // The elements of a list or array; more says whether others follow.
  function WriteElements(items: seq<Item>, depth: nat, w: nat, more: bool): string
    requires forall i :: 0 <= i < |items| ==> Writable(items[i].conf)
    decreases items, 0
  {
    if items == [] then []
    else
      var n := |items| - 1;
      WriteElements(items[..n], depth, w, true) + WriteItem(items[n], depth, w) + (if more then ", " else " ")
  }

  function WriteItem(item: Item, depth: nat, w: nat): string
    requires Writable(item.conf)
    decreases item, 2
  {
    WriteValue(item.conf, depth, w)
  }

  // __config_write_setting for the members of a group
  function WriteMembers(items: seq<Item>, depth: nat, w: nat): string
    requires Writable(GroupC(items))
    decreases items, 0
  {
    if items == [] then []
    else
      var n := |items| - 1;
      WriteMembers(items[..n], depth, w)
        + (DeepIndent(depth, w) + WriteName(items[n]) + WriteItem(items[n], depth, w) + ";\n")
  }

  function WriteName(item: Item): string {
    match item.name
    case None => []
    case Some(name) => name + (if item.conf.GroupC? then " : " else " = ")
  }

  // config_write
  function WriteFile(items: seq<Item>, w: nat): string
    requires Writable(GroupC(items))
  {
    WriteMembers(items, 1, w)
  }

  // ---------- scanning pieces ----------

  predicate Solid(t: string) {
    t != [] && t[0] != ' ' && t[0] != '\t' && t[0] != '@'
  }

  lemma {:induction false} ScanOne(s: string, rest: string, token: Token)
    requires s != [] && Lex(s + rest) == Found(token, |s|)
    ensures Scan(s + rest) == Before([token], Scan(rest))
  {
    hide Lex;
    assert (s + rest)[|s|..] == rest;
  }

  // A character that is a token by itself.
  lemma {:induction false} ScanSign(c: char, rest: string)
    requires c in {'=', ':', ',', '{', '}', '[', ']', '(', ')', ';'}
    ensures Scan([c] + rest) == Before([SignToken(c)], Scan(rest))
  {
    hide Number;
    hide Quoted;
    hide Word;
    hide Blanks;
    assert ([c] + rest)[0] == c;
    assert Lex([c] + rest) == Found(SignToken(c), 1);
    ScanOne([c], rest, SignToken(c));
  }

  function SignToken(c: char): Token {
    if c == '=' || c == ':' then TokEquals
    else if c == ',' then TokComma
    else if c == '{' then TokGroupStart
    else if c == '}' then TokGroupEnd
    else if c == '[' then TokArrayStart
    else if c == ']' then TokArrayEnd
    else if c == '(' then TokListStart
    else if c == ')' then TokListEnd
    else TokEnd
  }

  lemma {:induction false} ScanNewline(rest: string)
    ensures Scan("\n" + rest) == Scan(rest)
  {
    hide Number;
    hide Quoted;
    hide Word;
    hide Blanks;
    assert ("\n" + rest)[0] == '\n' && ("\n" + rest)[1..] == rest;
    assert Lex("\n" + rest) == Skip(1);
  }

  lemma {:induction false} ScanBlanks(blanks: string, rest: string)
    requires (forall i :: 0 <= i < |blanks| ==> In(Blank, blanks[i])) && Solid(rest)
    ensures Scan(blanks + rest) == Scan(rest)
  {
    if blanks == [] {
      assert blanks + rest == rest;
    } else {
      hide Number;
      hide Quoted;
      hide Word;
      SpanIs(Blank, blanks, rest);
      var t := blanks + rest;
      assert t[0] == blanks[0] && t[|blanks|] == rest[0] && t[|blanks|..] == rest;
      assert In(Blank, blanks[0]);
      assert Lex(t) == Skip(|blanks|);
    }
  }

  lemma {:induction false} ScanSpace(rest: string)
    requires Solid(rest)
    ensures Scan(" " + rest) == Scan(rest)
  {
    ScanBlanks(" ", rest);
  }

  lemma {:induction false} ScanIndent(depth: nat, w: nat, rest: string)
    requires Solid(rest)
    ensures Scan(DeepIndent(depth, w) + rest) == Scan(rest)
  {
    ScanBlanks(DeepIndent(depth, w), rest);
  }

  lemma {:induction false} BeforeBefore(a: seq<Token>, b: seq<Token>, r: Scanned)
    ensures Before(a, Before(b, r)) == Before(a + b, r)
  {
    if r.Tokens? { assert a + (b + r.tokens) == (a + b) + r.tokens; }
  }

  // ---------- the tokens of the text ----------

  // A name that is a keyword comes out as a truth value.
  function NameToken(name: string): Token {
    if SameWord(name, "true") then TokBoolean(1) else if SameWord(name, "false") then TokBoolean(0) else TokName(name)
  }

  function TextTokens(ts: seq<Token>): (us: seq<Token>)
    ensures |us| == |ts|
  {
    seq(|ts|, i requires 0 <= i < |ts| => if ts[i].TokName? then NameToken(ts[i].sval) else ts[i])
  }

  lemma {:induction false} TextJoined(a: seq<Token>, b: seq<Token>)
    ensures TextTokens(a + b) == TextTokens(a) + TextTokens(b)
  {
  }

  lemma {:induction false} TextOfOne(token: Token)
    ensures TextTokens([token]) == [if token.TokName? then NameToken(token.sval) else token]
  {
  }

  function TextValue(c: Conf): seq<Token> {
    TextTokens(ValueTokens(c))
  }

  function TextElements(items: seq<Item>): seq<Token> {
    TextTokens(ElementTokens(items))
  }

  function TextMembers(items: seq<Item>): seq<Token> {
    TextTokens(MemberTokens(items))
  }

  lemma {:induction false} TextBracketed(a: Token, ts: seq<Token>, z: Token)
    requires !a.TokName? && !z.TokName?
    ensures TextTokens([a] + ts + [z]) == [a] + TextTokens(ts) + [z]
  {
    TextJoined([a] + ts, [z]);
    TextJoined([a], ts);
    TextOfOne(a);
    TextOfOne(z);
  }

  lemma {:induction false} TextAggregates(items: seq<Item>)
    ensures TextValue(ListC(items)) == [TokListStart] + TextElements(items) + [TokListEnd]
    ensures TextValue(ArrayC(items)) == [TokArrayStart] + TextElements(items) + [TokArrayEnd]
    ensures TextValue(GroupC(items)) == [TokGroupStart] + TextMembers(items) + [TokGroupEnd]
  {
    hide ElementTokens;
    hide MemberTokens;
    hide TextTokens;
    TextBracketed(TokListStart, ElementTokens(items), TokListEnd);
    TextBracketed(TokArrayStart, ElementTokens(items), TokArrayEnd);
    TextBracketed(TokGroupStart, MemberTokens(items), TokGroupEnd);
  }

  lemma {:induction false} TextLastElement(items: seq<Item>)
    requires items != []
    ensures var n := |items| - 1;
      TextElements(items)
      == (if n == 0 then TextValue(items[n].conf)
          else TextElements(items[..n]) + [TokComma] + TextValue(items[n].conf))
  {
    hide ElementTokens;
    hide ValueTokens;
    hide TextTokens;
    LastElement(items);
    var n := |items| - 1;
    TextJoined(ElementTokens(items[..n]) + [TokComma], ValueTokens(items[n].conf));
    TextJoined(ElementTokens(items[..n]), [TokComma]);
    TextOfOne(TokComma);
  }

  // The name of a member, if it has one, and the sign behind it.
  function NameTokens(item: Item): seq<Token> {
    match item.name case None => [] case Some(name) => [NameToken(name), TokEquals]
  }

  lemma {:induction false} TextLastMember(items: seq<Item>)
    requires items != []
    ensures var n := |items| - 1;
      TextMembers(items)
      == TextMembers(items[..n]) + (NameTokens(items[n]) + TextValue(items[n].conf) + [TokEnd])
  {
    hide ValueTokens;
    hide TextTokens;
    var n := |items| - 1;
    var front, vt := MemberTokens(items[..n]), ValueTokens(items[n].conf);
    var nt: seq<Token> := if items[n].name.Some? then [TokName(items[n].name.value), TokEquals] else [];
    assert MemberTokens(items) == front + (nt + vt + [TokEnd]) by {
      assert MemberTokens(items) == front + nt + vt + [TokEnd];
    }
    TextJoined(front, nt + vt + [TokEnd]);
    TextJoined(nt + vt, [TokEnd]);
    TextJoined(nt, vt);
    TextOfOne(TokEnd);
    TextOfName(items[n]);
  }

  lemma {:induction false} TextOfName(item: Item)
    ensures TextTokens(if item.name.Some? then [TokName(item.name.value), TokEquals] else []) == NameTokens(item)
  {
  }

  // ---------- values ----------

  lemma {:induction false} ValueSolid(c: Conf, depth: nat, w: nat, rest: string)
    requires Writable(c)
    ensures Solid(WriteValue(c, depth, w) + rest)
  {
    hide WriteElements;
    hide WriteMembers;
    hide WriteScalar;
    var t := WriteValue(c, depth, w);
    match c {
      case ListC(items) => assert t[0] == '(';
      case ArrayC(items) => assert t[0] == '[';
      case GroupC(items) => assert t[0] == '\n';
      case NoneC => assert t[0] == '?';
      case _ => ScalarScans(c, ";");
    }
    assert (t + rest)[0] == t[0];
  }

  lemma {:induction false} ScalarValueScans(c: Conf, rest: string)
    requires ScalarText(c) && Separated(rest)
    ensures Scan(WriteScalar(c) + rest) == Before(TextValue(c), Scan(rest))
  {
    hide WriteScalar;
    ScalarScans(c, rest);
    NoNames(c);
    ScanOne(WriteScalar(c), rest, ValueTokens(c)[0]);
    assert [ValueTokens(c)[0]] == ValueTokens(c);
    TextOfOne(ValueTokens(c)[0]);
  }

  lemma {:induction false} NoNames(c: Conf)
    requires ScalarText(c)
    ensures |ValueTokens(c)| == 1 && !ValueTokens(c)[0].TokName?
  {
  }

  // A setting without a type is written as three characters that no rule takes.
  lemma {:induction false} UntypedScans(rest: string)
    ensures Scan("???" + rest) == Before(TextValue(NoneC), Scan(rest))
  {
    hide Scan;
    assert "???" + rest == "?" + ("?" + ("?" + rest));
    QuestionScans("?" + ("?" + rest));
    QuestionScans("?" + rest);
    QuestionScans(rest);
    BeforeBefore([TokGarbage], [TokGarbage], Scan(rest));
    BeforeBefore([TokGarbage], [TokGarbage] + [TokGarbage], Scan(rest));
    assert ValueTokens(NoneC) == [TokGarbage] + ([TokGarbage] + [TokGarbage]);
    TextJoined([TokGarbage], [TokGarbage] + [TokGarbage]);
    TextJoined([TokGarbage], [TokGarbage]);
    TextOfOne(TokGarbage);
  }

  lemma {:induction false} QuestionScans(rest: string)
    ensures Scan("?" + rest) == Before([TokGarbage], Scan(rest))
  {
    hide Number;
    hide Quoted;
    hide Word;
    hide Blanks;
    assert ("?" + rest)[0] == '?';
    assert Lex("?" + rest) == Found(TokGarbage, 1);
    ScanOne("?", rest, TokGarbage);
  }

  lemma {:induction false} ValueScans(c: Conf, depth: nat, w: nat, rest: string)
    requires Writable(c) && Separated(rest)
    ensures Scan(WriteValue(c, depth, w) + rest) == Before(TextValue(c), Scan(rest))
    decreases c, 1
  {
    hide Scan;
    hide WriteScalar;
    hide WriteElements;
    hide WriteMembers;
    hide TextElements;
    hide TextMembers;
    hide TextTokens;
    hide TextValue;
    match c
    case ListC(items) =>
      TextAggregates(items);
      var inner := WriteElements(items, depth + 1, w, false) + (")" + rest);
      assert WriteValue(c, depth, w) + rest == "(" + (" " + inner);
      Bracket('(', ')', inner, items, depth, w, rest);
    case ArrayC(items) =>
      TextAggregates(items);
      var inner := WriteElements(items, depth + 1, w, false) + ("]" + rest);
      assert WriteValue(c, depth, w) + rest == "[" + (" " + inner);
      Bracket('[', ']', inner, items, depth, w, rest);
    case GroupC(items) =>
      GroupScans(items, depth, w, rest);
    case NoneC =>
      UntypedScans(rest);
    case _ =>
      ScalarValueScans(c, rest);
  }

  lemma {:induction false} Bracket(open: char, close: char, inner: string, items: seq<Item>, depth: nat, w: nat, rest: string)
    requires (open == '(' && close == ')') || (open == '[' && close == ']')
    requires forall i :: 0 <= i < |items| ==> Writable(items[i].conf)
    requires inner == WriteElements(items, depth + 1, w, false) + ([close] + rest)
    ensures Scan([open] + (" " + inner))
      == Before([SignToken(open)] + TextElements(items) + [SignToken(close)], Scan(rest))
    decreases items, 1
  {
    hide Scan;
    hide WriteElements;
    hide TextElements;
    hide Writable;
    ScanSign(open, " " + inner);
    ElementsSolid(items, depth + 1, w, false, [close] + rest);
    ScanSpace(inner);
    ElementsScan(items, depth + 1, w, false, [close] + rest);
    ScanSign(close, rest);
    BeforeBefore(TextElements(items), [SignToken(close)], Scan(rest));
    BeforeBefore([SignToken(open)], TextElements(items) + [SignToken(close)], Scan(rest));
    assert [SignToken(open)] + (TextElements(items) + [SignToken(close)])
      == [SignToken(open)] + TextElements(items) + [SignToken(close)];
  }

  // ---------- elements ----------

  lemma {:induction false} ElementsOne(items: seq<Item>, depth: nat, w: nat, more: bool, rest: string)
    requires items != [] && forall i :: 0 <= i < |items| ==> Writable(items[i].conf)
    ensures var n := |items| - 1;
      WriteElements(items, depth, w, more) + rest
      == WriteElements(items[..n], depth, w, true)
        + (WriteValue(items[n].conf, depth, w) + ((if more then ", " else " ") + rest))
  {
    hide WriteValue;
    hide Writable;
  }

  lemma {:induction false} ElementsSolid(items: seq<Item>, depth: nat, w: nat, more: bool, rest: string)
    requires forall i :: 0 <= i < |items| ==> Writable(items[i].conf)
    requires Solid(rest)
    ensures Solid(WriteElements(items, depth, w, more) + rest)
    decreases |items|
  {
    hide WriteElements;
    hide WriteValue;
    hide Writable;
    if items == [] {
      NoElements(depth, w, more);
      assert [] + rest == rest;
    } else {
      var n := |items| - 1;
      ElementsOne(items, depth, w, more, rest);
      var back := (if more then ", " else " ") + rest;
      ValueSolid(items[n].conf, depth, w, back);
      ElementsSolid(items[..n], depth, w, true, WriteValue(items[n].conf, depth, w) + back);
    }
  }

  lemma {:induction false} NoElements(depth: nat, w: nat, more: bool)
    ensures WriteElements([], depth, w, more) == [] && TextElements([]) == []
  {
  }

  lemma {:induction false} ElementsScan(items: seq<Item>, depth: nat, w: nat, more: bool, rest: string)
    requires forall i :: 0 <= i < |items| ==> Writable(items[i].conf)
    requires Solid(rest)
    ensures Scan(WriteElements(items, depth, w, more) + rest)
      == Before(TextElements(items) + (if more && items != [] then [TokComma] else []), Scan(rest))
    decreases items, 0
  {
    hide Scan;
    hide WriteElements;
    hide TextElements;
    hide WriteValue;
    hide TextValue;
    hide Writable;
    if items == [] {
      NoElements(depth, w, more);
      assert [] + rest == rest;
      NothingBefore(rest);
    } else {
      var n := |items| - 1;
      var front, c := items[..n], items[n].conf;
      var back := (if more then ", " else " ") + rest;
      var tail := WriteValue(c, depth, w) + back;
      ElementsOne(items, depth, w, more, rest);
      ValueSolid(c, depth, w, back);
      ElementsScan(front, depth, w, true, tail);
      ItemScans(items[n], depth, w, back);
      ScanBehind(more, rest);
      TextLastElement(items);
      var vt := TextValue(c);
      var comma: seq<Token> := if more then [TokComma] else [];
      BeforeBefore(vt, comma, Scan(rest));
      var ft := TextElements(front) + (if front != [] then [TokComma] else []);
      BeforeBefore(ft, vt + comma, Scan(rest));
      JoinElements(items, vt, comma);
    }
  }

  lemma {:induction false} ItemScans(item: Item, depth: nat, w: nat, rest: string)
    requires Writable(item.conf) && Separated(rest)
    ensures Scan(WriteValue(item.conf, depth, w) + rest) == Before(TextValue(item.conf), Scan(rest))
    decreases item, 2
  {
    ValueScans(item.conf, depth, w, rest);
  }

  lemma {:induction false} JoinElements(items: seq<Item>, vt: seq<Token>, comma: seq<Token>)
    requires items != [] && vt == TextValue(items[|items| - 1].conf)
    ensures var front := items[..|items| - 1];
      TextElements(front) + (if front != [] then [TokComma] else []) + (vt + comma) == TextElements(items) + comma
  {
    hide TextElements;
    hide TextValue;
    TextLastElement(items);
    var front := items[..|items| - 1];
    if front == [] {
      NoElements(0, 0, false);
      assert [] + [] + (vt + comma) == vt + comma;
    }
  }

  lemma {:induction false} NothingBefore(rest: string)
    ensures Scan(rest) == Before([] + [], Scan(rest))
  {
    hide Scan;
    if Scan(rest).Tokens? { assert [] + [] + Scan(rest).tokens == Scan(rest).tokens; }
  }

  lemma {:induction false} ScanBehind(more: bool, rest: string)
    requires Solid(rest)
    ensures Scan((if more then ", " else " ") + rest) == Before(if more then [TokComma] else [], Scan(rest))
  {
    hide Scan;
    ScanSpace(rest);
    if more {
      assert ", " + rest == "," + (" " + rest);
      ScanSign(',', " " + rest);
    } else {
      NothingBefore(rest);
    }
  }

  // ---------- groups ----------

  lemma {:induction false} GroupScans(items: seq<Item>, depth: nat, w: nat, rest: string)
    requires Writable(GroupC(items)) && Separated(rest)
    ensures Scan(WriteValue(GroupC(items), depth, w) + rest) == Before(TextValue(GroupC(items)), Scan(rest))
    decreases items, 1
  {
    hide Scan;
    hide WriteMembers;
    hide TextMembers;
    hide TextValue;
    hide Writable;
    hide DeepIndent;
    var ind := DeepIndent(depth, w);
    var end := "}" + rest;
    var close := ind + end;
    var inner := WriteMembers(items, depth + 1, w) + close;
    var body := "\n" + inner;
    GroupText(items, depth, w, rest);
    TextAggregates(items);
    ScanNewline(ind + ("{" + body));
    ScanIndent(depth, w, "{" + body);
    ScanSign('{', body);
    ScanNewline(inner);
    MembersScan(items, depth + 1, w, close);
    ScanIndent(depth, w, end);
    ScanSign('}', rest);
    BeforeBefore(TextMembers(items), [TokGroupEnd], Scan(rest));
    BeforeBefore([TokGroupStart], TextMembers(items) + [TokGroupEnd], Scan(rest));
    assert [TokGroupStart] + (TextMembers(items) + [TokGroupEnd])
      == [TokGroupStart] + TextMembers(items) + [TokGroupEnd];
  }

  lemma {:induction false} GroupText(items: seq<Item>, depth: nat, w: nat, rest: string)
    requires Writable(GroupC(items))
    ensures var ind := DeepIndent(depth, w);
      WriteValue(GroupC(items), depth, w) + rest
      == "\n" + (ind + ("{" + ("\n" + (WriteMembers(items, depth + 1, w) + (ind + ("}" + rest))))))
  {
    hide WriteMembers;
    hide DeepIndent;
    hide Writable;
    var ind, m := DeepIndent(depth, w), WriteMembers(items, depth + 1, w);
    assert "{\n" == "{" + "\n";
    assert WriteValue(GroupC(items), depth, w) == "\n" + ind + "{\n" + m + ind + "}";
  }

  lemma {:induction false} MembersScan(items: seq<Item>, depth: nat, w: nat, rest: string)
    requires Writable(GroupC(items))
    ensures Scan(WriteMembers(items, depth, w) + rest) == Before(TextMembers(items), Scan(rest))
    decreases items, 0
  {
    hide Scan;
    hide WriteMembers;
    hide TextMembers;
    hide WriteValue;
    hide TextValue;
    if items == [] {
      NoMembersText(depth, w);
      assert [] + rest == rest;
      NothingBefore(rest);
      assert [] + [] == TextMembers([]);
    } else {
      var n := |items| - 1;
      var front, item := items[..n], items[n];
      MembersOne(items, depth, w, rest);
      MembersScan(front, depth, w, MemberText(item, depth, w) + rest);
      var back := ";\n" + rest;
      ItemScans(item, depth, w, back);
      MemberScans(item, depth, w, rest);
      TextLastMember(items);
      var mt := NameTokens(item) + TextValue(item.conf) + [TokEnd];
      BeforeBefore(TextMembers(front), mt, Scan(rest));
    }
  }

  function MemberText(item: Item, depth: nat, w: nat): string
    requires Writable(item.conf)
  {
    DeepIndent(depth, w) + WriteName(item) + WriteValue(item.conf, depth, w) + ";\n"
  }

  lemma {:induction false} NoMembersText(depth: nat, w: nat)
    ensures WriteMembers([], depth, w) == [] && TextMembers([]) == []
  {
  }

  lemma {:induction false} MembersOne(items: seq<Item>, depth: nat, w: nat, rest: string)
    requires items != [] && Writable(GroupC(items))
    ensures var n := |items| - 1;
      Writable(GroupC(items[..n])) && Writable(items[n].conf)
      && (items[n].name.Some? ==> ValidName(items[n].name.value))
      && WriteMembers(items, depth, w) + rest
         == WriteMembers(items[..n], depth, w) + (MemberText(items[n], depth, w) + rest)
  {
    hide WriteValue;
    hide DeepIndent;
  }

  // One member, given that its value scans.
  lemma {:induction false} MemberScans(item: Item, depth: nat, w: nat, rest: string)
    requires (item.name.Some? ==> ValidName(item.name.value)) && Writable(item.conf)
    requires var back := ";\n" + rest;
      Scan(WriteValue(item.conf, depth, w) + back) == Before(TextValue(item.conf), Scan(back))
    ensures Scan(MemberText(item, depth, w) + rest)
      == Before(NameTokens(item) + TextValue(item.conf) + [TokEnd], Scan(rest))
  {
    hide Scan;
    hide WriteValue;
    hide TextValue;
    hide Writable;
    hide DeepIndent;
    hide WriteName;
    hide NameTokens;
    var vt, back := TextValue(item.conf), ";\n" + rest;
    var value := WriteValue(item.conf, depth, w) + back;
    MemberParts(item, depth, w, rest);
    ValueSolid(item.conf, depth, w, back);
    NamePartScans(item, value);
    ScanIndent(depth, w, WriteName(item) + value);
    EndScans(rest);
    BeforeBefore(vt, [TokEnd], Scan(rest));
    BeforeBefore(NameTokens(item), vt + [TokEnd], Scan(rest));
    assert NameTokens(item) + (vt + [TokEnd]) == NameTokens(item) + vt + [TokEnd];
  }

  lemma {:induction false} NameLexed(name: string, rest: string)
    requires ValidName(name) && rest != [] && rest[0] == ' '
    ensures Lex(name + rest) == Found(NameToken(name), |name|)
    ensures name[0] != ' ' && name[0] != '\t' && name[0] != '@'
  {
    hide Lex;
    NameScans(name, rest);
  }

  // The name and its sign, in front of a value.
  lemma {:induction false} NamePartScans(item: Item, value: string)
    requires (item.name.Some? ==> ValidName(item.name.value)) && Solid(value)
    ensures Solid(WriteName(item) + value)
    ensures Scan(WriteName(item) + value) == Before(NameTokens(item), Scan(value))
  {
    hide Scan;
    hide Lex;
    hide NameToken;
    match item.name
    case None =>
      assert [] + value == value;
      NothingBefore(value);
      assert [] + [] == NameTokens(item);
    case Some(name) =>
      var sign: char := if item.conf.GroupC? then ':' else '=';
      var d := [sign] + (" " + value);
      assert WriteName(item) + value == name + (" " + d) by {
        assert WriteName(item) == name + (" " + [sign] + " ");
      }
      NameLexed(name, " " + d);
      assert (name + (" " + d))[0] == name[0];
      ScanOne(name, " " + d, NameToken(name));
      assert d[0] == sign;
      ScanSpace(d);
      ScanSign(sign, " " + value);
      ScanSpace(value);
      BeforeBefore([NameToken(name)], [TokEquals], Scan(value));
      assert [NameToken(name)] + [TokEquals] == [NameToken(name), TokEquals];
  }

  lemma {:induction false} EndScans(rest: string)
    ensures Scan(";\n" + rest) == Before([TokEnd], Scan(rest))
  {
    hide Scan;
    assert ";\n" + rest == ";" + ("\n" + rest);
    ScanSign(';', "\n" + rest);
    ScanNewline(rest);
  }

  lemma {:induction false} MemberParts(item: Item, depth: nat, w: nat, rest: string)
    requires Writable(item.conf)
    ensures MemberText(item, depth, w) + rest
      == DeepIndent(depth, w) + (WriteName(item) + (WriteValue(item.conf, depth, w) + (";\n" + rest)))
  {
    hide WriteValue;
    hide WriteName;
    hide DeepIndent;
    hide Writable;
    FourParts(DeepIndent(depth, w), WriteName(item), WriteValue(item.conf, depth, w), rest);
  }

  lemma {:induction false} FourParts(a: string, b: string, c: string, d: string)
    ensures (a + b + c + ";\n") + d == a + (b + (c + (";\n" + d)))
  {
  }

  // ---------- the file ----------

  lemma {:induction false} FileScans(items: seq<Item>, w: nat)
    requires Writable(GroupC(items))
    ensures Scan(WriteFile(items, w)) == Tokens(TextMembers(items))
  {
    hide Scan;
    hide WriteMembers;
    hide TextMembers;
    hide Writable;
    MembersScan(items, 1, w, "");
    assert WriteMembers(items, 1, w) + "" == WriteMembers(items, 1, w);
    EndOfFile();
    assert TextMembers(items) + [] == TextMembers(items);
  }

  lemma {:induction false} EndOfFile()
    ensures Scan("") == Tokens([])
  {
  }

  // ---------- names that are keywords ----------

  // No member of a group, at any depth, is named true or false in any mixture of cases.
  predicate KeywordFree(c: Conf) {
    match c
    case ListC(items) => forall i :: 0 <= i < |items| ==> KeywordFree(items[i].conf)
    case ArrayC(items) => forall i :: 0 <= i < |items| ==> KeywordFree(items[i].conf)
    case GroupC(items) =>
      forall i :: 0 <= i < |items| ==>
        (items[i].name.Some? ==> !Keyword(items[i].name.value)) && KeywordFree(items[i].conf)
    case _ => true
  }

  ghost predicate NamesOnly(ts: seq<Token>) {
    forall i :: 0 <= i < |ts| && ts[i].TokName? ==> !Keyword(ts[i].sval)
  }

  lemma {:induction false} TextNames(ts: seq<Token>)
    ensures NamesOnly(TextTokens(ts)) && (NamesOnly(ts) ==> TextTokens(ts) == ts)
    ensures BoolsOk(ts) ==> BoolsOk(TextTokens(ts))
  {
  }

  lemma {:induction false} JoinedNames(a: seq<Token>, b: seq<Token>)
    ensures NamesOnly(a + b) <==> NamesOnly(a) && NamesOnly(b)
  {
    if NamesOnly(a + b) {
      assert forall i :: 0 <= i < |a| ==> (a + b)[i] == a[i];
      forall i | 0 <= i < |b| && b[i].TokName?
        ensures !Keyword(b[i].sval)
      {
        assert (a + b)[|a| + i] == b[i];
      }
    }
  }

  // A configuration without such names has no such tokens.
  lemma {:induction false} ValueNames(c: Conf)
    requires KeywordFree(c)
    ensures NamesOnly(ValueTokens(c))
    decreases c, 1
  {
    match c
    case ListC(items) => ElementNames(items);
    case ArrayC(items) => ElementNames(items);
    case GroupC(items) => MemberNames(items);
    case _ =>
  }

  lemma {:induction false} ItemNames(item: Item)
    requires KeywordFree(item.conf)
    ensures NamesOnly(ItemTokens(item))
    decreases item, 2
  {
    ValueNames(item.conf);
  }

  lemma {:induction false} ElementNames(items: seq<Item>)
    requires forall i :: 0 <= i < |items| ==> KeywordFree(items[i].conf)
    ensures NamesOnly(ElementTokens(items))
    decreases items, 0
  {
    if items != [] {
      ElementNames(items[..|items| - 1]);
      ItemNames(items[|items| - 1]);
    }
  }

  lemma {:induction false} MemberNames(items: seq<Item>)
    requires KeywordFree(GroupC(items))
    ensures NamesOnly(MemberTokens(items))
    decreases items, 0
  {
    if items != [] {
      MemberNames(items[..|items| - 1]);
      ItemNames(items[|items| - 1]);
    }
  }

  // And the names in a meaning all come from tokens of the text.
  lemma {:induction false} KidNames(kids: seq<Tree>, i: nat)
    requires i < |kids| && NamesOnly(YieldAll(kids))
    ensures NamesOnly(Yield(kids[i]))
  {
    hide NamesOnly;
    hide YieldAll;
    hide Yield;
    assert kids == kids[..i] + kids[i..] && kids[i..] == [kids[i]] + kids[i + 1..];
    AppendYield(kids[..i], kids[i..]);
    Front(kids[i..]);
    assert kids[i..][1..] == kids[i + 1..];
    JoinedNames(YieldAll(kids[..i]), YieldAll(kids[i..]));
    JoinedNames(Yield(kids[i]), YieldAll(kids[i + 1..]));
  }

  lemma {:induction false} ScalarFree(t: Tree)
    requires Derivation(t) && Root(t) == 35
    ensures KeywordFree(Element(t).conf)
  {
  }

  lemma {:induction false} ScalarsFree(t: Tree)
    requires Derivation(t) && Root(t) == 38 && DenoteScalars(t).Some?
    ensures KeywordFree(ArrayC(DenoteScalars(t).value))
    decreases t
  {
    hide Derivation;
    hide Element;
    RowShape(t);
    ScalarFree(t.kids[|t.kids| - 1]);
    if t.rule == 32 { ScalarsFree(t.kids[0]); }
  }

  lemma {:induction false} ValueFree(t: Tree)
    requires Derivation(t) && Root(t) == 33 && NamesOnly(Yield(t)) && DenoteValue(t).Some?
    ensures KeywordFree(DenoteValue(t).value)
    decreases t
  {
    hide Derivation;
    hide Element;
    hide NamesOnly;
    ValueShape(t);
    var k := t.kids[0];
    KidNames(t.kids, 0);
    if t.rule == 14 {
      ScalarFree(k);
    } else {
      AggregateShape(k);
      var body := k.kids[2];
      KidNames(k.kids, 2);
      BodyShape(body);
      if HasBody(body) {
        KidNames(body.kids, 0);
        if t.rule == 15 {
          ScalarsFree(body.kids[0]);
        } else if t.rule == 16 {
          ValuesFree(body.kids[0]);
        } else {
          MembersFree(body.kids[0]);
        }
      }
    }
  }

  lemma {:induction false} ValuesFree(t: Tree)
    requires Derivation(t) && Root(t) == 36 && NamesOnly(Yield(t)) && DenoteValues(t).Some?
    ensures KeywordFree(ListC(DenoteValues(t).value))
    decreases t
  {
    hide Derivation;
    hide NamesOnly;
    RowShape(t);
    var n := |t.kids| - 1;
    KidNames(t.kids, n);
    ValueFree(t.kids[n]);
    if t.rule == 28 {
      KidNames(t.kids, 0);
      ValuesFree(t.kids[0]);
    }
  }

  lemma {:induction false} MembersFree(t: Tree)
    requires Derivation(t) && Root(t) == 25 && NamesOnly(Yield(t)) && DenoteMembers(t).Some?
    ensures KeywordFree(GroupC(DenoteMembers(t).value))
    decreases t
  {
    hide Derivation;
    hide Keyword;
    RowShape(t);
    var n := |t.kids| - 1;
    var m := t.kids[n];
    KidNames(t.kids, n);
    MemberShape(m);
    KidNames(m.kids, 0);
    KidNames(m.kids, 3);
    assert Yield(m.kids[0])[0] == m.kids[0].token;
    ValueFree(m.kids[3]);
    if t.rule == 5 {
      KidNames(t.kids, 0);
      MembersFree(t.kids[0]);
    }
  }

  lemma {:induction false} MeaningFree(t: Tree)
    requires Derivation(t) && Root(t) == CONFIGURATION && NamesOnly(Yield(t)) && Denote(t).Some?
    ensures KeywordFree(Denote(t).value)
  {
    hide NamesOnly;
    BodyShape(t);
    if HasBody(t) {
      KidNames(t.kids, 0);
      MembersFree(t.kids[0]);
    }
  }

  // ---------- there and back ----------

  // Scanning and parsing the text of a configuration gives the configuration again.
  ghost predicate ReadBack(items: seq<Item>, w: nat)
    requires Writable(GroupC(items))
  {
    var r := Scan(WriteFile(items, w));
    r.Tokens? && (var v := Read(r.tokens); v.Accepted? && Abs(v.ctx.heap, ROOT) == GroupC(items))
  }

  // That is so exactly if it is printable, its nesting fits the parser and no member is named true
  // or false; the indentation plays no part. The text never leaves the scanner's model.
  lemma {:induction false} FileRoundTrip(items: seq<Item>, w: nat)
    requires Writable(GroupC(items))
    ensures Scan(WriteFile(items, w)).Tokens?
    ensures ReadBack(items, w) <==> Printable(GroupC(items)) && Fits(items) && KeywordFree(GroupC(items))
  {
    hide Scan;
    hide Read;
    hide Printable;
    hide Fits;
    hide Writable;
    hide WriteFile;
    hide KeywordFree;
    hide NamesOnly;
    hide MemberTokens;
    FileScans(items, w);
    TextNames(MemberTokens(items));
    var input := TextMembers(items);
    var v := Read(input);
    if v.Accepted? && Abs(v.ctx.heap, ROOT) == GroupC(items) {
      ReadCorrect(input, GroupC(items));
      var t :| Derivation(t) && Root(t) == CONFIGURATION && Yield(t) == input
          && 1 + Room(t) < YYMAXDEPTH && Denote(t) == Some(GroupC(items));
      MeaningFree(t);
    }
    if KeywordFree(GroupC(items)) {
      MemberNames(items);
      RoundTrip(items);
    }
  }

  // A printable configuration that the text cannot carry: true = 1;
  lemma {:induction false} KeywordLost(w: nat)
    ensures var items := [Item(Some("true"), IntC(1, Plain))];
      Printable(GroupC(items)) && Fits(items) && Writable(GroupC(items)) && !ReadBack(items, w)
  {
    hide ReadBack;
    var items := [Item(Some("true"), IntC(1, Plain))];
    assert Keyword(items[0].name.value) && ValidName("true");
    assert items[0].conf == IntC(1, Plain);
    assert !KeywordFree(GroupC(items));
    FileRoundTrip(items, w);
  }

  // ---------- how the text looks ----------

  // A member is on a line of its own, behind a tab or so many spaces for each group around it.
  lemma {:induction false} IndentIs(depth: nat, w: nat)
    ensures var t := DeepIndent(depth, w);
      && |t| == (if depth <= 1 then 0 else if w == 0 then depth - 1 else (depth - 1) * w)
      && forall i :: 0 <= i < |t| ==> t[i] == if w == 0 then '\t' else ' '
  {
    if depth > 1 && w > 0 { assert (depth - 1) * w > 0; }
  }

  lemma {:induction false} OneMember(item: Item, depth: nat, w: nat)
    requires Writable(GroupC([item])) && Writable(item.conf)
    ensures WriteMembers([item], depth, w)
      == "" + (DeepIndent(depth, w) + WriteName(item) + WriteValue(item.conf, depth, w) + ";\n")
  {
    assert [item][..0] == [];
    NoMembersText(depth, w);
  }

  lemma {:induction false} TwoElements(a: Item, b: Item, depth: nat, w: nat)
    requires Writable(a.conf) && Writable(b.conf)
    ensures WriteElements([a, b], depth, w, false)
      == ("" + WriteValue(a.conf, depth, w) + ", ") + WriteValue(b.conf, depth, w) + " "
  {
    assert [a, b][..1] == [a] && [a][..0] == [];
    assert WriteElements([], depth, w, true) == "";
    assert WriteElements([a], depth, w, true) == "" + WriteItem(a, depth, w) + ", ";
  }

  // Two elements in brackets, a comma between them.
  lemma {:induction false} ArrayWritten(a: Item, b: Item, depth: nat, w: nat)
    requires Writable(a.conf) && Writable(b.conf)
    ensures var x, y := WriteValue(a.conf, depth + 1, w), WriteValue(b.conf, depth + 1, w);
      && Writable(ArrayC([a, b])) && WriteValue(ArrayC([a, b]), depth, w) == "[ " + x + ", " + y + " ]"
      && Writable(ListC([a, b])) && WriteValue(ListC([a, b]), depth, w) == "( " + x + ", " + y + " )"
  {
    TwoElements(a, b, depth + 1, w);
    hide WriteElements;
    hide DeepIndent;
    var x, y := WriteValue(a.conf, depth + 1, w), WriteValue(b.conf, depth + 1, w);
    RowWritten(x, y, "[ ", "]", " ]");
    RowWritten(x, y, "( ", ")", " )");
  }

  lemma {:induction false} RowWritten(x: string, y: string, open: string, close: string, end: string)
    requires end == " " + close
    ensures open + (("" + x + ", ") + y + " ") + close == open + x + ", " + y + end
  {
  }

  // A member of a group in the file, which is no group itself: the braces on lines of their own,
  // the member indented by one level.
  lemma {:induction false} GroupWritten(g: string, n: string, a: Conf, w: nat)
    requires ValidName(g) && ValidName(n) && Writable(a) && !a.GroupC?
    ensures var items := [Item(Some(g), GroupC([Item(Some(n), a)]))];
      && Writable(GroupC(items))
      && WriteFile(items, w) == g + " : \n{\n" + DeepIndent(2, w) + n + " = " + WriteValue(a, 2, w) + ";\n};\n"
  {
    hide ValidName;
    var inner := Item(Some(n), a);
    var outer := Item(Some(g), GroupC([inner]));
    OneMember(inner, 2, w);
    OneMember(outer, 1, w);
    IndentIs(1, w);
    hide WriteMembers;
    LinesWritten(g, n, DeepIndent(2, w), WriteValue(a, 2, w));
  }

  lemma {:induction false} LinesWritten(g: string, n: string, indent: string, v: string)
    ensures "" + ("" + (g + " : ") + ("\n" + "" + "{\n" + ("" + (indent + (n + " = ") + v + ";\n")) + "" + "}") + ";\n")
      == g + " : \n{\n" + indent + n + " = " + v + ";\n};\n"
  {
    var line := indent + n + " = " + v + ";\n";
    assert "" + (indent + (n + " = ") + v + ";\n") == line;
    assert "\n" + "" + "{\n" + line + "" + "}" == "\n{\n" + line + "}";
    assert "" + ("" + (g + " : ") + ("\n{\n" + line + "}") + ";\n") == g + " : " + ("\n{\n" + line + "}") + ";\n";
    assert g + " : " + ("\n{\n" + line + "}") + ";\n" == g + " : \n{\n" + line + "};\n";
  }
}
