/** The rules of scanner.l as regular expressions, and the scanner as the longest match among them. */
module ConfigRules {
  import opened Wrappers
  import opened ConfigHeap
  import opened ConfigNumbers
  import opened ConfigParser
  import opened ConfigScanner
  import opened ConfigRegex

  // ---------- the definitions ----------

  function Letter(): Regex {
    Or(Range('A', 'Z'), Range('a', 'z'))
  }

  function Dig(): Regex {
    Range('0', '9')
  }

  function HexDig(): Regex {
    Or(Dig(), Or(Range('A', 'F'), Range('a', 'f')))
  }

  // [-+]?
  function SignPart(): Regex {
    Maybe(Either('-', '+'))
  }

  function TrueWord(): Regex {
    Then(Either('T', 't'), Then(Either('R', 'r'), Then(Either('U', 'u'), Either('E', 'e'))))
  }

  function FalseWord(): Regex {
    Then(Either('F', 'f'), Then(Either('A', 'a'), Then(Either('L', 'l'), Then(Either('S', 's'), Either('E', 'e')))))
  }

  // [A-Za-z\*][-A-Za-z0-9_\*]*
  function NameWord(): Regex {
    Then(NameHead(), Many(NameRest()))
  }

  function NameHead(): Regex {
    Or(Letter(), One('*'))
  }

  function NameRest(): Regex {
    Or(One('-'), Or(Letter(), Or(Dig(), Or(One('_'), One('*')))))
  }

  // [-+]?[0-9]+
  function IntegerWord(): Regex {
    Then(SignPart(), Plus(Dig()))
  }

  // L(L)?
  function LongPart(): Regex {
    Then(One('L'), Maybe(One('L')))
  }

  // 0[Xx][0-9A-Fa-f]+
  function HexWord(): Regex {
    Then(One('0'), Then(Either('X', 'x'), Plus(HexDig())))
  }

  // [eE][-+]?[0-9]+
  function ExponentPart(): Regex {
    Then(Either('e', 'E'), IntegerWord())
  }

  // ([-+]?([0-9]*)?\.[0-9]*([eE][-+]?[0-9]+)?)|([-+]?([0-9]+)(\.[0-9]*)?[eE][-+]?[0-9]+)
  function FloatWord(): Regex {
    Or(PointWord(), ExponentWord())
  }

  function PointWord(): Regex {
    Then(SignPart(), Then(Many(Dig()), Then(One('.'), Then(Many(Dig()), Maybe(ExponentPart())))))
  }

  function ExponentWord(): Regex {
    Then(SignPart(), Then(Plus(Dig()), Then(Maybe(Then(One('.'), Many(Dig()))), ExponentPart())))
  }

  // (#|\/\/).*
  function CommentLine(): Regex {
    Then(Or(One('#'), Then(One('/'), One('/'))), Many(NoneOf("\n")))
  }

  // ---------- the rules outside comments and strings ----------

  datatype Rule =
    | OpenComment | OpenString | LineEnd | BlankRow | Equals | Comma | GroupStart | GroupEnd | TrueRule | FalseRule
    | NameRule | FloatRule | IntegerRule | Integer64Rule | HexRule | Hex64Rule | ArrayStart | ArrayEnd | ListStart
    | ListEnd | End | Comment | Other

  // With what must stand behind it: one character for a row of blanks and for a comment.
  function Pattern(r: Rule): Regex {
    match r
    case OpenComment => Then(One('/'), One('*'))
    case OpenString => One('\"')
    case LineEnd => Or(One('\n'), Either('\r', FORMFEED))
    case BlankRow => Then(Plus(Either(' ', '\t')), NoneOf("@"))
    case Equals => Either('=', ':')
    case Comma => One(',')
    case GroupStart => One('{')
    case GroupEnd => One('}')
    case TrueRule => TrueWord()
    case FalseRule => FalseWord()
    case NameRule => NameWord()
    case FloatRule => FloatWord()
    case IntegerRule => IntegerWord()
    case Integer64Rule => Then(IntegerWord(), LongPart())
    case HexRule => HexWord()
    case Hex64Rule => Then(HexWord(), LongPart())
    case ArrayStart => One('[')
    case ArrayEnd => One(']')
    case ListStart => One('(')
    case ListEnd => One(')')
    case End => One(';')
    case Comment => Then(CommentLine(), One('\n'))
    case Other => NoneOf("\n")
  }

  // Their order in the file.
  function Rank(r: Rule): nat {
    match r
    case OpenComment => 0 case OpenString => 1 case LineEnd => 2 case BlankRow => 3 case Equals => 4 case Comma => 5
    case GroupStart => 6 case GroupEnd => 7 case TrueRule => 8 case FalseRule => 9 case NameRule => 10
    case FloatRule => 11 case IntegerRule => 12 case Integer64Rule => 13 case HexRule => 14 case Hex64Rule => 15
    case ArrayStart => 16 case ArrayEnd => 17 case ListStart => 18 case ListEnd => 19 case End => 20 case Comment => 21
    case Other => 22
  }

  // The rule that is used on a text: none matches more of it, and none before it as much.
  ghost predicate Takes(t: string, r: Rule, n: nat) {
    && 0 < n <= |t| && Matches(Pattern(r), t[..n])
    && forall q, m :: 0 < m <= |t| && Matches(Pattern(q), t[..m]) ==> m < n || (m == n && Rank(r) <= Rank(q))
  }

  // ---------- classes of characters ----------

  lemma {:induction false} HexClass(c: char)
    ensures Matches(HexDig(), [c]) <==> In(Hexadecimal, c)
  {
    hide Matches;
    OrIs(Dig(), Or(Range('A', 'F'), Range('a', 'f')), [c]);
    OrIs(Range('A', 'F'), Range('a', 'f'), [c]);
    RangeIs('0', '9', [c]);
    RangeIs('A', 'F', [c]);
    RangeIs('a', 'f', [c]);
  }

  lemma {:induction false} LetterClass(c: char)
    ensures Matches(Letter(), [c]) <==> IsAlpha(c)
    ensures Matches(NameHead(), [c]) <==> NameStart(c)
  {
    hide Matches;
    OrIs(Range('A', 'Z'), Range('a', 'z'), [c]);
    RangeIs('A', 'Z', [c]);
    RangeIs('a', 'z', [c]);
    OrIs(Letter(), One('*'), [c]);
    RangeIs('*', '*', [c]);
  }

  lemma {:induction false} NameClass(c: char)
    ensures Matches(NameRest(), [c]) <==> In(NameTail, c)
  {
    hide Matches;
    LetterClass(c);
    OrIs(One('-'), Or(Letter(), Or(Dig(), Or(One('_'), One('*')))), [c]);
    OrIs(Letter(), Or(Dig(), Or(One('_'), One('*'))), [c]);
    OrIs(Dig(), Or(One('_'), One('*')), [c]);
    OrIs(One('_'), One('*'), [c]);
    RangeIs('-', '-', [c]);
    RangeIs('0', '9', [c]);
    RangeIs('_', '_', [c]);
    RangeIs('*', '*', [c]);
  }

  lemma {:induction false} BlankClass(c: char)
    ensures Matches(Either(' ', '\t'), [c]) <==> In(Blank, c)
    ensures Matches(NoneOf("\n"), [c]) <==> In(NotNewline, c)
    ensures Matches(Dig(), [c]) <==> In(Decimal, c)
  {
    assert c in "\n" <==> c == '\n';
  }

  lemma {:induction false} Classes()
    ensures ClassOf(Dig(), Decimal) && ClassOf(HexDig(), Hexadecimal) && ClassOf(NameRest(), NameTail)
    ensures ClassOf(Either(' ', '\t'), Blank) && ClassOf(NoneOf("\n"), NotNewline)
  {
    hide Matches;
    hide In;
    forall c
      ensures Matches(HexDig(), [c]) <==> In(Hexadecimal, c)
      ensures Matches(NameRest(), [c]) <==> In(NameTail, c)
      ensures Matches(Either(' ', '\t'), [c]) <==> In(Blank, c)
      ensures Matches(NoneOf("\n"), [c]) <==> In(NotNewline, c)
      ensures Matches(Dig(), [c]) <==> In(Decimal, c)
    {
      HexClass(c);
      NameClass(c);
      BlankClass(c);
    }
    SinglesAre();
  }

  lemma SinglesAre()
    ensures Single(Dig()) && Single(HexDig()) && Single(NameRest()) && Single(NameHead()) && Single(Letter())
    ensures Single(Either(' ', '\t')) && Single(NoneOf("\n"))
  {
    assert Single(Or(Range('A', 'F'), Range('a', 'f')));
    assert Single(Or(Dig(), Or(One('_'), One('*'))));
    assert Single(Or(Letter(), Or(Dig(), Or(One('_'), One('*')))));
  }

  // ---------- the texts of the rules ----------

  lemma {:induction false} SignIs(x: string)
    ensures Matches(SignPart(), x) <==> x == [] || (|x| == 1 && (x[0] == '-' || x[0] == '+'))
  {
    hide Matches;
    MaybeIs(Either('-', '+'), x);
    EitherIs('-', '+', x);
  }

  predicate IsSign(c: char) {
    c == '-' || c == '+'
  }

  lemma {:induction false} NoSignIsDigit(c: char)
    ensures IsSign(c) ==> !In(Decimal, c)
  {
  }

  lemma {:induction false} IntegerIs(s: string)
    ensures Matches(IntegerWord(), s) <==> |s| > Sign(s) && All(Decimal, s[Sign(s)..])
  {
    hide Matches;
    hide In;
    Classes();
    var k := Sign(s);
    if Matches(IntegerWord(), s) {
      var i := Split(SignPart(), Plus(Dig()), s);
      SignIs(s[..i]);
      SomeIn(Dig(), Decimal, s[i..]);
      assert s[i] == s[i..][0];
      NoSignIsDigit(s[i]);
      assert i == 1 ==> s[..1][0] == s[0];
    }
    if |s| > k && All(Decimal, s[k..]) {
      SignIs(s[..k]);
      SomeIn(Dig(), Decimal, s[k..]);
      assert s == s[..k] + s[k..];
      Joined(SignPart(), Plus(Dig()), s[..k], s[k..]);
    }
  }

  lemma SignOfFront(t: string, m: nat)
    requires 0 < m <= |t|
    ensures Sign(t[..m]) == Sign(t)
  {
  }

  lemma {:induction false} IntegerFronts(t: string)
    ensures Fronts(IntegerWord(), t, Sign(t), Sign(t) + Span(Decimal, t[Sign(t)..]))
  {
    hide Matches;
    hide In;
    var k := Sign(t);
    forall m | 0 <= m <= |t|
      ensures Matches(IntegerWord(), t[..m]) <==> k < m <= k + Span(Decimal, t[k..])
    {
      IntegerIs(t[..m]);
      if m > 0 { SignOfFront(t, m); }
      if m > k { SpanAfter(Decimal, t, k, m); }
    }
  }

  lemma {:induction false} HexIs(s: string)
    ensures Matches(HexWord(), s) <==>
      |s| > 2 && s[0] == '0' && (s[1] == 'x' || s[1] == 'X') && All(Hexadecimal, s[2..])
  {
    hide Matches;
    hide In;
    Classes();
    var tail := Then(Either('X', 'x'), Plus(HexDig()));
    if Matches(HexWord(), s) {
      var i := Split(One('0'), tail, s);
      RangeIs('0', '0', s[..i]);
      var j := Split(Either('X', 'x'), Plus(HexDig()), s[i..]);
      EitherIs('X', 'x', s[i..][..j]);
      SomeIn(HexDig(), Hexadecimal, s[i..][j..]);
      assert s[i..][j..] == s[2..] && s[i..][..j][0] == s[1] && s[..i][0] == s[0];
    }
    if |s| > 2 && s[0] == '0' && (s[1] == 'x' || s[1] == 'X') && All(Hexadecimal, s[2..]) {
      assert s == s[..1] + (s[1..2] + s[2..]);
      RangeIs('0', '0', s[..1]);
      EitherIs('X', 'x', s[1..2]);
      SomeIn(HexDig(), Hexadecimal, s[2..]);
      Joined(Either('X', 'x'), Plus(HexDig()), s[1..2], s[2..]);
      Joined(One('0'), tail, s[..1], s[1..2] + s[2..]);
    }
  }

  predicate HexFront(t: string) {
    |t| >= 2 && t[0] == '0' && (t[1] == 'x' || t[1] == 'X')
  }

  lemma {:induction false} HexFronts(t: string)
    ensures Fronts(HexWord(), t, 2, if HexFront(t) then 2 + Span(Hexadecimal, t[2..]) else 0)
  {
    hide Matches;
    hide In;
    forall m | 0 <= m <= |t|
      ensures Matches(HexWord(), t[..m]) <==> HexFront(t) && 2 < m <= 2 + Span(Hexadecimal, t[2..])
    {
      HexIs(t[..m]);
      if m > 2 { SpanAfter(Hexadecimal, t, 2, m); }
    }
  }

  // L or LL.
  lemma {:induction false} LongIs(s: string)
    ensures Matches(LongPart(), s) <==> s == "L" || s == "LL"
  {
    hide Matches;
    if Matches(LongPart(), s) {
      var i := Split(One('L'), Maybe(One('L')), s);
      RangeIs('L', 'L', s[..i]);
      MaybeIs(One('L'), s[i..]);
      RangeIs('L', 'L', s[i..]);
      assert s == s[..i] + s[i..];
    }
    RangeIs('L', 'L', "L");
    MaybeIs(One('L'), "L");
    MaybeIs(One('L'), "");
    Joined(One('L'), Maybe(One('L')), "L", "");
    Joined(One('L'), Maybe(One('L')), "L", "L");
    assert "L" + "" == "L" && "L" + "L" == "LL";
  }

  lemma {:induction false} LongAt(t: string, lo: nat, hi: nat)
    requires lo <= hi <= |t|
    ensures Matches(LongPart(), t[lo..hi]) <==>
      (hi == lo + 1 && t[lo] == 'L') || (hi == lo + 2 && t[lo] == 'L' && t[lo + 1] == 'L')
  {
    hide Matches;
    LongIs(t[lo..hi]);
    if t[lo..hi] == "L" || t[lo..hi] == "LL" {
      assert t[lo..hi][0] == t[lo];
      assert |t[lo..hi]| == 2 ==> t[lo..hi][1] == t[lo + 1];
    }
  }

  // Behind the longest front, if no shorter one is followed by an L.
  lemma {:induction false} LongBest(a: Regex, t: string, lo: nat, hi: nat)
    requires Fronts(a, t, lo, hi) && forall i :: lo < i < hi ==> t[i] != 'L'
    ensures Best(Then(a, LongPart()), t, LongLength(t, if hi > lo then hi else 0))
  {
    hide Matches;
    hide Fronts;
    var n := LongLength(t, if hi > lo then hi else 0);
    FrontsFit(a, t, lo, hi);
    forall m | 0 < m <= |t| && Matches(Then(a, LongPart()), t[..m])
      ensures 0 < n && m <= n
    {
      assert t[..m] == t[0..m];
      var i := SplitIn(a, LongPart(), t, 0, m);
      FrontIs(a, t, lo, hi, i);
      LongAt(t, i, m);
    }
    if n > 0 {
      FrontIs(a, t, lo, hi, hi);
      LongAt(t, hi, n);
      JoinIn(a, LongPart(), t, 0, hi, n);
      assert t[..n] == t[0..n];
    }
  }

  lemma FrontsFit(a: Regex, t: string, lo: nat, hi: nat)
    requires Fronts(a, t, lo, hi)
    ensures hi <= |t|
  {
    hide Matches;
  }

  lemma {:induction false} FrontIs(a: Regex, t: string, lo: nat, hi: nat, m: nat)
    requires Fronts(a, t, lo, hi) && m <= |t|
    ensures Matches(a, t[0..m]) <==> lo < m <= hi
  {
    hide Matches;
    assert t[0..m] == t[..m];
  }

  lemma {:induction false} NumberRules(t: string)
    ensures Best(IntegerWord(), t, IntegerLength(t))
    ensures Best(Then(IntegerWord(), LongPart()), t, LongLength(t, IntegerLength(t)))
    ensures Best(HexWord(), t, HexLength(t)) && Best(Then(HexWord(), LongPart()), t, LongLength(t, HexLength(t)))
  {
    hide Matches;
    hide Best;
    hide Fronts;
    var k, d := Sign(t), Span(Decimal, t[Sign(t)..]);
    IntegerFronts(t);
    FrontsBest(IntegerWord(), t, k, k + d);
    forall i | k < i < k + d
      ensures t[i] != 'L'
    {
      assert t[k..][i - k] == t[i];
    }
    LongBest(IntegerWord(), t, k, k + d);
    var h := if HexFront(t) then 2 + Span(Hexadecimal, t[2..]) else 0;
    HexFronts(t);
    FrontsBest(HexWord(), t, 2, h);
    forall i | 2 < i < h
      ensures t[i] != 'L'
    {
      assert t[2..][i - 2] == t[i];
    }
    LongBest(HexWord(), t, 2, h);
  }

  lemma {:induction false} DigitsAt(t: string, lo: nat, hi: nat)
    requires lo <= hi <= |t|
    ensures Matches(Many(Dig()), t[lo..hi]) <==> AllIn(Decimal, t, lo, hi)
    ensures Matches(Plus(Dig()), t[lo..hi]) <==> lo < hi && AllIn(Decimal, t, lo, hi)
  {
    hide Matches;
    hide In;
    Classes();
    ManyIn(Dig(), Decimal, t[lo..hi]);
    SomeIn(Dig(), Decimal, t[lo..hi]);
    PartIn(Decimal, t, lo, hi);
  }

  // ---------- floating-point numbers ----------

  lemma {:induction false} BestExponent(t: string)
    ensures Best(ExponentPart(), t, ExponentLength(t))
  {
    hide Matches;
    hide IntegerLength;
    forall m | 0 < m <= |t| && Matches(ExponentPart(), t[..m])
      ensures 0 < ExponentLength(t) && m <= ExponentLength(t)
    {
      var i := Split(Either('e', 'E'), IntegerWord(), t[..m]);
      EitherIs('e', 'E', t[..m][..i]);
      assert t[..m][..i][0] == t[0] && t[..m][i..] == t[1..][..m - 1];
      IntegerIs(t[..m][i..]);
      NumberRules(t[1..]);
    }
    if ExponentLength(t) > 0 {
      var n := IntegerLength(t[1..]);
      NumberRules(t[1..]);
      EitherIs('e', 'E', t[..1]);
      assert t[..1 + n] == t[..1] + t[1..][..n];
      Joined(Either('e', 'E'), IntegerWord(), t[..1], t[1..][..n]);
    }
  }

  lemma {:induction false} ExponentAt(t: string, lo: nat, hi: nat)
    requires lo <= hi <= |t|
    ensures Matches(ExponentPart(), t[lo..hi]) ==> lo < hi <= lo + ExponentLength(t[lo..]) && (t[lo] == 'e' || t[lo] == 'E')
    ensures lo < hi == lo + ExponentLength(t[lo..]) ==> Matches(ExponentPart(), t[lo..hi])
  {
    hide Matches;
    hide ExponentLength;
    BestExponent(t[lo..]);
    assert t[lo..][..hi - lo] == t[lo..hi];
    if Matches(ExponentPart(), t[lo..hi]) {
      var i := SplitIn(Either('e', 'E'), IntegerWord(), t, lo, hi);
      EitherAt('e', 'E', t, lo, i);
    }
  }

  lemma ExponentFits(t: string, lo: nat)
    requires lo <= |t|
    ensures lo + ExponentLength(t[lo..]) <= |t|
  {
    hide Matches;
    BestExponent(t[lo..]);
  }

  // Where the sign and the digits in front end.
  lemma {:induction false} MiddleIs(t: string, a: nat, b: nat)
    requires a <= b < |t| && Matches(SignPart(), t[0..a]) && AllIn(Decimal, t, a, b) && !In(Decimal, t[b])
    requires a == b ==> !IsSign(t[b])
    ensures a == Sign(t) && b == Middle(t)
  {
    hide Matches;
    hide In;
    SignIs(t[0..a]);
    if a == 0 && b > 0 { NoSignIsDigit(t[0]); }
    SpanAt(Decimal, t, a, b);
  }

  lemma OtherChars()
    ensures !In(Decimal, '.') && !In(Decimal, 'e') && !In(Decimal, 'E')
    ensures !IsSign('.') && !IsSign('e') && !IsSign('E')
  {
  }

  // What a point, digits and perhaps an exponent take up at most.
  lemma {:induction false} TailAtMost(t: string, b: nat, c: nat, m: nat)
    requires b < c <= m <= |t| && t[b] == '.' && AllIn(Decimal, t, b + 1, c)
    requires m == c || Matches(ExponentPart(), t[c..m])
    ensures m <= b + Tail(t, b)
  {
    hide Matches;
    hide In;
    hide ExponentLength;
    ExponentAt(t, c, m);
    OtherChars();
    SpanAt(Decimal, t, b + 1, c);
  }

  function Dotted(): Regex {
    Then(One('.'), Many(Dig()))
  }

  function DottedMaybe(): Regex {
    Then(One('.'), Then(Many(Dig()), Maybe(ExponentPart())))
  }

  lemma {:induction false} PointAtMost(t: string, m: nat)
    requires 0 < m <= |t| && Matches(PointWord(), t[0..m])
    ensures Middle(t) < |t| && t[Middle(t)] == '.' && m <= Middle(t) + Tail(t, Middle(t))
  {
    hide Matches;
    hide In;
    hide Tail;
    hide Middle;
    var a := SplitIn(SignPart(), Then(Many(Dig()), DottedMaybe()), t, 0, m);
    var b := SplitIn(Many(Dig()), DottedMaybe(), t, a, m);
    var d := SplitIn(One('.'), Then(Many(Dig()), Maybe(ExponentPart())), t, b, m);
    var c := SplitIn(Many(Dig()), Maybe(ExponentPart()), t, d, m);
    DigitsAt(t, a, b);
    OneAt('.', t, b, d);
    DigitsAt(t, d, c);
    MaybeIs(ExponentPart(), t[c..m]);
    OtherChars();
    MiddleIs(t, a, b);
    TailAtMost(t, b, c, m);
  }

  lemma {:induction false} ExponentAtMost(t: string, m: nat)
    requires 0 < m <= |t| && Matches(ExponentWord(), t[0..m])
    ensures 0 < m <= FloatLength(t)
  {
    hide Matches;
    hide In;
    hide Middle;
    hide ExponentLength;
    var a := SplitIn(SignPart(), Then(Plus(Dig()), Then(Maybe(Dotted()), ExponentPart())), t, 0, m);
    var b := SplitIn(Plus(Dig()), Then(Maybe(Dotted()), ExponentPart()), t, a, m);
    var c := SplitIn(Maybe(Dotted()), ExponentPart(), t, b, m);
    DigitsAt(t, a, b);
    MaybeIs(Dotted(), t[b..c]);
    ExponentAt(t, c, m);
    OtherChars();
    if b == c {
      MiddleIs(t, a, b);
    } else {
      var d := SplitIn(One('.'), Many(Dig()), t, b, c);
      OneAt('.', t, b, d);
      DigitsAt(t, d, c);
      MiddleIs(t, a, b);
      TailAtMost(t, b, c, m);
    }
  }

  lemma {:induction false} FloatMatches(t: string)
    requires FloatLength(t) > 0
    ensures FloatLength(t) <= |t| && Matches(FloatWord(), t[0..FloatLength(t)])
  {
    hide Matches;
    hide In;
    hide ExponentLength;
    var k, g := Sign(t), Middle(t);
    SignIs(t[0..k]);
    SpanAt(Decimal, t, k, g);
    DigitsAt(t, k, g);
    if t[g] == '.' {
      PointMatches(t, k, g);
    } else {
      ExponentMatches(t, k, g);
    }
    OrIs(PointWord(), ExponentWord(), t[0..FloatLength(t)]);
  }

  lemma {:induction false} PointMatches(t: string, k: nat, g: nat)
    requires k <= g < |t| && Matches(SignPart(), t[0..k]) && Matches(Many(Dig()), t[k..g]) && t[g] == '.'
    ensures g + Tail(t, g) <= |t| && Matches(PointWord(), t[0..g + Tail(t, g)])
  {
    hide Matches;
    hide Tail;
    var f := g + Tail(t, g);
    DotMatches(t, g);
    JoinIn(Many(Dig()), DottedMaybe(), t, k, g, f);
    JoinIn(SignPart(), Then(Many(Dig()), DottedMaybe()), t, 0, k, f);
  }

  lemma {:induction false} DotMatches(t: string, g: nat)
    requires g < |t| && t[g] == '.'
    ensures g + Tail(t, g) <= |t| && Matches(DottedMaybe(), t[g..g + Tail(t, g)])
  {
    hide Matches;
    hide In;
    hide ExponentLength;
    var c := g + 1 + Span(Decimal, t[g + 1..]);
    var f := c + ExponentLength(t[c..]);
    ExponentFits(t, c);
    ExponentAt(t, c, f);
    MaybeIs(ExponentPart(), t[c..f]);
    SpanAt(Decimal, t, g + 1, c);
    DigitsAt(t, g + 1, c);
    OneAt('.', t, g, g + 1);
    JoinIn(Many(Dig()), Maybe(ExponentPart()), t, g + 1, c, f);
    JoinIn(One('.'), Then(Many(Dig()), Maybe(ExponentPart())), t, g, g + 1, f);
  }

  lemma {:induction false} ExponentMatches(t: string, k: nat, g: nat)
    requires k < g < |t| && Matches(SignPart(), t[0..k]) && Matches(Plus(Dig()), t[k..g]) && ExponentLength(t[g..]) > 0
    ensures g + ExponentLength(t[g..]) <= |t| && Matches(ExponentWord(), t[0..g + ExponentLength(t[g..])])
  {
    hide Matches;
    hide In;
    hide ExponentLength;
    var f := g + ExponentLength(t[g..]);
    ExponentFits(t, g);
    ExponentAt(t, g, f);
    MaybeIs(Dotted(), t[g..g]);
    JoinIn(Maybe(Dotted()), ExponentPart(), t, g, g, f);
    JoinIn(Plus(Dig()), Then(Maybe(Dotted()), ExponentPart()), t, k, g, f);
    JoinIn(SignPart(), Then(Plus(Dig()), Then(Maybe(Dotted()), ExponentPart())), t, 0, k, f);
  }

  lemma {:induction false} BestFloat(t: string)
    ensures Best(FloatWord(), t, FloatLength(t))
  {
    hide Matches;
    hide Middle;
    hide Tail;
    if FloatLength(t) > 0 {
      FloatMatches(t);
      assert t[0..FloatLength(t)] == t[..FloatLength(t)];
    }
    forall m | 0 < m <= |t| && Matches(FloatWord(), t[..m])
      ensures m <= FloatLength(t)
    {
      assert t[0..m] == t[..m];
      OrIs(PointWord(), ExponentWord(), t[..m]);
      if Matches(PointWord(), t[..m]) { PointAtMost(t, m); } else { ExponentAtMost(t, m); }
    }
  }

  // ---------- words, comments and blanks ----------

  // The word true in any mixture of cases, letter by letter, and false.
  lemma {:induction false} TrueIs(s: string)
    ensures Matches(TrueWord(), s) <==>
      |s| == 4 && s[0] in {'T', 't'} && s[1] in {'R', 'r'} && s[2] in {'U', 'u'} && s[3] in {'E', 'e'}
    ensures SameWord(s, "true") <==> Matches(TrueWord(), s)
  {
    hide Matches;
    var u := Then(Either('U', 'u'), Either('E', 'e'));
    var r := Then(Either('R', 'r'), u);
    assert s == s[0..|s|];
    if |s| == 4 {
      EitherAt('T', 't', s, 0, 1);
      EitherAt('R', 'r', s, 1, 2);
      EitherAt('U', 'u', s, 2, 3);
      EitherAt('E', 'e', s, 3, 4);
      if s[0] in {'T', 't'} && s[1] in {'R', 'r'} && s[2] in {'U', 'u'} && s[3] in {'E', 'e'} {
        JoinIn(Either('U', 'u'), Either('E', 'e'), s, 2, 3, 4);
        JoinIn(Either('R', 'r'), u, s, 1, 2, 4);
        JoinIn(Either('T', 't'), r, s, 0, 1, 4);
      }
    }
    if Matches(TrueWord(), s) {
      var i := SplitIn(Either('T', 't'), r, s, 0, |s|);
      EitherAt('T', 't', s, 0, i);
      var j := SplitIn(Either('R', 'r'), u, s, i, |s|);
      EitherAt('R', 'r', s, i, j);
      var k := SplitIn(Either('U', 'u'), Either('E', 'e'), s, j, |s|);
      EitherAt('U', 'u', s, j, k);
      EitherAt('E', 'e', s, k, |s|);
    }
  }

  lemma {:induction false} FalseIs(s: string)
    ensures Matches(FalseWord(), s) <==>
      |s| == 5 && s[0] in {'F', 'f'} && s[1] in {'A', 'a'} && s[2] in {'L', 'l'} && s[3] in {'S', 's'} && s[4] in {'E', 'e'}
    ensures SameWord(s, "false") <==> Matches(FalseWord(), s)
  {
    hide Matches;
    var e := Then(Either('S', 's'), Either('E', 'e'));
    var l := Then(Either('L', 'l'), e);
    var a := Then(Either('A', 'a'), l);
    assert s == s[0..|s|];
    if |s| == 5 {
      EitherAt('F', 'f', s, 0, 1);
      EitherAt('A', 'a', s, 1, 2);
      EitherAt('L', 'l', s, 2, 3);
      EitherAt('S', 's', s, 3, 4);
      EitherAt('E', 'e', s, 4, 5);
      if s[0] in {'F', 'f'} && s[1] in {'A', 'a'} && s[2] in {'L', 'l'} && s[3] in {'S', 's'} && s[4] in {'E', 'e'} {
        JoinIn(Either('S', 's'), Either('E', 'e'), s, 3, 4, 5);
        JoinIn(Either('L', 'l'), e, s, 2, 3, 5);
        JoinIn(Either('A', 'a'), l, s, 1, 2, 5);
        JoinIn(Either('F', 'f'), a, s, 0, 1, 5);
      }
    }
    if Matches(FalseWord(), s) {
      var i := SplitIn(Either('F', 'f'), a, s, 0, |s|);
      EitherAt('F', 'f', s, 0, i);
      var j := SplitIn(Either('A', 'a'), l, s, i, |s|);
      EitherAt('A', 'a', s, i, j);
      var k := SplitIn(Either('L', 'l'), e, s, j, |s|);
      EitherAt('L', 'l', s, j, k);
      var m := SplitIn(Either('S', 's'), Either('E', 'e'), s, k, |s|);
      EitherAt('S', 's', s, k, m);
      EitherAt('E', 'e', s, m, |s|);
    }
  }

  function WordLength(t: string, word: string): nat {
    if |t| >= |word| && SameWord(t[..|word|], word) then |word| else 0
  }

  lemma {:induction false} BestWords(t: string)
    ensures Best(TrueWord(), t, WordLength(t, "true")) && Best(FalseWord(), t, WordLength(t, "false"))
  {
    hide Matches;
    hide SameWord;
    forall m | 0 <= m <= |t|
      ensures Matches(TrueWord(), t[..m]) <==> m == 4 && SameWord(t[..4], "true")
      ensures Matches(FalseWord(), t[..m]) <==> m == 5 && SameWord(t[..5], "false")
    {
      TrueIs(t[..m]);
      FalseIs(t[..m]);
    }
  }

  function NameLength(t: string): nat {
    if t != [] && NameStart(t[0]) then Span(NameTail, t) else 0
  }

  lemma {:induction false} BestName(t: string)
    ensures Best(NameWord(), t, NameLength(t))
  {
    hide Matches;
    hide In;
    hide IsAlpha;
    Classes();
    if t != [] { StartIsTail(t[0]); }
    forall m | 0 <= m <= |t|
      ensures Matches(NameWord(), t[..m]) <==> 0 < m <= NameLength(t)
    {
      assert t[..m] == t[0..m];
      SpanAt(NameTail, t, 0, m);
      assert t[0..] == t;
      if Matches(NameWord(), t[..m]) {
        var i := SplitIn(NameHead(), Many(NameRest()), t, 0, m);
        HeadAt(t, i);
        ManyIn(NameRest(), NameTail, t[i..m]);
        PartIn(NameTail, t, i, m);
      }
      if 0 < m <= NameLength(t) {
        HeadAt(t, 1);
        ManyIn(NameRest(), NameTail, t[1..m]);
        PartIn(NameTail, t, 1, m);
        JoinIn(NameHead(), Many(NameRest()), t, 0, 1, m);
      }
    }
  }

  lemma StartIsTail(c: char)
    ensures NameStart(c) ==> In(NameTail, c)
  {
  }

  lemma {:induction false} HeadAt(t: string, i: nat)
    requires i <= |t|
    ensures Matches(NameHead(), t[0..i]) <==> i == 1 && NameStart(t[0])
  {
    hide Matches;
    SinglesAre();
    if Matches(NameHead(), t[0..i]) { SingleIs(NameHead(), t[0..i]); }
    if i == 1 {
      assert t[0..1] == [t[0]];
      LetterClass(t[0]);
    }
  }

  function BlankLength(t: string): nat {
    var n := Span(Blank, t);
    if n == 0 then 0 else if n < |t| && t[n] != '@' then n + 1 else if n >= 2 then n else 0
  }

  lemma {:induction false} BestBlanks(t: string)
    ensures Best(Pattern(BlankRow), t, BlankLength(t))
  {
    hide Matches;
    hide In;
    Classes();
    var blank := Either(' ', '\t');
    assert t[0..] == t;
    BlankIsNoAt(t);
    forall m | 0 <= m <= |t|
      ensures Matches(Pattern(BlankRow), t[..m]) <==> 2 <= m <= Span(Blank, t) + 1 && t[m - 1] != '@'
    {
      assert t[..m] == t[0..m];
      if Matches(Pattern(BlankRow), t[..m]) {
        var i := SplitIn(Plus(blank), NoneOf("@"), t, 0, m);
        NoneAt('@', t, i, m);
        SomeIn(blank, Blank, t[0..i]);
        PartIn(Blank, t, 0, i);
        SpanAt(Blank, t, 0, i);
      }
      if 2 <= m <= Span(Blank, t) + 1 && t[m - 1] != '@' {
        NoneAt('@', t, m - 1, m);
        SpanAt(Blank, t, 0, m - 1);
        PartIn(Blank, t, 0, m - 1);
        SomeIn(blank, Blank, t[0..m - 1]);
        JoinIn(Plus(blank), NoneOf("@"), t, 0, m - 1, m);
      }
    }
  }

  lemma BlankIsNoAt(t: string)
    ensures forall i :: 0 <= i < Span(Blank, t) ==> t[i] != '@'
  {
    hide Span;
  }

  predicate CommentHead(t: string) {
    t != [] && (t[0] == '#' || (|t| >= 2 && t[0] == '/' && t[1] == '/'))
  }

  function CommentLength(t: string): nat {
    var n := Span(NotNewline, t);
    if CommentHead(t) && n < |t| then n + 1 else 0
  }

  lemma {:induction false} BestComment(t: string)
    ensures Best(Pattern(Comment), t, CommentLength(t))
  {
    hide Matches;
    forall m | 0 <= m <= |t|
      ensures Matches(Pattern(Comment), t[..m]) <==> 0 < m == CommentLength(t)
    {
      CommentFront(t, m);
    }
  }

  lemma {:induction false} CommentFront(t: string, m: nat)
    requires m <= |t|
    ensures Matches(Pattern(Comment), t[..m]) <==> 0 < m == CommentLength(t)
  {
    hide Matches;
    hide CommentLength;
    assert t[..m] == t[0..m];
    if Matches(Pattern(Comment), t[0..m]) { CommentEndsAt(t, m); }
    if 0 < m == CommentLength(t) { CommentMatches(t); }
  }

  lemma {:induction false} CommentEndsAt(t: string, m: nat)
    requires m <= |t| && Matches(Pattern(Comment), t[0..m])
    ensures 0 < m == CommentLength(t)
  {
    hide Matches;
    hide In;
    HeadChars();
    var head := Or(One('#'), Then(One('/'), One('/')));
    assert t[0..] == t;
    var k := SplitIn(CommentLine(), One('\n'), t, 0, m);
    OneAt('\n', t, k, m);
    var i := SplitIn(head, Many(NoneOf("\n")), t, 0, k);
    CommentHeadAt(t, i);
    LineAt(t, i, k);
    assert AllIn(NotNewline, t, 0, k);
    SpanAt(NotNewline, t, 0, k);
  }

  lemma {:induction false} LineAt(t: string, lo: nat, hi: nat)
    requires lo <= hi <= |t|
    ensures Matches(Many(NoneOf("\n")), t[lo..hi]) <==> AllIn(NotNewline, t, lo, hi)
  {
    hide Matches;
    hide In;
    Classes();
    ManyIn(NoneOf("\n"), NotNewline, t[lo..hi]);
    PartIn(NotNewline, t, lo, hi);
  }

  lemma {:induction false} CommentMatches(t: string)
    requires CommentLength(t) > 0
    ensures CommentLength(t) <= |t| && Matches(Pattern(Comment), t[0..CommentLength(t)])
  {
    hide Matches;
    hide In;
    var m, i := CommentLength(t), if t[0] == '#' then 1 else 2;
    assert t[0..] == t;
    NewlineAt(t);
    OneAt('\n', t, m - 1, m);
    CommentHeadAt(t, i);
    SpanAt(NotNewline, t, 0, m - 1);
    SpanPast(t, i);
    LineAt(t, i, m - 1);
    JoinIn(Or(One('#'), Then(One('/'), One('/'))), Many(NoneOf("\n")), t, 0, i, m - 1);
    JoinIn(CommentLine(), One('\n'), t, 0, m - 1, m);
  }

  lemma NewlineAt(t: string)
    ensures Span(NotNewline, t) < |t| ==> t[Span(NotNewline, t)] == '\n'
  {
  }

  lemma SpanPast(t: string, i: nat)
    requires i <= |t| && forall j :: 0 <= j < i ==> t[j] != '\n'
    ensures i <= Span(NotNewline, t)
  {
  }

  lemma HeadChars()
    ensures In(NotNewline, '#') && In(NotNewline, '/') && !In(NotNewline, '\n')
  {
  }

  lemma {:induction false} CommentHeadAt(t: string, i: nat)
    requires i <= |t|
    ensures Matches(Or(One('#'), Then(One('/'), One('/'))), t[0..i]) <==>
      (i == 1 && t[0] == '#') || (i == 2 && t[0] == '/' && t[1] == '/')
  {
    hide Matches;
    OrIs(One('#'), Then(One('/'), One('/')), t[0..i]);
    OneAt('#', t, 0, i);
    SlashThen('/', t, i);
  }

  lemma {:induction false} SlashThen(c: char, t: string, i: nat)
    requires i <= |t|
    ensures Matches(Then(One('/'), One(c)), t[0..i]) <==> i == 2 && t[0] == '/' && t[1] == c
  {
    hide Matches;
    if Matches(Then(One('/'), One(c)), t[0..i]) {
      var j := SplitIn(One('/'), One(c), t, 0, i);
      OneAt('/', t, 0, j);
      OneAt(c, t, j, i);
    }
    if i == 2 && t[0] == '/' && t[1] == c {
      OneAt('/', t, 0, 1);
      OneAt(c, t, 1, 2);
      JoinIn(One('/'), One(c), t, 0, 1, 2);
    }
  }

  // ---------- the longest match ----------

  function BestLength(r: Rule, t: string): nat
    requires t != []
  {
    var c := t[0];
    match r
    case OpenComment => if |t| >= 2 && c == '/' && t[1] == '*' then 2 else 0
    case OpenString => if c == '\"' then 1 else 0
    case LineEnd => if c == '\n' || c == '\r' || c == FORMFEED then 1 else 0
    case BlankRow => BlankLength(t)
    case Equals => if c == '=' || c == ':' then 1 else 0
    case Comma => if c == ',' then 1 else 0
    case GroupStart => if c == '{' then 1 else 0
    case GroupEnd => if c == '}' then 1 else 0
    case TrueRule => WordLength(t, "true")
    case FalseRule => WordLength(t, "false")
    case NameRule => NameLength(t)
    case FloatRule => FloatLength(t)
    case IntegerRule => IntegerLength(t)
    case Integer64Rule => LongLength(t, IntegerLength(t))
    case HexRule => HexLength(t)
    case Hex64Rule => LongLength(t, HexLength(t))
    case ArrayStart => if c == '[' then 1 else 0
    case ArrayEnd => if c == ']' then 1 else 0
    case ListStart => if c == '(' then 1 else 0
    case ListEnd => if c == ')' then 1 else 0
    case End => if c == ';' then 1 else 0
    case Comment => CommentLength(t)
    case Other => if c != '\n' then 1 else 0
  }

  lemma {:induction false} BestOpen(t: string)
    requires t != []
    ensures Best(Pattern(OpenComment), t, BestLength(OpenComment, t))
  {
    hide Matches;
    forall m | 0 <= m <= |t|
      ensures Matches(Pattern(OpenComment), t[..m]) <==> 0 < m == BestLength(OpenComment, t)
    {
      assert t[..m] == t[0..m];
      SlashThen('*', t, m);
    }
  }

  lemma {:induction false} LineEndAt(t: string)
    requires t != []
    ensures Matches(Pattern(LineEnd), t[0..1]) <==> t[0] == '\n' || t[0] == '\r' || t[0] == FORMFEED
    ensures Single(Pattern(LineEnd))
  {
    hide Matches;
    OrIs(One('\n'), Either('\r', FORMFEED), t[0..1]);
    OneAt('\n', t, 0, 1);
    EitherAt('\r', FORMFEED, t, 0, 1);
    assert Single(Either('\r', FORMFEED));
  }

  lemma {:induction false} BestIs(r: Rule, t: string)
    requires t != []
    ensures Best(Pattern(r), t, BestLength(r, t))
  {
    hide Best;
    hide BestLength;
    hide Pattern;
    if r.TrueRule? || r.FalseRule? || r.NameRule? || r.FloatRule? || r.IntegerRule? || r.Integer64Rule? || r.HexRule?
       || r.Hex64Rule? {
      BestWordOrNumber(r, t);
    } else if r.OpenComment? || r.LineEnd? || r.BlankRow? || r.Equals? || r.Comment? || r.Other? {
      BestRow(r, t);
    } else if r.ArrayStart? || r.ArrayEnd? || r.ListStart? || r.ListEnd? || r.End? {
      BestBracket(r, t);
    } else {
      BestSign(r, t);
    }
  }

  lemma {:induction false} BestWordOrNumber(r: Rule, t: string)
    requires t != []
    requires r.TrueRule? || r.FalseRule? || r.NameRule? || r.FloatRule? || r.IntegerRule? || r.Integer64Rule?
             || r.HexRule? || r.Hex64Rule?
    ensures Best(Pattern(r), t, BestLength(r, t))
  {
    hide Matches;
    hide Best;
    hide BlankLength;
    hide WordLength;
    hide NameLength;
    hide FloatLength;
    hide IntegerLength;
    hide HexLength;
    hide LongLength;
    hide CommentLength;
    match r
    case TrueRule => BestWords(t);
    case FalseRule => BestWords(t);
    case NameRule => BestName(t);
    case FloatRule => BestFloat(t);
    case _ => NumberRules(t);
  }

  lemma {:induction false} BestRow(r: Rule, t: string)
    requires t != [] && (r.OpenComment? || r.LineEnd? || r.BlankRow? || r.Equals? || r.Comment? || r.Other?)
    ensures Best(Pattern(r), t, BestLength(r, t))
  {
    hide Matches;
    hide Best;
    hide BlankLength;
    hide WordLength;
    hide NameLength;
    hide FloatLength;
    hide IntegerLength;
    hide HexLength;
    hide LongLength;
    hide CommentLength;
    match r
    case OpenComment => BestOpen(t);
    case LineEnd => LineEndAt(t); BestSingle(Pattern(LineEnd), t);
    case BlankRow => BestBlanks(t);
    case Equals => EitherAt('=', ':', t, 0, 1); BestSingle(Either('=', ':'), t);
    case Comment => BestComment(t);
    case Other => NoneAt('\n', t, 0, 1); BestSingle(NoneOf("\n"), t);
  }

  lemma {:induction false} BestBracket(r: Rule, t: string)
    requires t != [] && (r.ArrayStart? || r.ArrayEnd? || r.ListStart? || r.ListEnd? || r.End?)
    ensures Best(Pattern(r), t, BestLength(r, t))
  {
    hide Matches;
    hide Best;
    hide BlankLength;
    hide WordLength;
    hide NameLength;
    hide FloatLength;
    hide IntegerLength;
    hide HexLength;
    hide LongLength;
    hide CommentLength;
    match r
    case ArrayStart => BestOne('[', t);
    case ArrayEnd => BestOne(']', t);
    case ListStart => BestOne('(', t);
    case ListEnd => BestOne(')', t);
    case End => BestOne(';', t);
  }

  lemma {:induction false} BestSign(r: Rule, t: string)
    requires t != [] && (r.OpenString? || r.Comma? || r.GroupStart? || r.GroupEnd?)
    ensures Best(Pattern(r), t, BestLength(r, t))
  {
    hide Matches;
    hide Best;
    hide BlankLength;
    hide WordLength;
    hide NameLength;
    hide FloatLength;
    hide IntegerLength;
    hide HexLength;
    hide LongLength;
    hide CommentLength;
    match r
    case OpenString => BestOne('\"', t);
    case Comma => BestOne(',', t);
    case GroupStart => BestOne('{', t);
    case GroupEnd => BestOne('}', t);
  }

  // What the rule used does with what it matched.
  function Done(t: string, r: Rule, n: nat): Lexeme
    requires 0 < n <= |t|
  {
    match r
    case OpenComment => Skip(2 + CommentEnd(From(t, 2)))
    case OpenString => (match Quoted(t[1..]) case Unclosed => Finished case Text(v, k) => Found(TokString(v), 1 + k))
    case LineEnd => Skip(n)
    case BlankRow => Skip(n - 1)
    case Equals => Found(TokEquals, n)
    case Comma => Found(TokComma, n)
    case GroupStart => Found(TokGroupStart, n)
    case GroupEnd => Found(TokGroupEnd, n)
    case TrueRule => Found(TokBoolean(1), n)
    case FalseRule => Found(TokBoolean(0), n)
    case NameRule => Found(TokName(t[..n]), n)
    case FloatRule => Found(TokFloat(t[..n]), n)
    case IntegerRule => Found(TokInteger(Signed(Clamped(Atoi(t[..n])), 0x1_0000_0000)), n)
    case Integer64Rule => Found(TokInteger64(Signed(Clamped(Atoi(t[..n])), 0x1_0000_0000_0000_0000)), n)
    case HexRule => Found(TokHex(Signed(ClampedHex(StrtoulHex(t[..n])), 0x1_0000_0000)), n)
    case Hex64Rule => Found(TokHex64(Signed(ClampedHex(StrtoulHex(t[..n])), 0x1_0000_0000_0000_0000)), n)
    case ArrayStart => Found(TokArrayStart, n)
    case ArrayEnd => Found(TokArrayEnd, n)
    case ListStart => Found(TokListStart, n)
    case ListEnd => Found(TokListEnd, n)
    case End => Found(TokEnd, n)
    case Comment => Skip(n - 1)
    case Other => Found(TokGarbage, n)
  }

  lemma {:induction false} Beats(t: string, r: Rule, n: nat, q: Rule)
    requires t != [] && Takes(t, r, n)
    ensures 0 < n == BestLength(r, t) && n <= |t|
    ensures BestLength(q, t) <= n && (BestLength(q, t) == n ==> Rank(r) <= Rank(q))
  {
    hide Matches;
    hide BestLength;
    hide Pattern;
    hide Rank;
    BestIs(r, t);
    BestIs(q, t);
  }

  // What a match of the longer rules begins with.
  predicate StartsNumber(c: char) {
    Digit(c, 10) || c == '-' || c == '+' || c == '.'
  }

  lemma {:induction false} NumberStarts(t: string)
    requires t != [] && !StartsNumber(t[0])
    ensures FloatLength(t) == IntegerLength(t) == HexLength(t) == 0
    ensures LongLength(t, IntegerLength(t)) == LongLength(t, HexLength(t)) == 0
  {
  }

  lemma {:induction false} WordStarts(t: string)
    requires t != [] && !NameStart(t[0])
    ensures WordLength(t, "true") == WordLength(t, "false") == NameLength(t) == 0
  {
  }

  lemma {:induction false} BlankStarts(t: string)
    requires t != [] && !In(Blank, t[0])
    ensures BlankLength(t) == 0
  {
  }

  // The scanner does what the rule does that takes the text: the longest match, and of those as
  // long the first rule.
  lemma {:induction false} LexIs(t: string, r: Rule, n: nat)
    requires t != [] && Takes(t, r, n) && !Lex(t).Outside?
    ensures Lex(t) == Done(t, r, n)
  {
    hide Takes;
    var c := t[0];
    if NameStart(c) {
      WordIs(t, r, n);
    } else if StartsNumber(c) {
      NumberIs(t, r, n);
    } else if In(Blank, c) {
      BlanksAre(t, r, n);
    } else if c == '/' || c == '#' {
      CommentIs(t, r, n);
    } else {
      SignIsTaken(t, r, n);
    }
  }

  lemma {:induction false} WordsAreNames(t: string)
    requires t != []
    ensures WordLength(t, "true") <= NameLength(t) && WordLength(t, "false") <= NameLength(t)
  {
    hide Span;
    assert t[0..] == t;
    if WordLength(t, "true") > 0 {
      TrueIs(t[..4]);
      assert AllIn(NameTail, t, 0, 4);
      SpanAt(NameTail, t, 0, 4);
    }
    if WordLength(t, "false") > 0 {
      FalseIs(t[..5]);
      assert AllIn(NameTail, t, 0, 5);
      SpanAt(NameTail, t, 0, 5);
    }
  }

  lemma {:induction false} OnlyWords(t: string, r: Rule)
    requires t != [] && NameStart(t[0]) && BestLength(r, t) > 0
    ensures r in {TrueRule, FalseRule, NameRule, Other}
  {
    hide WordLength;
    hide NameLength;
    hide FloatLength;
    hide IntegerLength;
    hide HexLength;
    hide LongLength;
    NumberStarts(t) by { assert !StartsNumber(t[0]); }
    BlankStarts(t);
  }

  lemma {:induction false} WordIs(t: string, r: Rule, n: nat)
    requires t != [] && Takes(t, r, n) && NameStart(t[0])
    ensures Lex(t) == Done(t, r, n)
  {
    hide Takes;
    hide Number;
    hide Quoted;
    hide Lower;
    StartIsTail(t[0]);
    Beats(t, r, n, TrueRule);
    Beats(t, r, n, FalseRule);
    Beats(t, r, n, NameRule);
    OnlyWords(t, r);
    WordsAreNames(t);
  }

  lemma {:induction false} OnlyNumbers(t: string, r: Rule)
    requires t != [] && StartsNumber(t[0]) && BestLength(r, t) > 0
    ensures r in {FloatRule, IntegerRule, Integer64Rule, HexRule, Hex64Rule, Other}
    ensures BestLength(Other, t) == 1
  {
    hide WordLength;
    hide NameLength;
    hide FloatLength;
    hide IntegerLength;
    hide HexLength;
    hide LongLength;
    WordStarts(t);
    BlankStarts(t);
  }

  lemma {:induction false} NumberLengths(t: string)
    requires t != []
    ensures BestLength(FloatRule, t) == FloatLength(t)
    ensures BestLength(IntegerRule, t) == IntegerLength(t) && BestLength(Integer64Rule, t) == LongLength(t, IntegerLength(t))
    ensures BestLength(HexRule, t) == HexLength(t) && BestLength(Hex64Rule, t) == LongLength(t, HexLength(t))
  {
    hide FloatLength;
    hide IntegerLength;
    hide HexLength;
    hide LongLength;
  }

  lemma {:induction false} LexNumber(t: string)
    requires t != [] && StartsNumber(t[0])
    ensures Lex(t) == Number(t)
  {
    hide Number;
    hide Quoted;
    hide Word;
    hide Blanks;
  }

  lemma {:induction false} NumberIs(t: string, r: Rule, n: nat)
    requires t != [] && Takes(t, r, n) && StartsNumber(t[0])
    ensures Lex(t) == Done(t, r, n)
  {
    hide Lex;
    hide BestLength;
    hide FloatLength;
    hide IntegerLength;
    hide HexLength;
    hide LongLength;
    Beats(t, r, n, FloatRule);
    Beats(t, r, n, IntegerRule);
    Beats(t, r, n, Integer64Rule);
    Beats(t, r, n, HexRule);
    Beats(t, r, n, Hex64Rule);
    Beats(t, r, n, Other);
    OnlyNumbers(t, r);
    NumberLengths(t);
    LexNumber(t);
    NumberTaken(t, r, n);
  }

  // A number rule is at most as long, and comes first if it is as long.
  predicate Behind(q: Rule, m: nat, r: Rule, n: nat) {
    m <= n && (m == n ==> Rank(r) <= Rank(q))
  }

  lemma {:induction false} NumberTaken(t: string, r: Rule, n: nat)
    requires t != [] && 0 < n <= |t| && r in {FloatRule, IntegerRule, Integer64Rule, HexRule, Hex64Rule, Other}
    requires r == FloatRule ==> n == FloatLength(t)
    requires r == IntegerRule ==> n == IntegerLength(t)
    requires r == Integer64Rule ==> n == LongLength(t, IntegerLength(t))
    requires r == HexRule ==> n == HexLength(t)
    requires r == Hex64Rule ==> n == LongLength(t, HexLength(t))
    requires r == Other ==> n == 1
    requires Behind(FloatRule, FloatLength(t), r, n) && Behind(IntegerRule, IntegerLength(t), r, n)
    requires Behind(Integer64Rule, LongLength(t, IntegerLength(t)), r, n) && Behind(HexRule, HexLength(t), r, n)
    requires Behind(Hex64Rule, LongLength(t, HexLength(t)), r, n) && Behind(Other, 1, r, n)
    ensures Number(t) == Done(t, r, n)
  {
    hide FloatLength;
    hide IntegerLength;
    hide HexLength;
    hide LongLength;
    hide Atoi;
    hide StrtoulHex;
    hide Clamped;
    hide ClampedHex;
    hide Signed;
  }

  lemma {:induction false} BlanksAre(t: string, r: Rule, n: nat)
    requires t != [] && Takes(t, r, n) && In(Blank, t[0]) && !Lex(t).Outside?
    ensures Lex(t) == Done(t, r, n)
  {
    hide Takes;
    hide FloatLength;
    hide IntegerLength;
    hide HexLength;
    hide LongLength;
    hide WordLength;
    hide NameLength;
    WordStarts(t);
    NumberStarts(t);
    Beats(t, r, n, BlankRow);
    Beats(t, r, n, Other);
  }

  lemma {:induction false} OnlyComments(t: string, r: Rule)
    requires t != [] && (t[0] == '/' || t[0] == '#') && BestLength(r, t) > 0
    ensures r in {OpenComment, Comment, Other}
    ensures BestLength(Other, t) == 1
  {
    hide WordLength;
    hide NameLength;
    hide FloatLength;
    hide IntegerLength;
    hide HexLength;
    hide LongLength;
    hide BlankLength;
    WordStarts(t);
    NumberStarts(t);
    BlankStarts(t);
  }

  lemma {:induction false} CommentIs(t: string, r: Rule, n: nat)
    requires t != [] && Takes(t, r, n) && (t[0] == '/' || t[0] == '#')
    ensures Lex(t) == Done(t, r, n)
  {
    hide Takes;
    hide Number;
    hide Word;
    hide Quoted;
    hide Span;
    Beats(t, r, n, OpenComment);
    Beats(t, r, n, Comment);
    Beats(t, r, n, Other);
    OnlyComments(t, r);
    SpanPast(t, if CommentHead(t) && t[0] == '/' then 2 else 1);
  }

  predicate Longer(r: Rule) {
    r in {OpenComment, BlankRow, TrueRule, FalseRule, NameRule, FloatRule, IntegerRule, Integer64Rule, HexRule,
          Hex64Rule, Comment}
  }

  // The other characters, each of which is taken by one rule.
  lemma {:induction false} OnlySign(t: string, r: Rule)
    requires t != [] && BestLength(r, t) > 0
    requires var c := t[0]; !NameStart(c) && !StartsNumber(c) && !In(Blank, c) && c != '/' && c != '#'
    ensures !Longer(r)
    ensures BestLength(r, t) == 1
  {
    hide WordLength;
    hide NameLength;
    hide FloatLength;
    hide IntegerLength;
    hide HexLength;
    hide LongLength;
    hide BlankLength;
    WordStarts(t);
    NumberStarts(t);
    BlankStarts(t);
  }

  lemma {:induction false} SignIsTaken(t: string, r: Rule, n: nat)
    requires t != [] && Takes(t, r, n) && !Lex(t).Outside?
    requires var c := t[0]; !NameStart(c) && !StartsNumber(c) && !In(Blank, c) && c != '/' && c != '#'
    ensures Lex(t) == Done(t, r, n)
  {
    hide Takes;
    hide Lex;
    hide BestLength;
    Beats(t, r, n, r);
    OnlySign(t, r);
    if r.Other? {
      Beats(t, r, n, LineEnd);
      Beats(t, r, n, OpenString);
      Beats(t, r, n, Equals);
      Beats(t, r, n, Comma);
      Beats(t, r, n, GroupStart);
      Beats(t, r, n, GroupEnd);
      Beats(t, r, n, ArrayStart);
      Beats(t, r, n, ArrayEnd);
      Beats(t, r, n, ListStart);
      Beats(t, r, n, ListEnd);
      Beats(t, r, n, End);
      OtherTaken(t);
    } else {
      SignTaken(t, r);
    }
  }

  lemma {:induction false} SignTaken(t: string, r: Rule)
    requires t != [] && BestLength(r, t) == 1 && !r.Other?
    requires !Longer(r)
    ensures Lex(t) == Done(t, r, 1)
  {
    hide Number;
    hide Word;
    hide Quoted;
    hide Blanks;
    hide LineComment;
  }

  lemma {:induction false} OtherTaken(t: string)
    requires t != [] && !Lex(t).Outside?
    requires var c := t[0]; !NameStart(c) && !StartsNumber(c) && !In(Blank, c) && c != '/' && c != '#'
    requires BestLength(LineEnd, t) == BestLength(OpenString, t) == BestLength(Equals, t) == BestLength(Comma, t) == 0
    requires BestLength(GroupStart, t) == BestLength(GroupEnd, t) == 0
    requires BestLength(ArrayStart, t) == BestLength(ArrayEnd, t) == 0
    requires BestLength(ListStart, t) == BestLength(ListEnd, t) == BestLength(End, t) == 0
    ensures Lex(t) == Found(TokGarbage, 1)
  {
    hide Number;
    hide Word;
    hide Quoted;
    hide Blanks;
    hide LineComment;
  }

  // ---------- there is always one ----------

  const RULES: seq<Rule> := [
    OpenComment, OpenString, LineEnd, BlankRow, Equals, Comma, GroupStart, GroupEnd, TrueRule, FalseRule,
    NameRule, FloatRule, IntegerRule, Integer64Rule, HexRule, Hex64Rule, ArrayStart, ArrayEnd, ListStart,
    ListEnd, End, Comment, Other]

  lemma {:induction false} Ranks(r: Rule)
    ensures |RULES| == 23 && Rank(r) < |RULES| && RULES[Rank(r)] == r
  {
  }

  // The first of those among the first rules that match most.
  lemma {:induction false} Winner(t: string, k: nat) returns (r: Rule)
    requires t != [] && k < |RULES|
    ensures Rank(r) <= k
    ensures forall j :: 0 <= j <= k ==>
      BestLength(RULES[j], t) < BestLength(r, t) || (BestLength(RULES[j], t) == BestLength(r, t) && Rank(r) <= j)
    decreases k
  {
    hide BestLength;
    hide Rank;
    RankOf(k);
    if k == 0 {
      r := RULES[0];
    } else {
      r := Winner(t, k - 1);
      if BestLength(RULES[k], t) > BestLength(r, t) { r := RULES[k]; }
    }
  }

  lemma {:induction false} RankOf(k: nat)
    requires k < |RULES|
    ensures Rank(RULES[k]) == k
  {
  }

  // On every text that is not at its end, some rule is used, and only one.
  lemma {:induction false} OneRuleTakes(t: string) returns (r: Rule, n: nat)
    requires t != []
    ensures Takes(t, r, n) && forall q, m :: Takes(t, q, m) ==> q == r && m == n
  {
    hide Matches;
    hide BestLength;
    hide Pattern;
    hide Rank;
    Ranks(Other);
    r := Winner(t, 22);
    n := BestLength(r, t);
    SomeMatch(t, r);
    BestIs(r, t);
    forall q, m | 0 < m <= |t| && Matches(Pattern(q), t[..m])
      ensures m < n || (m == n && Rank(r) <= Rank(q))
    {
      BestIs(q, t);
      Ranks(q);
    }
    forall q, m | Takes(t, q, m)
      ensures q == r && m == n
    {
      Ranks(q);
      Ranks(r);
    }
  }

  lemma {:induction false} SomeMatch(t: string, r: Rule)
    requires t != []
    requires forall j :: 0 <= j <= 22 ==>
      BestLength(RULES[j], t) < BestLength(r, t) || (BestLength(RULES[j], t) == BestLength(r, t) && Rank(r) <= j)
    ensures BestLength(r, t) > 0
  {
    hide BestLength;
    Ranks(LineEnd);
    Ranks(Other);
    OneCharacter(t);
  }

  lemma OneCharacter(t: string)
    requires t != []
    ensures BestLength(LineEnd, t) == 1 || BestLength(Other, t) == 1
  {
  }

  // The model leaves off exactly where an include directive could begin: at an @, blanks in front
  // of it or not.
  lemma {:induction false} OutsideIs(t: string)
    requires t != []
    ensures Lex(t).Outside? <==> exists i :: 0 <= i < |t| && t[i] == '@' && AllIn(Blank, t, 0, i)
  {
    hide Quoted;
    hide Number;
    hide Word;
    hide LineComment;
    NotOutside(t);
    assert t[0..] == t;
    var n := Span(Blank, t);
    SpanAt(Blank, t, 0, n);
    forall i | 0 <= i < |t| && t[i] == '@' && AllIn(Blank, t, 0, i)
      ensures i == n
    {
      SpanAt(Blank, t, 0, i);
      BlankIsNoAt(t);
    }
    assert n > 0 ==> In(Blank, t[0]);
    if Lex(t).Outside? { assert n < |t| && t[n] == '@' && AllIn(Blank, t, 0, n); }
  }

  lemma {:induction false} NotOutside(t: string)
    requires t != []
    ensures !Number(t).Outside? && !Word(t).Outside? && !LineComment(t).Outside?
  {
    hide FloatLength;
    hide IntegerLength;
    hide HexLength;
    hide LongLength;
    hide Span;
  }
}
