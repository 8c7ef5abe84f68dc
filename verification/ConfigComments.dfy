/** Comments and string literals, which the scanner reads in states of their own. */
module ConfigComments {
  import opened Wrappers
  import opened ConfigTables
  import opened ConfigNumbers
  import opened ConfigParser
  import opened ConfigActions
  import opened ConfigScanner
  import opened ConfigFile
  import opened ConfigLiterals
  import opened ConfigRegex
  import opened ConfigRules

  // ---------- comments to the end of the line ----------

  // A comment with its line's end behind it is as if it were not there.
  lemma {:induction false} LineSkipped(head: string, body: string, rest: string)
    requires (head == "#" || head == "//") && '\n' !in body
    ensures Scan(head + body + "\n" + rest) == Scan("\n" + rest)
  {
    hide Number;
    hide Word;
    hide Quoted;
    hide Blanks;
    var t, n := head + body + "\n" + rest, |head + body|;
    assert t == (head + body) + ("\n" + rest) && t[n..] == "\n" + rest;
    SpanIs(NotNewline, head + body, "\n" + rest);
    assert Lex(t) == Skip(n);
  }

  // At the end of the text, with no newline behind it, it is no comment: its first character is a
  // token that no configuration has.
  lemma {:induction false} LastLine(head: string, body: string)
    requires (head == "#" || head == "//") && '\n' !in body
    ensures Scan(head + body) == Before([TokGarbage], Scan((head + body)[1..]))
  {
    hide Number;
    hide Word;
    hide Quoted;
    hide Blanks;
    var t := head + body;
    SpanIs(NotNewline, t, []);
    assert t + [] == t;
    assert Lex(t) == Found(TokGarbage, 1);
  }

  // ---------- block comments ----------

  // The first end of a comment in body and its end mark is that mark.
  predicate EndsOnce(body: string) {
    var t := body + "*/";
    forall i :: 0 <= i < |body| ==> !(t[i] == '*' && t[i + 1] == '/')
  }

  lemma {:induction false} CommentEnds(body: string, rest: string)
    requires EndsOnce(body)
    ensures CommentEnd(body + "*/" + rest) == |body| + 2
  {
    var t := body + "*/" + rest;
    assert t == body + ("*/" + rest);
    if body != [] {
      assert (body + "*/")[0] == t[0] && (body + "*/")[1] == t[1];
      assert t[1..] == body[1..] + "*/" + rest;
      forall i | 0 <= i < |body[1..]|
        ensures !((body[1..] + "*/")[i] == '*' && (body[1..] + "*/")[i + 1] == '/')
      {
        assert (body[1..] + "*/")[i] == (body + "*/")[i + 1] && (body[1..] + "*/")[i + 1] == (body + "*/")[i + 2];
      }
      CommentEnds(body[1..], rest);
    }
  }

  // Everything up to the first end mark is skipped, whatever it is; one that is never ended
  // takes the rest of the text away, silently.
  lemma {:induction false} BlockSkipped(body: string, rest: string)
    requires EndsOnce(body)
    ensures Scan("/*" + body + "*/" + rest) == Scan(rest)
  {
    hide Number;
    hide Word;
    hide Quoted;
    hide Blanks;
    hide LineComment;
    hide CommentEnd;
    var t := "/*" + body + "*/" + rest;
    assert t == "/*" + (body + "*/" + rest) && t[2..] == body + "*/" + rest;
    CommentEnds(body, rest);
    assert t[|body| + 4..] == rest;
    assert Lex(t) == Skip(|body| + 4);
  }

  lemma {:induction false} NeverEnds(body: string)
    requires forall i :: 0 <= i < |body| - 1 ==> !(body[i] == '*' && body[i + 1] == '/')
    ensures CommentEnd(body) == |body|
  {
    if |body| >= 2 { NeverEnds(body[1..]); }
  }

  lemma {:induction false} OpenBlock(body: string)
    requires forall i :: 0 <= i < |body| - 1 ==> !(body[i] == '*' && body[i + 1] == '/')
    ensures Scan("/*" + body) == Tokens([])
  {
    hide Number;
    hide Word;
    hide Quoted;
    hide Blanks;
    hide LineComment;
    hide CommentEnd;
    var t := "/*" + body;
    assert t[2..] == body && t[|t|..] == [];
    NeverEnds(body);
    assert Lex(t) == Skip(|t|);
  }

  // A string that is never closed takes the rest of the text away in the same way.
  lemma {:induction false} OpenString(s: string)
    requires '\"' !in s
    ensures Scan("\"" + s) == Tokens([])
  {
    hide Number;
    hide Word;
    hide Blanks;
    hide LineComment;
    hide Quoted;
    var t := "\"" + s;
    assert t[0] == '\"' && t[1..] == s;
    NeverClosed(s);
    assert Lex(t) == Finished;
  }

  lemma {:induction false} NeverClosed(s: string)
    requires '\"' !in s
    ensures Quoted(s) == Unclosed
    decreases |s|
  {
    if s != [] {
      NeverClosed(s[1..]);
      if |s| >= 2 { NeverClosed(s[2..]); }
      if |s| >= 4 { NeverClosed(s[4..]); }
    }
  }

  // ---------- what is no token of the grammar ----------

  lemma NoRuleHasGarbage(rule: int, j: int)
    ensures RhsAt(rule, j) != TokGarbage.Symbol() && YyR1(rule) != TokGarbage.Symbol()
  {
  }

  lemma {:induction false} NoGarbage(t: Tree)
    requires Derivation(t) && t.Node?
    ensures TokGarbage !in Yield(t)
    decreases t, 0
  {
    hide RhsAt;
    hide YyR1;
    hide YyR2;
    NoGarbageIn(t.rule, t.kids, |t.kids|);
    assert t.kids[..|t.kids|] == t.kids;
  }

  lemma {:induction false} NoGarbageIn(rule: int, kids: seq<Tree>, n: nat)
    requires Derivation(Node(rule, kids)) && n <= |kids|
    ensures TokGarbage !in YieldAll(kids[..n])
    decreases kids, 1, n
  {
    hide RhsAt;
    hide YyR1;
    hide YyR2;
    if n > 0 {
      NoGarbageIn(rule, kids, n - 1);
      assert kids[..n][..n - 1] == kids[..n - 1] && kids[..n][n - 1] == kids[n - 1];
      NoRuleHasGarbage(rule, n - 1);
      if kids[n - 1].Node? { NoGarbage(kids[n - 1]); }
    }
  }

  // So a text that ends in a comment without a newline is refused.
  lemma {:induction false} LastLineRefused(front: seq<Token>, head: string, body: string)
    requires (head == "#" || head == "//") && '\n' !in body
    ensures match Before(front, Scan(head + body))
            case NotModelled => true
            case Tokens(ts) => !Read(ts).Accepted?
  {
    hide Scan;
    hide Read;
    LastLine(head, body);
    var r := Before(front, Scan(head + body));
    if r.Tokens? {
      assert r.tokens[|front|] == TokGarbage;
      GarbageRefused(r.tokens);
    }
  }

  lemma {:induction false} GarbageRefused(ts: seq<Token>)
    requires TokGarbage in ts
    ensures !Read(ts).Accepted?
  {
    hide Run;
    hide Explains;
    StartIsReady(ts);
    if Read(ts).Accepted? {
      var ctx := Read(ts).ctx;
      ParserCorrect(ts, StartCtx(), ctx, ACT);
      var t: Tree :| Explains(t, ts, StartCtx(), ctx, ACT);
      ExplainsYield(t, ts, StartCtx(), ctx);
      NoGarbage(t);
    }
  }

  lemma {:induction false} ExplainsYield(t: Tree, ts: seq<Token>, c: Ctx, ctx: Ctx)
    requires Explains(t, ts, c, ctx, ACT)
    ensures Derivation(t) && t.Node? && Yield(t) == ts
  {
    NodeOf(t);
  }

  // ---------- the rules inside a string ----------

  datatype StringRule =
    | Row | NewlineRule | ReturnRule | TabRule | FeedRule | BackslashRule | QuoteRule | HexCharRule | Close | Echo

  function StringPattern(r: StringRule): Regex {
    match r
    case Row => Plus(NoneOf("\"\\"))
    case NewlineRule => Then(One('\\'), One('n'))
    case ReturnRule => Then(One('\\'), One('r'))
    case TabRule => Then(One('\\'), One('t'))
    case FeedRule => Then(One('\\'), One('f'))
    case BackslashRule => Then(One('\\'), One('\\'))
    case QuoteRule => Then(One('\\'), One('\"'))
    case HexCharRule => Then(One('\\'), Then(Either('X', 'x'), Then(HexDig(), HexDig())))
    case Close => One('\"')
    case Echo => NoneOf("")
  }

  // Their order in the file; what no rule matches is echoed, one character at a time.
  function StringRank(r: StringRule): nat {
    match r
    case Row => 0 case NewlineRule => 1 case ReturnRule => 2 case TabRule => 3 case FeedRule => 4
    case BackslashRule => 5 case QuoteRule => 6 case HexCharRule => 7 case Close => 8 case Echo => 9
  }

  ghost predicate TakesInString(t: string, r: StringRule, n: nat) {
    && 0 < n <= |t| && Matches(StringPattern(r), t[..n])
    && forall q, m :: 0 < m <= |t| && Matches(StringPattern(q), t[..m]) ==>
      m < n || (m == n && StringRank(r) <= StringRank(q))
  }

  // When a rule matches the first m characters.
  ghost predicate FitsFront(t: string, r: StringRule, m: nat)
    requires 0 < m <= |t|
  {
    match r
    case Row => forall i :: 0 <= i < m ==> t[i] != '\"' && t[i] != '\\'
    case NewlineRule => m == 2 && t[0] == '\\' && t[1] == 'n'
    case ReturnRule => m == 2 && t[0] == '\\' && t[1] == 'r'
    case TabRule => m == 2 && t[0] == '\\' && t[1] == 't'
    case FeedRule => m == 2 && t[0] == '\\' && t[1] == 'f'
    case BackslashRule => m == 2 && t[0] == '\\' && t[1] == '\\'
    case QuoteRule => m == 2 && t[0] == '\\' && t[1] == '\"'
    case HexCharRule =>
      m == 4 && t[0] == '\\' && (t[1] == 'x' || t[1] == 'X') && Digit(t[2], 16) && Digit(t[3], 16)
    case Close => m == 1 && t[0] == '\"'
    case Echo => m == 1
  }

  lemma {:induction false} PairAt(c: char, d: char, t: string, m: nat)
    requires m <= |t|
    ensures Matches(Then(One(c), One(d)), t[0..m]) <==> m == 2 && t[0] == c && t[1] == d
  {
    hide Matches;
    if Matches(Then(One(c), One(d)), t[0..m]) {
      var j := SplitIn(One(c), One(d), t, 0, m);
      OneAt(c, t, 0, j);
      OneAt(d, t, j, m);
    }
    if m == 2 && t[0] == c && t[1] == d {
      OneAt(c, t, 0, 1);
      OneAt(d, t, 1, 2);
      JoinIn(One(c), One(d), t, 0, 1, 2);
    }
  }

  lemma {:induction false} HexDigAt(t: string, lo: nat, hi: nat)
    requires lo <= hi <= |t|
    ensures Matches(HexDig(), t[lo..hi]) <==> hi == lo + 1 && Digit(t[lo], 16)
  {
    hide Matches;
    SinglesAre();
    if Matches(HexDig(), t[lo..hi]) { SingleIs(HexDig(), t[lo..hi]); }
    if hi == lo + 1 {
      assert t[lo..hi] == [t[lo]];
      HexClass(t[lo]);
    }
  }

  lemma {:induction false} HexCharAt(t: string, m: nat)
    requires 0 < m <= |t|
    ensures Matches(StringPattern(HexCharRule), t[0..m]) <==> FitsFront(t, HexCharRule, m)
  {
    hide Matches;
    hide HexDig;
    var two := Then(HexDig(), HexDig());
    if Matches(StringPattern(HexCharRule), t[0..m]) {
      var i := SplitIn(One('\\'), Then(Either('X', 'x'), two), t, 0, m);
      var j := SplitIn(Either('X', 'x'), two, t, i, m);
      var k := SplitIn(HexDig(), HexDig(), t, j, m);
      OneAt('\\', t, 0, i);
      EitherAt('X', 'x', t, i, j);
      HexDigAt(t, j, k);
      HexDigAt(t, k, m);
    }
    if FitsFront(t, HexCharRule, m) {
      OneAt('\\', t, 0, 1);
      EitherAt('X', 'x', t, 1, 2);
      HexDigAt(t, 2, 3);
      HexDigAt(t, 3, 4);
      JoinIn(HexDig(), HexDig(), t, 2, 3, 4);
      JoinIn(Either('X', 'x'), two, t, 1, 2, 4);
      JoinIn(One('\\'), Then(Either('X', 'x'), two), t, 0, 1, 4);
    }
  }

  lemma {:induction false} RowAt(t: string, m: nat)
    requires 0 < m <= |t|
    ensures Matches(StringPattern(Row), t[0..m]) <==> FitsFront(t, Row, m)
  {
    hide Matches;
    var a := NoneOf("\"\\");
    RowChars();
    if Matches(Plus(a), t[0..m]) {
      var i := SplitIn(a, Many(a), t, 0, m);
      SingleIs(a, t[0..i]);
      assert t[0..1] == [t[0]];
      ManySingles(a, t[1..m]);
      forall k | 0 <= k < m
        ensures t[k] != '\"' && t[k] != '\\'
      {
        if k > 0 { assert t[1..m][k - 1] == t[k]; }
      }
    }
    if FitsFront(t, Row, m) {
      assert t[0..1] == [t[0]];
      forall k | 0 <= k < |t[1..m]|
        ensures Matches(a, [t[1..m][k]])
      {
        assert t[1..m][k] == t[k + 1];
      }
      ManySingles(a, t[1..m]);
      JoinIn(a, Many(a), t, 0, 1, m);
    }
  }

  lemma RowChars()
    ensures forall c: char :: Matches(NoneOf("\"\\"), [c]) <==> c != '\"' && c != '\\'
  {
  }

  lemma AnyAt(t: string, m: nat)
    requires m <= |t|
    ensures Matches(NoneOf(""), t[0..m]) <==> m == 1
  {
  }

  lemma {:induction false} FitsIs(t: string, r: StringRule, m: nat)
    requires 0 < m <= |t|
    ensures Matches(StringPattern(r), t[..m]) <==> FitsFront(t, r, m)
  {
    hide Matches;
    assert t[..m] == t[0..m];
    match r
    case Row => RowAt(t, m);
    case HexCharRule => HexCharAt(t, m);
    case Close => OneAt('\"', t, 0, m);
    case Echo => AnyAt(t, m);
    case NewlineRule => PairAt('\\', 'n', t, m);
    case ReturnRule => PairAt('\\', 'r', t, m);
    case TabRule => PairAt('\\', 't', t, m);
    case FeedRule => PairAt('\\', 'f', t, m);
    case BackslashRule => PairAt('\\', '\\', t, m);
    case QuoteRule => PairAt('\\', '\"', t, m);
  }

  // What the rule used adds to the string, and that the string goes on behind it or is closed.
  function StringDone(t: string, r: StringRule, n: nat): Text
    requires 0 < n <= |t|
  {
    var rest := Quoted(t[n..]);
    match r
    case Row => Prefixed(t[..n], n, rest)
    case NewlineRule => Prefixed("\n", n, rest)
    case ReturnRule => Prefixed("\r", n, rest)
    case TabRule => Prefixed("\t", n, rest)
    case FeedRule => Prefixed([FORMFEED], n, rest)
    case BackslashRule => Prefixed("\\", n, rest)
    case QuoteRule => Prefixed("\"", n, rest)
    case HexCharRule =>
      var v := if n == 4 && Digit(t[2], 16) && Digit(t[3], 16) then 16 * DigitValue(t[2]) + DigitValue(t[3]) else 0;
      Prefixed(if v == 0 then "" else [v as char], n, rest)
    case Close => Text("", 1)
    case Echo => Prefixed("", n, rest)
  }

  // A string is read as its rules say: the longest match, and of those as long the first.
  lemma {:induction false} StringIs(t: string, r: StringRule, n: nat)
    requires TakesInString(t, r, n)
    ensures Quoted(t) == StringDone(t, r, n)
  {
    hide Matches;
    FitsIs(t, r, n);
    FitsIs(t, Row, 1);
    FitsIs(t, Close, 1);
    if |t| >= 2 {
      FitsIs(t, NewlineRule, 2);
      FitsIs(t, ReturnRule, 2);
      FitsIs(t, TabRule, 2);
      FitsIs(t, FeedRule, 2);
      FitsIs(t, BackslashRule, 2);
      FitsIs(t, QuoteRule, 2);
    }
    if |t| >= 4 { FitsIs(t, HexCharRule, 4); }
    if r.Row? { RunTaken(t, n); }
    else { StringTaken(t, r, n); }
  }

  lemma {:induction false} StringTaken(t: string, r: StringRule, n: nat)
    requires 0 < n <= |t| && !r.Row? && FitsFront(t, r, n)
    requires r.Echo? ==> !FitsFront(t, Row, 1) && !FitsFront(t, Close, 1)
    requires r.Echo? && |t| >= 2 ==>
      && !FitsFront(t, NewlineRule, 2) && !FitsFront(t, ReturnRule, 2) && !FitsFront(t, TabRule, 2)
      && !FitsFront(t, FeedRule, 2) && !FitsFront(t, BackslashRule, 2) && !FitsFront(t, QuoteRule, 2)
    requires r.Echo? && |t| >= 4 ==> !FitsFront(t, HexCharRule, 4)
    ensures Quoted(t) == StringDone(t, r, n)
  {
  }
}
